/**
 The generated methods of the flat log record, on a mutable record whose string lists are slices that
 share their backing arrays with whoever filled them.
 */
module FlatLogRecords {
  import opened Bytes
  import opened MsgPack
  import opened MsgPackSkip
  import opened Options
  import opened FlatLogCodec

  /** The first `len` elements of a backing array; the array's length is the capacity. */
  datatype Slice = Slice(arr: array<Str>, len: nat) {
    ghost predicate Valid()
    {
      len <= arr.Length
    }

    ghost function Elements(): seq<Str>
      requires Valid()
      reads arr
    {
      arr[..len]
    }
  }

  /** A streaming writer. A write that fails may have appended any part of its bytes. */
  class Writer {
    var out: seq<byte>
    /** Whether a write has failed. */
    ghost var failed: bool

    method Append(bytes: seq<byte>) returns (ok: bool)
      modifies this
      ensures if ok then out == old(out) + bytes else old(out) <= out <= old(out) + bytes
      ensures failed == (old(failed) || !ok)
    {
      ok := *;
      var part :| 0 <= part <= |bytes|;
      out := out + if ok then bytes else bytes[..part];
      failed := failed || !ok;
    }
  }

  /** A streaming reader; `rest` is the input not yet consumed. */
  class Reader {
    var rest: seq<byte>
  }

  // ---- The byte literals of the generated code

  function KeyBytes(f: Field): seq<byte>
  {
    match f
    case Timestamp => [0xa9, 0x74, 0x69, 0x6d, 0x65, 0x73, 0x74, 0x61, 0x6d, 0x70]
    case ObservedTimestamp =>
      [0xb1, 0x6f, 0x62, 0x73, 0x65, 0x72, 0x76, 0x65, 0x64, 0x54, 0x69, 0x6d, 0x65, 0x73, 0x74, 0x61, 0x6d, 0x70]
    case InsertedAt => [0xaa, 0x69, 0x6e, 0x73, 0x65, 0x72, 0x74, 0x65, 0x64, 0x41, 0x74]
    case TraceId => [0xa7, 0x74, 0x72, 0x61, 0x63, 0x65, 0x49, 0x64]
    case SpanId => [0xa6, 0x73, 0x70, 0x61, 0x6e, 0x49, 0x64]
    case SeverityText => [0xac, 0x73, 0x65, 0x76, 0x65, 0x72, 0x69, 0x74, 0x79, 0x54, 0x65, 0x78, 0x74]
    case SeverityNumber => [0xae, 0x73, 0x65, 0x76, 0x65, 0x72, 0x69, 0x74, 0x79, 0x4e, 0x75, 0x6d, 0x62, 0x65, 0x72]
    case ServiceName => [0xab, 0x73, 0x65, 0x72, 0x76, 0x69, 0x63, 0x65, 0x4e, 0x61, 0x6d, 0x65]
    case Body => [0xa4, 0x62, 0x6f, 0x64, 0x79]
    case BodyType => [0xa8, 0x62, 0x6f, 0x64, 0x79, 0x54, 0x79, 0x70, 0x65]
    case ScopeName => [0xa9, 0x73, 0x63, 0x6f, 0x70, 0x65, 0x4e, 0x61, 0x6d, 0x65]
    case ScopeVersion => [0xac, 0x73, 0x63, 0x6f, 0x70, 0x65, 0x56, 0x65, 0x72, 0x73, 0x69, 0x6f, 0x6e]
    case LogAttrKeys => [0xab, 0x6c, 0x6f, 0x67, 0x41, 0x74, 0x74, 0x72, 0x4b, 0x65, 0x79, 0x73]
    case LogAttrValues => [0xad, 0x6c, 0x6f, 0x67, 0x41, 0x74, 0x74, 0x72, 0x56, 0x61, 0x6c, 0x75, 0x65, 0x73]
    case ResAttrKeys => [0xab, 0x72, 0x65, 0x73, 0x41, 0x74, 0x74, 0x72, 0x6b, 0x65, 0x79, 0x73]
    case ResAttrValues => [0xad, 0x72, 0x65, 0x73, 0x41, 0x74, 0x74, 0x72, 0x56, 0x61, 0x6c, 0x75, 0x65, 0x73]
  }

  lemma Spells(lit: seq<byte>, name: string)
    requires |lit| == |name| + 1 && |name| <= 31 && lit[0] == 0xa0 + |name|
    requires forall i :: 0 <= i < |name| ==> lit[i + 1] == name[i] as int
    ensures lit == AppendString(Ascii(name))
  {
    assert lit == [0xa0 + |name|] + Ascii(name);
  }

  /** Each literal is the string header and the characters of the key. */
  lemma KeyBytesSpellKeys(f: Field)
    ensures KeyBytes(f) == AppendString(Key(f))
  {
    hide KeyBytes, KeyName;
    match f
    case Timestamp | ObservedTimestamp | InsertedAt => SpellTimeKeys(f);
    case TraceId | SpanId | SeverityText | SeverityNumber | ServiceName => SpellOriginKeys(f);
    case Body | BodyType | ScopeName | ScopeVersion => SpellContentKeys(f);
    case LogAttrKeys | LogAttrValues | ResAttrKeys | ResAttrValues => SpellAttrKeys(f);
  }

  lemma SpellTimeKeys(f: Field)
    requires f.Timestamp? || f.ObservedTimestamp? || f.InsertedAt?
    ensures KeyBytes(f) == AppendString(Key(f))
  {
    match f
    case Timestamp => Spells(KeyBytes(Timestamp), KeyName(Timestamp));
    case ObservedTimestamp => Spells(KeyBytes(ObservedTimestamp), KeyName(ObservedTimestamp));
    case InsertedAt => Spells(KeyBytes(InsertedAt), KeyName(InsertedAt));
  }

  lemma SpellOriginKeys(f: Field)
    requires f.TraceId? || f.SpanId? || f.SeverityText? || f.SeverityNumber? || f.ServiceName?
    ensures KeyBytes(f) == AppendString(Key(f))
  {
    match f
    case TraceId => Spells(KeyBytes(TraceId), KeyName(TraceId));
    case SpanId => Spells(KeyBytes(SpanId), KeyName(SpanId));
    case SeverityText => Spells(KeyBytes(SeverityText), KeyName(SeverityText));
    case SeverityNumber => Spells(KeyBytes(SeverityNumber), KeyName(SeverityNumber));
    case ServiceName => Spells(KeyBytes(ServiceName), KeyName(ServiceName));
  }

  lemma SpellContentKeys(f: Field)
    requires f.Body? || f.BodyType? || f.ScopeName? || f.ScopeVersion?
    ensures KeyBytes(f) == AppendString(Key(f))
  {
    match f
    case Body => Spells(KeyBytes(Body), KeyName(Body));
    case BodyType => Spells(KeyBytes(BodyType), KeyName(BodyType));
    case ScopeName => Spells(KeyBytes(ScopeName), KeyName(ScopeName));
    case ScopeVersion => Spells(KeyBytes(ScopeVersion), KeyName(ScopeVersion));
  }

  lemma SpellAttrKeys(f: Field)
    requires f.LogAttrKeys? || f.LogAttrValues? || f.ResAttrKeys? || f.ResAttrValues?
    ensures KeyBytes(f) == AppendString(Key(f))
  {
    match f
    case LogAttrKeys => Spells(KeyBytes(LogAttrKeys), KeyName(LogAttrKeys));
    case LogAttrValues => Spells(KeyBytes(LogAttrValues), KeyName(LogAttrValues));
    case ResAttrKeys => Spells(KeyBytes(ResAttrKeys), KeyName(ResAttrKeys));
    case ResAttrValues => Spells(KeyBytes(ResAttrValues), KeyName(ResAttrValues));
  }

  /** The encoding of the first `k` fields, header included. */
  ghost function Written(z: FlatLog, k: nat): seq<byte>
    requires k <= |FIELDS|
  {
    [0xde, 0x0, 0x10] + EncodeFields(z, FIELDS[..k])
  }

  lemma EncodeFieldsStep(z: FlatLog, fs: seq<Field>, k: nat)
    requires k < |fs|
    ensures EncodeFields(z, fs[..k + 1]) == EncodeFields(z, fs[..k]) + EncodeField(z, fs[k])
  {
    hide EncodeField;
    assert fs[..k + 1][..k] == fs[..k];
  }

  /** One step of the encoder: the key literal and the value of the next field. */
  lemma WriteField(b: seq<byte>, z: FlatLog, f: Field, v: Val, o: seq<byte>)
    requires v == Get(z, f) && o == b + Written(z, Index(f))
    ensures o + KeyBytes(f) + EncodeVal(v) == b + Written(z, Index(f) + 1)
  {
    hide Get, EncodeVal, KeyBytes, EncodeFields, Index, AppendString, Key, Matches;
    FieldAt(f);
    KeyBytesSpellKeys(f);
    EncodeFieldsStep(z, FIELDS, Index(f));
    Regroup(b, [0xde, 0x0, 0x10], EncodeFields(z, FIELDS[..Index(f)]), KeyBytes(f), EncodeVal(v));
  }

  lemma Regroup(b: seq<byte>, h: seq<byte>, a: seq<byte>, k: seq<byte>, v: seq<byte>)
    ensures b + (h + a) + k + v == b + (h + (a + (k + v)))
  {
  }

  lemma AllWritten(z: FlatLog)
    ensures Written(z, 16) == EncodeLog(z)
    ensures Written(z, 0) == [0xde, 0x0, 0x10]
  {
    assert FIELDS[..16] == FIELDS;
  }

  lemma {:induction false} AppendStringsSnoc(ss: seq<Str>, s: Str)
    ensures AppendStrings(ss + [s]) == AppendStrings(ss) + AppendString(s)
  {
    if ss == [] {
      assert [s][1..] == [];
    } else {
      assert (ss + [s])[1..] == ss[1..] + [s];
      AppendStringsSnoc(ss[1..], s);
    }
  }

  method AppendSlice(b: seq<byte>, s: Slice) returns (o: seq<byte>)
    requires s.Valid()
    ensures o == b + EncodeVal(ListVal(s.Elements()))
  {
    hide AppendString, ArrayHeader;
    o := b + ArrayHeader(s.len);
    ghost var ss := s.Elements();
    for i := 0 to s.len
      invariant o == b + ArrayHeader(s.len) + AppendStrings(ss[..i])
    {
      o := o + AppendString(s.arr[i]);
      AppendStringsSnoc(ss[..i], ss[i]);
      assert s.arr[i] == ss[i] && ss[..i + 1] == ss[..i] + [ss[i]];
    }
    assert ss[..s.len] == ss;
  }

  lemma {:induction false} AppendStringsPrefix(ss: seq<Str>, i: nat)
    requires i <= |ss|
    ensures AppendStrings(ss[..i]) <= AppendStrings(ss)
  {
    var n := |ss| - 1;
    if i <= n {
      AppendStringsPrefix(ss[..n], i);
      assert ss[..n][..i] == ss[..i] && ss == ss[..n] + [ss[n]];
      AppendStringsSnoc(ss[..n], ss[n]);
    } else {
      assert ss[..i] == ss;
    }
  }

  lemma {:induction false} WrittenPrefix(z: FlatLog, k: nat)
    requires k <= 16
    ensures Written(z, k) <= EncodeLog(z)
    decreases 16 - k
  {
    hide EncodeField;
    AllWritten(z);
    if k < 16 {
      WrittenPrefix(z, k + 1);
      EncodeFieldsStep(z, FIELDS, k);
    }
  }

  lemma Shorter(a: seq<byte>, b: seq<byte>, c: seq<byte>)
    requires a <= b && b <= c
    ensures a <= c
  {
  }

  /** A write that fails leaves a part of the encoding behind. */
  lemma PartWritten(b: seq<byte>, z: FlatLog, f: Field, part: seq<byte>)
    requires part <= b + Written(z, Index(f) + 1)
    ensures part <= b + EncodeLog(z)
  {
    hide Written, EncodeLog, Index;
    FieldAt(f);
    WrittenPrefix(z, Index(f) + 1);
    Shorter(part, b + Written(z, Index(f) + 1), b + EncodeLog(z));
  }

  /** Writes a key and a value. */
  method WriteScalar(en: Writer, f: Field, v: Val, ghost b: seq<byte>, ghost z: FlatLog) returns (ok: bool)
    requires v == Get(z, f) && !v.ListVal? && en.out == b + Written(z, Index(f))
    modifies en
    ensures en.failed == (old(en.failed) || !ok)
    ensures if ok then en.out == b + Written(z, Index(f) + 1) else en.out <= b + EncodeLog(z)
  {
    hide Get, KeyBytes, Written, EncodeLog, Index;
    WriteField(b, z, f, v, en.out);
    PartWritten(b, z, f, en.out + KeyBytes(f));
    ok := en.Append(KeyBytes(f));
    if !ok {
      Shorter(en.out, old(en.out) + KeyBytes(f), b + EncodeLog(z));
    } else {
      match v {
        case TimeVal(t) => ok := en.Append(AppendTime(t));
        case StrVal(s) => ok := en.Append(AppendString(s));
        case ByteVal(n) => ok := en.Append(AppendUint8(n));
      }
      if !ok { PartWritten(b, z, f, en.out); }
    }
  }

  /** What a failed write of a list may leave behind: everything up to string `i`. */
  lemma PartOfList(b: seq<byte>, ss: seq<Str>, i: nat)
    requires i <= |ss|
    ensures var all := b + EncodeVal(ListVal(ss));
            b <= all && b + ArrayHeader(|ss|) + AppendStrings(ss[..i]) <= all
    ensures b + ArrayHeader(|ss|) + AppendStrings(ss[..|ss|]) == b + EncodeVal(ListVal(ss))
  {
    hide AppendString, AppendStrings, ArrayHeader;
    AppendStringsPrefix(ss, i);
    assert ss[..|ss|] == ss;
    Extend(b, ArrayHeader(|ss|), AppendStrings(ss[..i]), AppendStrings(ss));
    Extend(b, ArrayHeader(|ss|), AppendStrings(ss), AppendStrings(ss));
  }

  lemma Extend(b: seq<byte>, h: seq<byte>, x: seq<byte>, y: seq<byte>)
    requires x <= y
    ensures b <= b + (h + y) && b + h + x <= b + (h + y) && b + h + y == b + (h + y)
  {
  }

  lemma NextString(b: seq<byte>, ss: seq<Str>, i: nat)
    requires i < |ss|
    ensures b + AppendStrings(ss[..i]) + AppendString(ss[i]) == b + AppendStrings(ss[..i + 1])
  {
    hide AppendString;
    AppendStringsSnoc(ss[..i], ss[i]);
    assert ss[..i + 1] == ss[..i] + [ss[i]];
  }

  method WriteStrings(en: Writer, s: Slice) returns (ok: bool)
    requires s.Valid()
    modifies en
    ensures en.failed == (old(en.failed) || !ok)
    ensures var all := old(en.out) + EncodeVal(ListVal(s.Elements())); if ok then en.out == all else en.out <= all
  {
    hide AppendString, AppendStrings, ArrayHeader, EncodeVal;
    ghost var b, ss := en.out, s.Elements();
    ghost var all := b + EncodeVal(ListVal(ss));
    PartOfList(b, ss, 0);
    assert AppendStrings(ss[..0]) == [] by { NoStrings(); }
    assert b + ArrayHeader(s.len) + [] == b + ArrayHeader(s.len);
    ok := en.Append(ArrayHeader(s.len));
    if !ok {
      Shorter(en.out, b + ArrayHeader(s.len), all);
      return;
    }
    for i := 0 to s.len
      invariant en.out == b + ArrayHeader(s.len) + AppendStrings(ss[..i]) && en.failed == old(en.failed)
    {
      PartOfList(b, ss, i + 1);
      NextString(b + ArrayHeader(s.len), ss, i);
      ok := en.Append(AppendString(s.arr[i]));
      if !ok {
        Shorter(en.out, b + ArrayHeader(s.len) + AppendStrings(ss[..i + 1]), all);
        return;
      }
    }
    PartOfList(b, ss, s.len);
  }

  lemma NoStrings()
    ensures AppendStrings([]) == []
  {
  }

  method WriteSlice(en: Writer, f: Field, s: Slice, ghost b: seq<byte>, ghost z: FlatLog) returns (ok: bool)
    requires s.Valid() && ListVal(s.Elements()) == Get(z, f) && en.out == b + Written(z, Index(f))
    modifies en
    ensures en.failed == (old(en.failed) || !ok)
    ensures if ok then en.out == b + Written(z, Index(f) + 1) else en.out <= b + EncodeLog(z)
  {
    hide Get, KeyBytes, Written, EncodeVal, EncodeLog, Index;
    WriteField(b, z, f, ListVal(s.Elements()), en.out);
    PartWritten(b, z, f, en.out + KeyBytes(f));
    ok := en.Append(KeyBytes(f));
    if !ok {
      Shorter(en.out, old(en.out) + KeyBytes(f), b + EncodeLog(z));
    } else {
      ok := WriteStrings(en, s);
      if !ok { PartWritten(b, z, f, en.out); }
    }
  }

  // ---- Size estimate

  function StringsSize(ss: seq<Str>): nat
  {
    if ss == [] then 0 else StringsSize(ss[..|ss| - 1]) + 5 + |ss[|ss| - 1]|
  }

  function MsgSize(z: FlatLog): nat
  {
    3 + 10 + 15 + 18 + 15 + 11 + 15 + 8 + 5 + |z.traceId| + 7 + 5 + |z.spanId| + 13 + 5 + |z.severityText| + 15 + 2
    + 12 + 5 + |z.serviceName| + 5 + 5 + |z.body| + 9 + 5 + |z.bodyType| + 10 + 5 + |z.scopeName|
    + 13 + 5 + |z.scopeVersion|
    + 12 + 5 + StringsSize(z.logAttrKeys) + 14 + 5 + StringsSize(z.logAttrValues)
    + 12 + 5 + StringsSize(z.resAttrKeys) + 14 + 5 + StringsSize(z.resAttrValues)
  }

  lemma {:induction false} StringsFit(ss: seq<Str>)
    ensures |AppendStrings(ss)| <= StringsSize(ss)
  {
    if ss != [] {
      var init, last := ss[..|ss| - 1], ss[|ss| - 1];
      assert ss == init + [last];
      AppendStringsSnoc(init, last);
      StringsFit(init);
    }
  }

  /** What the estimate allows for one value. */
  function ValSize(v: Val): nat
  {
    match v
    case TimeVal(_) => 15
    case StrVal(s) => 5 + |s|
    case ByteVal(_) => 2
    case ListVal(ss) => 5 + StringsSize(ss)
  }

  lemma ValFits(v: Val)
    ensures |EncodeVal(v)| <= ValSize(v)
  {
    if v.ListVal? {
      StringsFit(v.strs);
    }
  }

  function KeySize(f: Field): nat
  {
    match f
    case Timestamp => 10 case ObservedTimestamp => 18 case InsertedAt => 11 case TraceId => 8
    case SpanId => 7 case SeverityText => 13 case SeverityNumber => 15 case ServiceName => 12
    case Body => 5 case BodyType => 9 case ScopeName => 10 case ScopeVersion => 13
    case LogAttrKeys => 12 case LogAttrValues => 14 case ResAttrKeys => 12 case ResAttrValues => 14
  }

  lemma KeyBytesSize(f: Field)
    ensures |KeyBytes(f)| == KeySize(f)
  {
  }

  function SizeUpTo(z: FlatLog, k: nat): nat
    requires k <= |FIELDS|
  {
    if k == 0 then 3 else SizeUpTo(z, k - 1) + KeySize(FIELDS[k - 1]) + ValSize(Get(z, FIELDS[k - 1]))
  }

  lemma {:induction false} WrittenFits(z: FlatLog, k: nat)
    requires k <= |FIELDS|
    ensures |Written(z, k)| <= SizeUpTo(z, k)
  {
    hide Get, EncodeVal, ValSize, KeyBytes, KeySize;
    if k > 0 {
      var f := FIELDS[k - 1];
      WrittenFits(z, k - 1);
      KeyBytesSpellKeys(f);
      KeyBytesSize(f);
      EncodeFieldsStep(z, FIELDS, k - 1);
      ValFits(Get(z, f));
    }
  }

  lemma SizeUpToStep(z: FlatLog, f: Field)
    ensures SizeUpTo(z, Index(f) + 1) == SizeUpTo(z, Index(f)) + KeySize(f) + ValSize(Get(z, f))
  {
    hide Get, ValSize, KeySize, Index;
    FieldAt(f);
  }

  lemma SizeUpToHalf(z: FlatLog)
    ensures SizeUpTo(z, 8) ==
            164 + |z.traceId| + |z.spanId| + |z.severityText| + |z.serviceName|
  {
    hide SizeUpTo, StringsSize, Matches;
    assert SizeUpTo(z, 0) == 3 by { SizeUpToNone(z); }
    SizeUpToStep(z, Timestamp);
    SizeUpToStep(z, ObservedTimestamp);
    SizeUpToStep(z, InsertedAt);
    SizeUpToStep(z, TraceId);
    SizeUpToStep(z, SpanId);
    SizeUpToStep(z, SeverityText);
    SizeUpToStep(z, SeverityNumber);
    SizeUpToStep(z, ServiceName);
  }

  lemma SizeUpToAll(z: FlatLog)
    ensures SizeUpTo(z, 16) == MsgSize(z)
  {
    hide SizeUpTo, StringsSize, Matches;
    SizeUpToHalf(z);
    SizeUpToStep(z, Body);
    SizeUpToStep(z, BodyType);
    SizeUpToStep(z, ScopeName);
    SizeUpToStep(z, ScopeVersion);
    SizeUpToStep(z, LogAttrKeys);
    SizeUpToStep(z, LogAttrValues);
    SizeUpToStep(z, ResAttrKeys);
    SizeUpToStep(z, ResAttrValues);
  }

  lemma SizeUpToNone(z: FlatLog)
    ensures SizeUpTo(z, 0) == 3
  {
  }

  /** The estimate bounds the encoded length of every record, so encoding never outgrows its reservation. */
  lemma EncodingFits(z: FlatLog)
    ensures |EncodeLog(z)| <= MsgSize(z)
  {
    hide Written, SizeUpTo, EncodeLog, MsgSize;
    AllWritten(z);
    WrittenFits(z, 16);
    SizeUpToAll(z);
  }

  method AddSizes(s: Slice) returns (n: nat)
    requires s.Valid()
    ensures n == StringsSize(s.Elements())
  {
    n := 0;
    ghost var ss := s.Elements();
    for i := 0 to s.len
      invariant n == StringsSize(ss[..i])
    {
      n := n + 5 + |s.arr[i]|;
      assert ss[..i + 1] == ss[..i] + [ss[i]];
    }
    assert ss[..s.len] == ss;
  }

  // ---- Decoding into a slice

  /** Reads a string array into `s`, reusing its backing array when the capacity suffices. */
  method ReadSlice(s: Slice, bts: seq<byte>) returns (ok: bool, s': Slice, rest: seq<byte>)
    requires s.Valid()
    modifies if s.arr.Length > 0 then {s.arr} else {}
    ensures s'.Valid() && (s'.arr == s.arr || fresh(s'.arr))
    ensures ok <==> ReadStringArray(bts).Ok?
    ensures ok ==> s'.Elements() == ReadStringArray(bts).value && rest == ReadStringArray(bts).rest
    ensures ok ==> (s'.arr == s.arr <==> s'.len <= s.arr.Length)
  {
    hide ReadArrayHeader, ReadString;
    ok, s', rest := false, s, bts;
    var h := ReadArrayHeader(bts);
    if h.Fail? { return; }
    var n := h.value;
    if s.arr.Length >= n {
      s' := Slice(s.arr, n);
    } else {
      var arr := new Str[n](_ => []);
      s' := Slice(arr, n);
    }
    rest := h.rest;
    PrependNothing(s'.arr[..0], ReadStrings(n, rest));
    for i := 0 to n
      invariant ReadStrings(n, h.rest) == Prepend(s'.arr[..i], ReadStrings(n - i, rest))
    {
      var r := ReadString(rest);
      if r.Fail? { return; }
      s'.arr[i] := r.value;
      PrependStep(s'.arr[..i], n - i, rest);
      assert s'.arr[..i + 1] == s'.arr[..i] + [r.value];
      rest := r.rest;
    }
    ok := true;
    assert s'.arr[..n] + [] == s'.arr[..n];
  }

  /** Lists that share room overwrite each other: after both are read, the first shows what the second read. */
  method SharedRoomOverwrites(s: Slice, t: Slice, x: Str, y: Str) returns (s': Slice, t': Slice)
    requires s.Valid() && t.Valid() && s.arr == t.arr && s.arr.Length > 0
    requires |x| < LIMIT && |y| < LIMIT
    modifies s.arr
    ensures s'.Valid() && t'.Valid() && s'.Elements() == t'.Elements() == [y]
  {
    ReadStringArrayOf([x], []);
    ReadStringArrayOf([y], []);
    assert EncodeVal(ListVal([x])) + [] == EncodeVal(ListVal([x]));
    assert EncodeVal(ListVal([y])) + [] == EncodeVal(ListVal([y]));
    var ok, rest;
    ok, s', rest := ReadSlice(s, ArrayHeader(1) + AppendStrings([x]));
    assert |s'.Elements()| == 1;
    ok, t', rest := ReadSlice(t, ArrayHeader(1) + AppendStrings([y]));
    assert |t'.Elements()| == 1;
  }

  ghost function Prepend(ss: seq<Str>, r: Read<seq<Str>>): Read<seq<Str>>
  {
    if r.Fail? then Fail else Ok(ss + r.value, r.rest)
  }

  lemma PrependNothing(ss: seq<Str>, r: Read<seq<Str>>)
    requires ss == []
    ensures Prepend(ss, r) == r
  {
    if r.Ok? {
      assert ss + r.value == r.value;
    }
  }

  lemma PrependStep(ss: seq<Str>, n: nat, b: seq<byte>)
    requires n > 0 && ReadString(b).Ok?
    ensures Prepend(ss, ReadStrings(n, b)) ==
            Prepend(ss + [ReadString(b).value], ReadStrings(n - 1, ReadString(b).rest))
  {
    var r := ReadStrings(n - 1, ReadString(b).rest);
    if r.Ok? {
      assert ss + ([ReadString(b).value] + r.value) == ss + [ReadString(b).value] + r.value;
    }
  }

  /** The key is none of the first `k` keys. */
  ghost predicate NoneBefore(key: Str, k: nat)
  {
    forall f :: Index(f) < k ==> Key(f) != key
  }

  lemma NoneYet(key: Str)
    ensures NoneBefore(key, 0)
  {
  }

  lemma OneMoreKey(key: Str, f: Field)
    requires NoneBefore(key, Index(f)) && key != Key(f)
    ensures NoneBefore(key, Index(f) + 1)
  {
    hide Key;
    forall g | Index(g) < Index(f) + 1 ensures Key(g) != key {
      FieldAt(f);
      FieldAt(g);
    }
  }

  lemma ForeignKey(key: Str)
    requires NoneBefore(key, 16)
    ensures FieldOf(key) == None
  {
    hide Key, Index;
    forall f ensures Key(f) != key {
      FieldAt(f);
    }
  }

  // ---- The cases of the key switch: what the specification does with the value of a field

  lemma TimeField(key: Str, f: Field, b: seq<byte>, z: FlatLog)
    requires key == Key(f) && Matches(f, TimeVal(Time(0, 0)))
    ensures ReadTime(b).Fail? ==> ReadValueFor(key, b, z) == Fail
    ensures ReadTime(b).Ok? ==> ReadValueFor(key, b, z) == Ok(Set(z, f, TimeVal(ReadTime(b).value)), ReadTime(b).rest)
  {
    hide Set, ReadTime;
    FieldOfKey(f);
  }

  lemma TextField(key: Str, f: Field, b: seq<byte>, z: FlatLog)
    requires key == Key(f) && Matches(f, StrVal([]))
    ensures ReadString(b).Fail? ==> ReadValueFor(key, b, z) == Fail
    ensures var r := ReadString(b); r.Ok? ==> ReadValueFor(key, b, z) == Ok(Set(z, f, StrVal(r.value)), r.rest)
  {
    hide Set, ReadString;
    FieldOfKey(f);
  }

  lemma NumberField(key: Str, f: Field, b: seq<byte>, z: FlatLog)
    requires key == Key(f) && Matches(f, ByteVal(0))
    ensures ReadUint8(b).Fail? ==> ReadValueFor(key, b, z) == Fail
    ensures var r := ReadUint8(b); r.Ok? ==> ReadValueFor(key, b, z) == Ok(Set(z, f, ByteVal(r.value)), r.rest)
  {
    hide Set, ReadUint8;
    FieldOfKey(f);
  }

  lemma ListField(key: Str, f: Field, b: seq<byte>, z: FlatLog)
    requires key == Key(f) && Matches(f, ListVal([]))
    ensures ReadStringArray(b).Fail? ==> ReadValueFor(key, b, z) == Fail
    ensures var r := ReadStringArray(b); r.Ok? ==> ReadValueFor(key, b, z) == Ok(Set(z, f, ListVal(r.value)), r.rest)
  {
    hide Set, ReadStringArray;
    FieldOfKey(f);
  }

  /** The decoding loop: its end and one round of it. */
  lemma LoopStep(n: nat, b: seq<byte>, z: FlatLog)
    ensures n == 0 ==> ReadEntries(n, b, z) == Ok(z, b)
    ensures n > 0 && ReadMapKey(b).Fail? ==> ReadEntries(n, b, z) == Fail
    ensures n > 0 && ReadMapKey(b).Ok? ==>
              var v := ReadValueFor(ReadMapKey(b).value, ReadMapKey(b).rest, z);
              ReadEntries(n, b, z) == if v.Fail? then Fail else ReadEntries(n - 1, v.rest, v.value)
  {
    hide ReadMapKey, ReadValueFor;
  }

  /** The slices do not share room; empty arrays have none. */
  ghost predicate Apart(s: Slice, t: Slice)
  {
    s.arr != t.arr || s.arr.Length == 0
  }

  /** A record without its lists. */
  function Scalars(z: FlatLog): FlatLog
  {
    z.(logAttrKeys := [], logAttrValues := [], resAttrKeys := [], resAttrValues := [])
  }

  /** Results that fail together, leave the same input and agree on the record, if `separate` on all of it. */
  ghost predicate Same(separate: bool, r: Read<FlatLog>, q: Read<FlatLog>)
  {
    && (r.Ok? <==> q.Ok?)
    && (r.Ok? ==> r.rest == q.rest && Scalars(r.value) == Scalars(q.value) && (separate ==> r.value == q.value))
  }

  /**
   A decoder that succeeds exactly as specified and leaves the input specified. The record has the scalar fields
   specified, and the lists too if no two of the target's lists shared room.
   */
  ghost predicate Outcome(separate: bool, r: Read<FlatLog>, ok: bool, z: FlatLog, rest: seq<byte>)
  {
    if ok then Same(separate, r, Ok(z, rest)) else r.Fail?
  }

  lemma OutcomeOf(separate: bool, r: Read<FlatLog>, ok: bool, z: FlatLog, rest: seq<byte>)
    requires if ok then r == Ok(z, rest) else r == Fail
    ensures Outcome(separate, r, ok, z, rest)
  {
  }

  lemma {:induction false} EntriesSame(n: nat, b: seq<byte>, y: FlatLog, z: FlatLog)
    requires Scalars(y) == Scalars(z)
    ensures Same(false, ReadEntries(n, b, y), ReadEntries(n, b, z))
  {
    hide Scalars, ReadMapKey, ReadValueFor;
    if n > 0 && ReadMapKey(b).Ok? {
      var key := ReadMapKey(b);
      ValueSame(key.value, key.rest, y, z);
      var v, w := ReadValueFor(key.value, key.rest, y), ReadValueFor(key.value, key.rest, z);
      if v.Ok? {
        EntriesSame(n - 1, v.rest, v.value, w.value);
      }
    }
  }

  lemma ValueSame(key: Str, b: seq<byte>, y: FlatLog, z: FlatLog)
    requires Scalars(y) == Scalars(z)
    ensures Same(false, ReadValueFor(key, b, y), ReadValueFor(key, b, z))
  {
    hide Scalars, ReadVal, Set, Skip, FieldOf, Matches;
    if FieldOf(key).Some? && ReadVal(FieldOf(key).value, b).Ok? {
      SetSame(y, z, FieldOf(key).value, ReadVal(FieldOf(key).value, b).value);
    }
  }

  lemma SetSame(y: FlatLog, z: FlatLog, f: Field, v: Val)
    requires Scalars(y) == Scalars(z) && Matches(f, v)
    ensures Scalars(Set(y, f, v)) == Scalars(Set(z, f, v))
  {
  }

  /** After a round of the loop, decoding goes on from what the record holds as from what is specified. */
  lemma NextEntries(separate: bool, n: nat, v: Read<FlatLog>, rest: seq<byte>, z: FlatLog)
    requires Outcome(separate, v, true, z, rest)
    ensures Same(separate, ReadEntries(n, v.rest, v.value), ReadEntries(n, rest, z))
  {
    hide Scalars, ReadEntries;
    EntriesSame(n, rest, v.value, z);
  }

  /** The value of a key the record does not have is skipped. */
  method SkipForeign(key: Str, bts: seq<byte>, ghost z: FlatLog, ghost separate: bool)
      returns (ok: bool, rest: seq<byte>)
    requires NoneBefore(key, 16)
    ensures Outcome(separate, ReadValueFor(key, bts, z), ok, z, rest)
  {
    hide Key, NoneBefore, Outcome, Skip;
    ForeignKey(key);
    var r := Skip(bts);
    ok, rest := r.Ok?, if r.Ok? then r.rest else bts;
    OutcomeOf(separate, ReadValueFor(key, bts, z), ok, z, rest);
  }

  class FlatLogRecord {
    var timestamp: Time
    var observedTimestamp: Time
    var insertedAt: Time
    var traceId: Str
    var spanId: Str
    var severityText: Str
    var severityNumber: byte
    var serviceName: Str
    var body: Str
    var bodyType: Str
    var scopeName: Str
    var scopeVersion: Str
    var logAttrKeys: Slice
    var logAttrValues: Slice
    var resAttrKeys: Slice
    var resAttrValues: Slice

    ghost function Arrays(): set<array<Str>>
      reads this
    {
      {logAttrKeys.arr, logAttrValues.arr, resAttrKeys.arr, resAttrValues.arr}
    }

    ghost predicate Valid()
      reads this
    {
      logAttrKeys.Valid() && logAttrValues.Valid() && resAttrKeys.Valid() && resAttrValues.Valid()
    }

    /** No two lists share room in a backing array, so filling one leaves the others alone. */
    ghost predicate Separate()
      reads this
    {
      && Apart(logAttrKeys, logAttrValues) && Apart(logAttrKeys, resAttrKeys) && Apart(logAttrKeys, resAttrValues)
      && Apart(logAttrValues, resAttrKeys) && Apart(logAttrValues, resAttrValues) && Apart(resAttrKeys, resAttrValues)
    }

    ghost function Value(): FlatLog
      requires Valid()
      reads this, Arrays()
    {
      FlatLog(timestamp, observedTimestamp, insertedAt, traceId, spanId, severityText, severityNumber, serviceName,
              body, bodyType, scopeName, scopeVersion, logAttrKeys.Elements(), logAttrValues.Elements(),
              resAttrKeys.Elements(), resAttrValues.Elements())
    }

    constructor ()
      ensures Valid() && Separate() && fresh(Arrays()) && Value() == EMPTY
    {
      var a, b, c, d := new Str[0], new Str[0], new Str[0], new Str[0];
      timestamp, observedTimestamp, insertedAt, severityNumber := ZERO_TIME, ZERO_TIME, ZERO_TIME, 0;
      traceId, spanId, severityText, serviceName := [], [], [], [];
      body, bodyType, scopeName, scopeVersion := [], [], [], [];
      logAttrKeys, logAttrValues, resAttrKeys, resAttrValues := Slice(a, 0), Slice(b, 0), Slice(c, 0), Slice(d, 0);
    }

    /** Back to the zero record; arrays the lists used are let go, not changed. */
    method Clear()
      modifies this
      ensures Valid() && Separate() && Value() == EMPTY
    {
      var none := new Str[0];
      timestamp, observedTimestamp, insertedAt, severityNumber := ZERO_TIME, ZERO_TIME, ZERO_TIME, 0;
      traceId, spanId, severityText, serviceName := [], [], [], [];
      body, bodyType, scopeName, scopeVersion := [], [], [], [];
      logAttrKeys, logAttrValues := Slice(none, 0), Slice(none, 0);
      resAttrKeys, resAttrValues := Slice(none, 0), Slice(none, 0);
    }

    /** Appends the encoding to `b`; the reservation made first only affects capacity. */
    method MarshalMsg(b: seq<byte>) returns (o: seq<byte>)
      requires Valid()
      ensures o == b + EncodeLog(Value())
    {
      hide KeyBytes, Written, EncodeLog, Matches, AppendTime, AppendString, AppendUint8;
      ghost var z := Value();
      AllWritten(z);
      o := b + [0xde, 0x0, 0x10];
      WriteField(b, z, Timestamp, TimeVal(timestamp), o);
      o := o + KeyBytes(Timestamp) + AppendTime(timestamp);
      WriteField(b, z, ObservedTimestamp, TimeVal(observedTimestamp), o);
      o := o + KeyBytes(ObservedTimestamp) + AppendTime(observedTimestamp);
      WriteField(b, z, InsertedAt, TimeVal(insertedAt), o);
      o := o + KeyBytes(InsertedAt) + AppendTime(insertedAt);
      WriteField(b, z, TraceId, StrVal(traceId), o);
      o := o + KeyBytes(TraceId) + AppendString(traceId);
      WriteField(b, z, SpanId, StrVal(spanId), o);
      o := o + KeyBytes(SpanId) + AppendString(spanId);
      WriteField(b, z, SeverityText, StrVal(severityText), o);
      o := o + KeyBytes(SeverityText) + AppendString(severityText);
      WriteField(b, z, SeverityNumber, ByteVal(severityNumber), o);
      o := o + KeyBytes(SeverityNumber) + AppendUint8(severityNumber);
      WriteField(b, z, ServiceName, StrVal(serviceName), o);
      o := o + KeyBytes(ServiceName) + AppendString(serviceName);
      WriteField(b, z, Body, StrVal(body), o);
      o := o + KeyBytes(Body) + AppendString(body);
      WriteField(b, z, BodyType, StrVal(bodyType), o);
      o := o + KeyBytes(BodyType) + AppendString(bodyType);
      WriteField(b, z, ScopeName, StrVal(scopeName), o);
      o := o + KeyBytes(ScopeName) + AppendString(scopeName);
      WriteField(b, z, ScopeVersion, StrVal(scopeVersion), o);
      o := o + KeyBytes(ScopeVersion) + AppendString(scopeVersion);
      o := AppendLists(o, b, z);
    }

    /** The last four fields. */
    method AppendLists(from: seq<byte>, ghost b: seq<byte>, ghost z: FlatLog) returns (o: seq<byte>)
      requires Valid() && z == Value() && from == b + Written(z, 12)
      ensures o == b + Written(z, 16)
    {
      hide KeyBytes, Written, Matches, EncodeVal;
      WriteField(b, z, LogAttrKeys, ListVal(logAttrKeys.Elements()), from);
      o := AppendSlice(from + KeyBytes(LogAttrKeys), logAttrKeys);
      WriteField(b, z, LogAttrValues, ListVal(logAttrValues.Elements()), o);
      o := AppendSlice(o + KeyBytes(LogAttrValues), logAttrValues);
      WriteField(b, z, ResAttrKeys, ListVal(resAttrKeys.Elements()), o);
      o := AppendSlice(o + KeyBytes(ResAttrKeys), resAttrKeys);
      WriteField(b, z, ResAttrValues, ListVal(resAttrValues.Elements()), o);
      o := AppendSlice(o + KeyBytes(ResAttrValues), resAttrValues);
    }

    /**
     Writes the same bytes to a stream that may fail, and a part of them when it does; the scalar fields and then the
     lists. It fails only if a write has failed.
     */
    method EncodeMsg(en: Writer) returns (ok: bool)
      requires Valid()
      modifies en
      ensures en.failed == (old(en.failed) || !ok)
      ensures var all := old(en.out) + EncodeLog(Value()); if ok then en.out == all else en.out <= all
    {
      ghost var z := Value();
      AllWritten(z);
      ok := EncodeIds(en);
      if ok { ok := EncodeTexts(en, old(en.out), z); }
      if ok { ok := EncodeLists(en, old(en.out), z); }
    }

    method EncodeIds(en: Writer) returns (ok: bool)
      requires Valid()
      modifies en
      ensures en.failed == (old(en.failed) || !ok)
      ensures if ok then en.out == old(en.out) + Written(Value(), 6) else en.out <= old(en.out) + EncodeLog(Value())
    {
      hide KeyBytes, Written, Matches, EncodeVal, EncodeLog;
      ghost var b, z := en.out, Value();
      AllWritten(z);
      WrittenPrefix(z, 0);
      ok := en.Append([0xde, 0x0, 0x10]);
      if !ok {
        Shorter(en.out, b + Written(z, 0), b + EncodeLog(z));
        return;
      }
      ok := WriteScalar(en, Timestamp, TimeVal(timestamp), b, z);
      if !ok { return; }
      ok := WriteScalar(en, ObservedTimestamp, TimeVal(observedTimestamp), b, z);
      if !ok { return; }
      ok := WriteScalar(en, InsertedAt, TimeVal(insertedAt), b, z);
      if !ok { return; }
      ok := WriteScalar(en, TraceId, StrVal(traceId), b, z);
      if !ok { return; }
      ok := WriteScalar(en, SpanId, StrVal(spanId), b, z);
      if !ok { return; }
      ok := WriteScalar(en, SeverityText, StrVal(severityText), b, z);
    }

    method EncodeTexts(en: Writer, ghost b: seq<byte>, ghost z: FlatLog) returns (ok: bool)
      requires Valid() && z == Value() && en.out == b + Written(z, 6)
      modifies en
      ensures en.failed == (old(en.failed) || !ok)
      ensures if ok then en.out == b + Written(z, 12) else en.out <= b + EncodeLog(z)
    {
      hide KeyBytes, Written, Matches, EncodeVal, EncodeLog;
      ok := WriteScalar(en, SeverityNumber, ByteVal(severityNumber), b, z);
      if !ok { return; }
      ok := WriteScalar(en, ServiceName, StrVal(serviceName), b, z);
      if !ok { return; }
      ok := WriteScalar(en, Body, StrVal(body), b, z);
      if !ok { return; }
      ok := WriteScalar(en, BodyType, StrVal(bodyType), b, z);
      if !ok { return; }
      ok := WriteScalar(en, ScopeName, StrVal(scopeName), b, z);
      if !ok { return; }
      ok := WriteScalar(en, ScopeVersion, StrVal(scopeVersion), b, z);
    }

    method EncodeLists(en: Writer, ghost b: seq<byte>, ghost z: FlatLog) returns (ok: bool)
      requires Valid() && z == Value() && en.out == b + Written(z, 12)
      modifies en
      ensures en.failed == (old(en.failed) || !ok)
      ensures if ok then en.out == b + Written(z, 16) else en.out <= b + EncodeLog(z)
    {
      hide Written, EncodeLog;
      ok := WriteSlice(en, LogAttrKeys, logAttrKeys, b, z);
      if ok { ok := WriteSlice(en, LogAttrValues, logAttrValues, b, z); }
      if ok { ok := WriteSlice(en, ResAttrKeys, resAttrKeys, b, z); }
      if ok { ok := WriteSlice(en, ResAttrValues, resAttrValues, b, z); }
    }

    method Msgsize() returns (s: nat)
      requires Valid()
      ensures s == MsgSize(Value()) && |EncodeLog(Value())| <= s
    {
      hide EncodeLog, StringsSize;
      s := 3 + 10 + 15 + 18 + 15 + 11 + 15 + 8 + 5 + |traceId| + 7 + 5 + |spanId| + 13 + 5 + |severityText| + 15 + 2
        + 12 + 5 + |serviceName| + 5 + 5 + |body| + 9 + 5 + |bodyType| + 10 + 5 + |scopeName|
        + 13 + 5 + |scopeVersion| + 12 + 5;
      var n := AddSizes(logAttrKeys);
      s := s + n + 14 + 5;
      n := AddSizes(logAttrValues);
      s := s + n + 12 + 5;
      n := AddSizes(resAttrKeys);
      s := s + n + 14 + 5;
      n := AddSizes(resAttrValues);
      s := s + n;
      EncodingFits(Value());
    }

    /** The value of one entry: the switch over the keys, shared by both decoders. */
    method DecodeField(field: Str, bts: seq<byte>) returns (ok: bool, rest: seq<byte>)
      requires Valid()
      modifies this, Arrays()
      ensures Valid() && (old(Separate()) ==> Separate()) && fresh(Arrays() - old(Arrays()))
      ensures Outcome(old(Separate()), ReadValueFor(field, bts, old(Value())), ok, Value(), rest)
    {
      hide Outcome, Slice.Elements, Key, NoneBefore, ReadValueFor, ReadTime, ReadString, ReadUint8, ReadStringArray,
        ReadVal, Get;
      ghost var z, separate := Value(), Separate();
      ok, rest := true, bts;
      if field == Key(Timestamp) {
        TimeField(field, Timestamp, bts, z);
        var r := ReadTime(bts);
        ok := r.Ok?;
        if ok { timestamp, rest := r.value, r.rest; }
        OutcomeOf(separate, ReadValueFor(field, bts, z), ok, Value(), rest);
      } else if field == Key(ObservedTimestamp) {
        TimeField(field, ObservedTimestamp, bts, z);
        var r := ReadTime(bts);
        ok := r.Ok?;
        if ok { observedTimestamp, rest := r.value, r.rest; }
        OutcomeOf(separate, ReadValueFor(field, bts, z), ok, Value(), rest);
      } else if field == Key(InsertedAt) {
        TimeField(field, InsertedAt, bts, z);
        var r := ReadTime(bts);
        ok := r.Ok?;
        if ok { insertedAt, rest := r.value, r.rest; }
        OutcomeOf(separate, ReadValueFor(field, bts, z), ok, Value(), rest);
      } else {
        NoneYet(field);
        OneMoreKey(field, Timestamp);
        OneMoreKey(field, ObservedTimestamp);
        OneMoreKey(field, InsertedAt);
        ok, rest := DecodeOrigin(field, bts);
      }
    }

    /** The cases of where a log comes from. */
    method DecodeOrigin(field: Str, bts: seq<byte>) returns (ok: bool, rest: seq<byte>)
      requires Valid() && NoneBefore(field, 3)
      modifies this, Arrays()
      ensures Valid() && (old(Separate()) ==> Separate()) && fresh(Arrays() - old(Arrays()))
      ensures Outcome(old(Separate()), ReadValueFor(field, bts, old(Value())), ok, Value(), rest)
    {
      hide Outcome, Slice.Elements, Key, NoneBefore, ReadValueFor, ReadTime, ReadString, ReadUint8, ReadStringArray,
        ReadVal, Get;
      ghost var z, separate := Value(), Separate();
      ok, rest := true, bts;
      if field == Key(TraceId) {
        TextField(field, TraceId, bts, z);
        var r := ReadString(bts);
        ok := r.Ok?;
        if ok { traceId, rest := r.value, r.rest; }
        OutcomeOf(separate, ReadValueFor(field, bts, z), ok, Value(), rest);
      } else if field == Key(SpanId) {
        TextField(field, SpanId, bts, z);
        var r := ReadString(bts);
        ok := r.Ok?;
        if ok { spanId, rest := r.value, r.rest; }
        OutcomeOf(separate, ReadValueFor(field, bts, z), ok, Value(), rest);
      } else if field == Key(SeverityText) {
        TextField(field, SeverityText, bts, z);
        var r := ReadString(bts);
        ok := r.Ok?;
        if ok { severityText, rest := r.value, r.rest; }
        OutcomeOf(separate, ReadValueFor(field, bts, z), ok, Value(), rest);
      } else if field == Key(SeverityNumber) {
        NumberField(field, SeverityNumber, bts, z);
        var r := ReadUint8(bts);
        ok := r.Ok?;
        if ok { severityNumber, rest := r.value, r.rest; }
        OutcomeOf(separate, ReadValueFor(field, bts, z), ok, Value(), rest);
      } else if field == Key(ServiceName) {
        TextField(field, ServiceName, bts, z);
        var r := ReadString(bts);
        ok := r.Ok?;
        if ok { serviceName, rest := r.value, r.rest; }
        OutcomeOf(separate, ReadValueFor(field, bts, z), ok, Value(), rest);
      } else {
        OneMoreKey(field, TraceId);
        OneMoreKey(field, SpanId);
        OneMoreKey(field, SeverityText);
        OneMoreKey(field, SeverityNumber);
        OneMoreKey(field, ServiceName);
        ok, rest := DecodeContent(field, bts);
      }
    }

    /** The cases of what a log says. */
    method DecodeContent(field: Str, bts: seq<byte>) returns (ok: bool, rest: seq<byte>)
      requires Valid() && NoneBefore(field, 8)
      modifies this, Arrays()
      ensures Valid() && (old(Separate()) ==> Separate()) && fresh(Arrays() - old(Arrays()))
      ensures Outcome(old(Separate()), ReadValueFor(field, bts, old(Value())), ok, Value(), rest)
    {
      hide Outcome, Slice.Elements, Key, NoneBefore, ReadValueFor, ReadTime, ReadString, ReadUint8, ReadStringArray,
        ReadVal, Get;
      ghost var z, separate := Value(), Separate();
      ok, rest := true, bts;
      if field == Key(Body) {
        TextField(field, Body, bts, z);
        var r := ReadString(bts);
        ok := r.Ok?;
        if ok { body, rest := r.value, r.rest; }
        OutcomeOf(separate, ReadValueFor(field, bts, z), ok, Value(), rest);
      } else if field == Key(BodyType) {
        TextField(field, BodyType, bts, z);
        var r := ReadString(bts);
        ok := r.Ok?;
        if ok { bodyType, rest := r.value, r.rest; }
        OutcomeOf(separate, ReadValueFor(field, bts, z), ok, Value(), rest);
      } else if field == Key(ScopeName) {
        TextField(field, ScopeName, bts, z);
        var r := ReadString(bts);
        ok := r.Ok?;
        if ok { scopeName, rest := r.value, r.rest; }
        OutcomeOf(separate, ReadValueFor(field, bts, z), ok, Value(), rest);
      } else if field == Key(ScopeVersion) {
        TextField(field, ScopeVersion, bts, z);
        var r := ReadString(bts);
        ok := r.Ok?;
        if ok { scopeVersion, rest := r.value, r.rest; }
        OutcomeOf(separate, ReadValueFor(field, bts, z), ok, Value(), rest);
      } else {
        OneMoreKey(field, Body);
        OneMoreKey(field, BodyType);
        OneMoreKey(field, ScopeName);
        OneMoreKey(field, ScopeVersion);
        ok, rest := DecodeLogAttrs(field, bts);
      }
    }

    /** The log attributes. */
    method DecodeLogAttrs(field: Str, bts: seq<byte>) returns (ok: bool, rest: seq<byte>)
      requires Valid() && NoneBefore(field, 12)
      modifies this, Arrays()
      ensures Valid() && (old(Separate()) ==> Separate()) && fresh(Arrays() - old(Arrays()))
      ensures Outcome(old(Separate()), ReadValueFor(field, bts, old(Value())), ok, Value(), rest)
    {
      hide Slice.Elements, Key, NoneBefore, ReadValueFor, ReadTime, ReadString, ReadUint8, ReadStringArray, ReadVal,
        Get;
      ghost var z := Value();
      ok, rest := true, bts;
      if field == Key(LogAttrKeys) {
        ListField(field, LogAttrKeys, bts, z);
        ok, logAttrKeys, rest := ReadSlice(logAttrKeys, bts);
      } else if field == Key(LogAttrValues) {
        ListField(field, LogAttrValues, bts, z);
        ok, logAttrValues, rest := ReadSlice(logAttrValues, bts);
      } else {
        OneMoreKey(field, LogAttrKeys);
        OneMoreKey(field, LogAttrValues);
        ok, rest := DecodeResAttrs(field, bts);
      }
    }

    /** The resource attributes; the value of any other key is skipped. */
    method DecodeResAttrs(field: Str, bts: seq<byte>) returns (ok: bool, rest: seq<byte>)
      requires Valid() && NoneBefore(field, 14)
      modifies this, Arrays()
      ensures Valid() && (old(Separate()) ==> Separate()) && fresh(Arrays() - old(Arrays()))
      ensures Outcome(old(Separate()), ReadValueFor(field, bts, old(Value())), ok, Value(), rest)
    {
      hide Slice.Elements, Key, NoneBefore, ReadValueFor, ReadTime, ReadString, ReadUint8, ReadStringArray, ReadVal,
        Get;
      ghost var z, separate := Value(), Separate();
      ok, rest := true, bts;
      if field == Key(ResAttrKeys) {
        ListField(field, ResAttrKeys, bts, z);
        ok, resAttrKeys, rest := ReadSlice(resAttrKeys, bts);
      } else if field == Key(ResAttrValues) {
        ListField(field, ResAttrValues, bts, z);
        ok, resAttrValues, rest := ReadSlice(resAttrValues, bts);
      } else {
        OneMoreKey(field, ResAttrKeys);
        OneMoreKey(field, ResAttrValues);
        ok, rest := SkipForeign(field, bts, z, separate);
      }
    }

    method UnmarshalMsg(bts: seq<byte>) returns (ok: bool, rest: seq<byte>)
      requires Valid()
      modifies this, Arrays()
      ensures Valid() && (old(Separate()) ==> Separate()) && fresh(Arrays() - old(Arrays()))
      ensures Outcome(old(Separate()), DecodeLog(bts, old(Value())), ok, Value(), rest)
    {
      hide ReadMapHeader, ReadMapKey, ReadValueFor, ReadEntries, Separate, Value;
      ok, rest := false, bts;
      var h := ReadMapHeader(bts);
      if h.Fail? { return; }
      var n;
      n, rest := h.value, h.rest;
      while n > 0
        invariant Valid() && (old(Separate()) ==> Separate()) && fresh(Arrays() - old(Arrays()))
        invariant Same(old(Separate()), DecodeLog(bts, old(Value())), ReadEntries(n, rest, Value()))
      {
        LoopStep(n, rest, Value());
        n := n - 1;
        var key := ReadMapKey(rest);
        if key.Fail? { return false, rest; }
        ghost var v := ReadValueFor(key.value, key.rest, Value());
        ok, rest := DecodeField(key.value, key.rest);
        if !ok { return; }
        NextEntries(old(Separate()), n, v, rest, Value());
      }
      LoopStep(0, rest, Value());
      ok := true;
    }

    /** Decodes one record from a stream, leaving the input after it unread. */
    method DecodeMsg(dc: Reader) returns (ok: bool)
      requires Valid()
      modifies this, Arrays(), dc
      ensures Valid() && (old(Separate()) ==> Separate()) && fresh(Arrays() - old(Arrays()))
      ensures Outcome(old(Separate()), DecodeLog(old(dc.rest), old(Value())), ok, Value(), dc.rest)
    {
      hide ReadMapHeader, ReadMapKey, ReadValueFor, ReadEntries, Separate, Value;
      var h := ReadMapHeader(dc.rest);
      if h.Fail? { return false; }
      var n := h.value;
      dc.rest := h.rest;
      while n > 0
        invariant Valid() && (old(Separate()) ==> Separate()) && fresh(Arrays() - old(Arrays()))
        invariant Same(old(Separate()), DecodeLog(old(dc.rest), old(Value())), ReadEntries(n, dc.rest, Value()))
      {
        LoopStep(n, dc.rest, Value());
        n := n - 1;
        var key := ReadMapKey(dc.rest);
        if key.Fail? { return false; }
        var rest;
        ghost var v := ReadValueFor(key.value, key.rest, Value());
        ok, rest := DecodeField(key.value, key.rest);
        if !ok { return; }
        NextEntries(old(Separate()), n, v, rest, Value());
        dc.rest := rest;
      }
      LoopStep(0, dc.rest, Value());
      ok := true;
    }
  }
}
