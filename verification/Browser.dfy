/**
 The browser's side of the live tail: its MessagePack decoder, which builds plain objects keyed by the names on
 the wire, and the names by which its pages read them.
 */
module Browser {
  import opened Bytes
  import opened MsgPack
  import opened MsgPackSkip
  import opened Options
  import opened Seqs
  import opened FlatLogCodec

  /** A decoded value. Values that no record contains are kept as they are. */
  datatype Js =
    | Number(n: int)
    | Text(text: Str)
    | List(elements: seq<Js>)
    | Object(fields: map<Str, Js>)
    | Other(obj: Obj)

  // ---- Times

  /** The extension decoder: big-endian seconds and nanoseconds to whole microseconds. */
  function DecodeExt(data: seq<byte>): int
    requires |data| >= 12
  {
    Signed(8, data[..8]) * 1_000_000 + Value(data[8..12]) / 1_000
  }

  /** A big-endian number of `k` bytes in two's complement. */
  function Signed(k: nat, data: seq<byte>): int
  {
    var raw := Value(data);
    if 2 * raw < Pow256(k) then raw else raw - Pow256(k)
  }

  function Micros(t: Time): int
  {
    t.sec * 1_000_000 + t.nsec / 1_000
  }

  function TimeData(t: Time): seq<byte>
  {
    BigEndian(8, Unsigned64(t.sec)) + BigEndian(4, t.nsec)
  }

  /** The browser reads the twelve data bytes of an encoded time as its microseconds. */
  lemma ExtIsMicros(t: Time)
    ensures AppendTime(t) == [0xc7, 12, 5] + TimeData(t) && |TimeData(t)| == 12 && DecodeExt(TimeData(t)) == Micros(t)
    ensures Micros(t) == t.sec * 1_000_000 + t.nsec / 1_000
  {
    hide BigEndian, Value;
    Powers();
    hide Pow256;
    var data := TimeData(t);
    assert data[..8] == BigEndian(8, Unsigned64(t.sec)) && data[8..12] == BigEndian(4, t.nsec);
    ValueOfBigEndian(8, Unsigned64(t.sec));
    ValueOfBigEndian(4, t.nsec);
  }

  // ---- From syntax trees to values

  predicate IsText(lead: byte)
  {
    0xa0 <= lead <= 0xbf || 0xd9 <= lead <= 0xdb
  }

  predicate IsExt(lead: byte)
  {
    0xc7 <= lead <= 0xc9 || 0xd4 <= lead <= 0xd8
  }

  predicate IsMap(lead: byte)
  {
    0x80 <= lead <= 0x8f || lead == 0xde || lead == 0xdf
  }

  /** Only extension type 5 is registered; its decoder fails on fewer than twelve bytes. */
  function JsOfLeaf(lead: byte, data: seq<byte>): Option<Js>
  {
    if lead <= 0x7f then Some(Number(lead))
    else if IsText(lead) then Some(Text(data))
    else if 0xcc <= lead <= 0xcf then Some(Number(Value(data)))
    else if 0xd0 <= lead <= 0xd3 then Some(Number(Signed(|data|, data)))
    else if lead >= 0xe0 then Some(Number(lead - 256))
    else if IsExt(lead) && data != [] && data[0] == 5 then
      if |data| < 13 then None else Some(Number(DecodeExt(data[1..])))
    else Some(Other(LeafObj(lead, data)))
  }

  /** `None` is an error. The keys of a map must be strings. */
  function JsOf(o: Obj): Option<Js>
    decreases o
  {
    match o
    case LeafObj(lead, data) => JsOfLeaf(lead, data)
    case NodeObj(lead, _, kids) =>
      match JsOfAll(kids)
      case None => None
      case Some(vs) =>
        if !IsMap(lead) then Some(List(vs))
        else if Keyed(vs) then Some(Object(Assign(vs)))
        else None
  }

  function JsOfAll(os: seq<Obj>): Option<seq<Js>>
    decreases os
  {
    if os == [] then Some([])
    else
      match (JsOfAll(os[..|os| - 1]), JsOf(os[|os| - 1]))
      case (Some(vs), Some(v)) => Some(vs + [v])
      case _ => None
  }

  predicate Keyed(vs: seq<Js>)
  {
    vs == [] || (|vs| >= 2 && vs[|vs| - 2].Text? && Keyed(vs[..|vs| - 2]))
  }

  /** Keys and values in turn; a key that comes again replaces the value. */
  function Assign(vs: seq<Js>): map<Str, Js>
    requires Keyed(vs)
  {
    if vs == [] then map[] else Assign(vs[..|vs| - 2])[vs[|vs| - 2].text := vs[|vs| - 1]]
  }

  /** The objects decoded from a message before it is used up or an error occurs, and which of the two it was. */
  function DecodeMulti(b: seq<byte>): (seq<Js>, bool)
    decreases |b|
  {
    if b == [] then ([], true)
    else
      var r := Parse(b);
      if r.Fail? || JsOf(r.value).None? then ([], false)
      else
        var (vs, ok) := DecodeMulti(r.rest);
        ([JsOf(r.value).value] + vs, ok)
  }

  // ---- The trees of a record

  function StrTree(s: Str): Obj
  {
    LeafObj(if |s| <= 31 then 0xa0 + |s| else if |s| <= 0xff then 0xd9 else if |s| <= 0xffff then 0xda else 0xdb, s)
  }

  function StrTrees(ss: seq<Str>): (os: seq<Obj>)
    ensures |os| == |ss| && forall i :: 0 <= i < |ss| ==> os[i] == StrTree(ss[i])
  {
    seq(|ss|, i requires 0 <= i < |ss| => StrTree(ss[i]))
  }

  function ValTree(v: Val): Obj
  {
    match v
    case TimeVal(t) => LeafObj(0xc7, [5] + TimeData(t))
    case StrVal(s) => StrTree(s)
    case ByteVal(n) => if n < 128 then LeafObj(n, []) else LeafObj(0xcc, [n])
    case ListVal(ss) =>
      NodeObj(if |ss| <= 15 then 0x90 + |ss| else if |ss| <= 0xffff then 0xdc else 0xdd, |ss|, StrTrees(ss))
  }

  function FieldTrees(z: FlatLog, fs: seq<Field>): (os: seq<Obj>)
    ensures |os| == 2 * |fs|
  {
    if fs == [] then []
    else FieldTrees(z, fs[..|fs| - 1]) + [StrTree(Key(fs[|fs| - 1])), ValTree(Get(z, fs[|fs| - 1]))]
  }

  function RecordTree(z: FlatLog): Obj
  {
    NodeObj(0xde, 16, FieldTrees(z, FIELDS))
  }

  lemma StrTreeEncodes(s: Str)
    requires |s| < LIMIT
    ensures WellFormed(StrTree(s)) && Encode(StrTree(s)) == AppendString(s)
    ensures JsOf(StrTree(s)) == Some(Text(s))
  {
    hide BigEndian;
    assert Pow256(1) == 0x100 && Pow256(2) == 0x1_0000 && Pow256(4) == LIMIT by { Powers(); }
    hide Pow256;
    assert BigEndian(0, 0) == [] && BigEndian(0, |s|) == [] by { NoBytes(|s|); NoBytes(0); }
  }

  lemma NoBytes(n: nat)
    ensures BigEndian(0, n) == []
  {
  }

  lemma {:induction false} StrTreesEncode(ss: seq<Str>)
    requires forall s :: s in ss ==> |s| < LIMIT
    ensures (forall o :: o in StrTrees(ss) ==> WellFormed(o)) && EncodeAll(StrTrees(ss)) == AppendStrings(ss)
  {
    hide WellFormed, Encode, StrTree, AppendString;
    forall o | o in StrTrees(ss) ensures WellFormed(o) {
      var i :| 0 <= i < |ss| && o == StrTree(ss[i]);
      StrTreeEncodes(ss[i]);
    }
    if ss != [] {
      StrTreeEncodes(ss[0]);
      StrTreesEncode(ss[1..]);
      assert StrTrees(ss)[1..] == StrTrees(ss[1..]);
    }
  }

  function Texts(ss: seq<Str>): (vs: seq<Js>)
    ensures |vs| == |ss| && forall i :: 0 <= i < |ss| ==> vs[i] == Text(ss[i])
  {
    seq(|ss|, i requires 0 <= i < |ss| => Text(ss[i]))
  }

  lemma JsOfAllSnoc(os: seq<Obj>, o: Obj)
    ensures JsOfAll(os + [o]) ==
            match (JsOfAll(os), JsOf(o)) case (Some(vs), Some(v)) => Some(vs + [v]) case _ => None
  {
    hide JsOf;
    assert (os + [o])[..|os|] == os;
  }

  lemma StrTreesSnoc(ss: seq<Str>, s: Str)
    ensures StrTrees(ss + [s]) == StrTrees(ss) + [StrTree(s)] && Texts(ss + [s]) == Texts(ss) + [Text(s)]
  {
    hide StrTree;
  }

  lemma {:induction false} StrTreesDecode(ss: seq<Str>)
    requires forall s :: s in ss ==> |s| < LIMIT
    ensures JsOfAll(StrTrees(ss)) == Some(Texts(ss))
  {
    hide JsOf, StrTree;
    if ss != [] {
      hide JsOfAll, StrTrees, Texts, Encode, WellFormed;
      var init, last := ss[..|ss| - 1], ss[|ss| - 1];
      assert last in ss && ss == init + [last];
      StrTreeEncodes(last);
      StrTreesDecode(init);
      JsOfAllSnoc(StrTrees(init), StrTree(last));
      StrTreesSnoc(init, last);
    }
  }

  /** A field's value as the browser has it. */
  function JsVal(v: Val): Js
  {
    match v
    case TimeVal(t) => Number(Micros(t))
    case StrVal(s) => Text(s)
    case ByteVal(n) => Number(n)
    case ListVal(ss) => List(Texts(ss))
  }

  lemma TimeTreeEncodes(t: Time)
    ensures var o := ValTree(TimeVal(t));
            WellFormed(o) && Encode(o) == AppendTime(t) && JsOf(o) == Some(Number(Micros(t)))
  {
    hide DecodeExt, TimeData, AppendTime;
    ExtIsMicros(t);
    var data := [5] + TimeData(t);
    assert data[1..] == TimeData(t);
    assert BigEndian(1, 12) == [12] && Pow256(1) == 0x100 by { assert BigEndian(0, 0) == []; Powers(); }
  }

  lemma ByteTreeEncodes(n: byte)
    ensures var o := ValTree(ByteVal(n)); WellFormed(o) && Encode(o) == AppendUint8(n) && JsOf(o) == Some(Number(n))
  {
    NoBytes(0);
    if n >= 128 {
      assert [n][..0] == [] && Value([n]) == n;
      NoBytes(1);
    }
  }

  lemma ListTreeEncodes(ss: seq<Str>)
    requires |ss| < LIMIT && forall s :: s in ss ==> |s| < LIMIT
    ensures var o := ValTree(ListVal(ss));
            WellFormed(o) && Encode(o) == EncodeVal(ListVal(ss)) && JsOf(o) == Some(List(Texts(ss)))
  {
    hide BigEndian, EncodeAll, AppendStrings, JsOfAll, StrTree;
    assert Pow256(2) == 0x1_0000 && Pow256(4) == LIMIT by { Powers(); }
    hide Pow256;
    NoBytes(|ss|);
    StrTreesEncode(ss);
    StrTreesDecode(ss);
  }

  lemma ValTreeEncodes(v: Val)
    requires ValWithinLimits(v)
    ensures WellFormed(ValTree(v)) && Encode(ValTree(v)) == EncodeVal(v) && JsOf(ValTree(v)) == Some(JsVal(v))
  {
    hide WellFormed, Encode, JsOf, ValTree, AppendTime, AppendUint8, AppendString, Micros;
    match v
    case TimeVal(t) => TimeTreeEncodes(t);
    case ByteVal(n) => ByteTreeEncodes(n);
    case ListVal(ss) => ListTreeEncodes(ss);
    case StrVal(s) =>
      StrTreeEncodes(s);
      assert ValTree(v) == StrTree(s) by { StrValTree(s); }
  }

  lemma StrValTree(s: Str)
    ensures ValTree(StrVal(s)) == StrTree(s)
  {
  }

  lemma {:induction false} EncodeAllConcat(a: seq<Obj>, b: seq<Obj>)
    requires (forall o :: o in a ==> WellFormed(o)) && forall o :: o in b ==> WellFormed(o)
    ensures (forall o :: o in a + b ==> WellFormed(o)) && EncodeAll(a + b) == EncodeAll(a) + EncodeAll(b)
  {
    hide WellFormed, Encode;
    if a == [] {
      assert a + b == b;
    } else {
      EncodeAllConcat(a[1..], b);
      assert (a + b)[1..] == a[1..] + b;
    }
  }

  lemma EncodeAllTwo(o: Obj, p: Obj)
    requires WellFormed(o) && WellFormed(p)
    ensures EncodeAll([o, p]) == Encode(o) + Encode(p)
  {
    hide WellFormed, Encode;
    assert [o, p][1..] == [p] && [p][1..] == [];
    assert EncodeAll([p]) == Encode(p) + EncodeAll([]) && EncodeAll([]) == [];
  }

  lemma {:induction false} FieldTreesEncode(z: FlatLog, fs: seq<Field>)
    requires WithinLimits(z)
    ensures (forall o :: o in FieldTrees(z, fs) ==> WellFormed(o))
            && EncodeAll(FieldTrees(z, fs)) == EncodeFields(z, fs)
  {
    hide WellFormed, Encode, EncodeVal, AppendString, StrTree, ValTree, Get, KeyName, JsOf;
    if fs != [] {
      var f := fs[|fs| - 1];
      var init := FieldTrees(z, fs[..|fs| - 1]);
      KeyLength(f);
      StrTreeEncodes(Key(f));
      ValTreeEncodes(Get(z, f));
      FieldTreesEncode(z, fs[..|fs| - 1]);
      EncodeAllTwo(StrTree(Key(f)), ValTree(Get(z, f)));
      EncodeAllConcat(init, [StrTree(Key(f)), ValTree(Get(z, f))]);
    }
  }

  /** The bytes of a record are those of one tree. */
  lemma RecordTreeEncodes(z: FlatLog)
    requires WithinLimits(z)
    ensures WellFormed(RecordTree(z)) && Encode(RecordTree(z)) == EncodeLog(z)
  {
    hide EncodeAll, EncodeFields, FieldTrees, WithinLimits;
    FieldTreesEncode(z, FIELDS);
    assert Classify(0xde) == Node(2, 0, true);
    assert BigEndian(2, 16) == [0, 16] && Pow256(2) == 0x1_0000 by {
      assert BigEndian(1, 0) == [0];
      Powers();
    }
  }

  function Entries(z: FlatLog, fs: seq<Field>): (vs: seq<Js>)
    ensures Keyed(vs)
  {
    if fs == [] then []
    else
      var init := Entries(z, fs[..|fs| - 1]);
      var vs := init + [Text(Key(fs[|fs| - 1])), JsVal(Get(z, fs[|fs| - 1]))];
      assert vs[..|vs| - 2] == init;
      vs
  }

  /** The object the browser has for a record. */
  function Seen(z: FlatLog): Js
  {
    Object(Assign(Entries(z, FIELDS)))
  }

  lemma {:induction false} FieldTreesDecode(z: FlatLog, fs: seq<Field>)
    requires WithinLimits(z)
    ensures JsOfAll(FieldTrees(z, fs)) == Some(Entries(z, fs))
  {
    hide JsOf, StrTree, ValTree, Get, KeyName, JsVal, WellFormed, Encode, EncodeVal, AppendString;
    if fs != [] {
      var f := fs[|fs| - 1];
      var init := FieldTrees(z, fs[..|fs| - 1]);
      KeyLength(f);
      StrTreeEncodes(Key(f));
      ValTreeEncodes(Get(z, f));
      FieldTreesDecode(z, fs[..|fs| - 1]);
      var one := init + [StrTree(Key(f))];
      var two := one + [ValTree(Get(z, f))];
      assert one[..|one| - 1] == init && two[..|two| - 1] == one;
      assert FieldTrees(z, fs) == two;
      assert JsOfAll(one) == Some(Entries(z, fs[..|fs| - 1]) + [Text(Key(f))]);
      assert JsOfAll(two) == Some(Entries(z, fs[..|fs| - 1]) + [Text(Key(f))] + [JsVal(Get(z, f))]);
      assert Entries(z, fs) == Entries(z, fs[..|fs| - 1]) + [Text(Key(f))] + [JsVal(Get(z, f))];
    }
  }

  lemma RecordDecodes(z: FlatLog)
    requires WithinLimits(z)
    ensures JsOf(RecordTree(z)) == Some(Seen(z))
  {
    hide JsOfAll, FieldTrees, Entries, Assign, WithinLimits;
    FieldTreesDecode(z, FIELDS);
  }

  // ---- Reading properties

  /** The property of a decoded value; `None` is undefined. */
  function Property(v: Js, name: Str): Option<Js>
  {
    if v.Object? && name in v.fields then Some(v.fields[name]) else None
  }

  lemma {:induction false} EntriesAssigned(z: FlatLog, fs: seq<Field>)
    ensures var m := Assign(Entries(z, fs));
            && (forall f :: f in fs ==> Key(f) in m && m[Key(f)] == JsVal(Get(z, f)))
            && forall k :: k in m ==> exists f :: f in fs && k == Key(f)
  {
    hide Key, JsVal, Get;
    if fs != [] {
      var init, last := fs[..|fs| - 1], fs[|fs| - 1];
      EntriesAssigned(z, init);
      var vs := Entries(z, fs);
      assert vs[..|vs| - 2] == Entries(z, init);
      var m := Assign(vs);
      assert m == Assign(Entries(z, init))[Key(last) := JsVal(Get(z, last))];
      forall f | f in fs ensures Key(f) in m && m[Key(f)] == JsVal(Get(z, f)) {
        if Key(f) == Key(last) {
          KeysDiffer(f, last);
        }
      }
    }
  }

  /** A record's object has a value under a name exactly if the name is a key on the wire, and then that field's. */
  lemma SeenProperty(z: FlatLog, name: Str, f: Field)
    ensures name == Key(f) ==> Property(Seen(z), name) == Some(JsVal(Get(z, f)))
    ensures (forall g :: Key(g) != name) ==> Property(Seen(z), name) == None
  {
    hide Key, JsVal, Get, Assign, Entries;
    EntriesAssigned(z, FIELDS);
    FieldAt(f);
    assert FIELDS[Index(f)] in FIELDS;
  }

  /** The names of the browser's record type. */
  function TypeName(f: Field): string
  {
    match f
    case Timestamp => "timestamp"
    case ObservedTimestamp => "observedTimestamp"
    case InsertedAt => "insertedAt"
    case TraceId => "traceId"
    case SpanId => "spanId"
    case SeverityText => "severityText"
    case SeverityNumber => "severityNumber"
    case ServiceName => "serviceName"
    case Body => "body"
    case BodyType => "bodyType"
    case ScopeName => "scopeName"
    case ScopeVersion => "scopeVersion"
    case LogAttrKeys => "logAttrKeys"
    case LogAttrValues => "logAttrValues"
    case ResAttrKeys => "resAttrKeys"
    case ResAttrValues => "resAttrValues"
  }

  lemma NobodyWritesResAttrKeys(g: Field)
    ensures Key(g) != Ascii("resAttrKeys")
  {
    var a := KeyName(g);
    assert |Ascii(a)| == |a| && |Ascii("resAttrKeys")| == 11;
    if g == ResAttrKeys {
      assert Ascii(a)[7] == 'k' as int && Ascii("resAttrKeys")[7] == 'K' as int;
    } else if |a| == 11 {
      assert Ascii(a)[0] == a[0] as int && Ascii("resAttrKeys")[0] == 'r' as int;
    }
  }

  lemma OtherNamesAgree(f: Field)
    ensures !f.ResAttrKeys? ==> Ascii(TypeName(f)) == Key(f)
  {
  }

  /** What the pages see of field `f`. */
  function ReadField(v: Js, f: Field): Option<Js>
  {
    Property(v, Ascii(TypeName(f)))
  }

  /**
   Of every record the pages see fifteen fields, with times in whole microseconds; the resource attribute keys are
   undefined, whatever the record holds.
   */
  lemma FifteenFieldsSeen(z: FlatLog, f: Field)
    ensures ReadField(Seen(z), f) == if f == ResAttrKeys then None else Some(JsVal(Get(z, f)))
  {
    hide KeyName, TypeName, Ascii, Seen, JsVal, Get;
    SeenProperty(z, Ascii(TypeName(f)), f);
    OtherNamesAgree(f);
    if f == ResAttrKeys {
      forall g ensures Key(g) != Ascii(TypeName(f)) {
        NobodyWritesResAttrKeys(g);
        assert TypeName(ResAttrKeys) == "resAttrKeys" by { TypeNameOfResAttrKeys(); }
      }
    }
  }

  function Microseconds(t: Time): Js
  {
    Number(t.sec * 1_000_000 + t.nsec / 1_000)
  }

  lemma WireProperty(z: FlatLog, f: Field)
    ensures Property(Seen(z), Ascii(KeyName(f))) == Some(JsVal(Get(z, f)))
  {
    hide Seen, KeyName, Ascii, JsVal, Get;
    SeenProperty(z, Key(f), f);
  }

  /** Under the names on the wire the browser has the times of a record, in whole microseconds, and its number. */
  lemma NumbersByName(z: FlatLog)
    ensures Property(Seen(z), Ascii("timestamp")) == Some(Microseconds(z.timestamp))
    ensures Property(Seen(z), Ascii("observedTimestamp")) == Some(Microseconds(z.observedTimestamp))
    ensures Property(Seen(z), Ascii("insertedAt")) == Some(Microseconds(z.insertedAt))
    ensures Property(Seen(z), Ascii("severityNumber")) == Some(Number(z.severityNumber))
  {
    hide Seen, Ascii;
    WireProperty(z, Timestamp);
    WireProperty(z, ObservedTimestamp);
    WireProperty(z, InsertedAt);
    WireProperty(z, SeverityNumber);
  }

  /** Under the names on the wire the browser has the texts of a record. */
  lemma TextsByName(z: FlatLog)
    ensures Property(Seen(z), Ascii("traceId")) == Some(Text(z.traceId))
    ensures Property(Seen(z), Ascii("spanId")) == Some(Text(z.spanId))
    ensures Property(Seen(z), Ascii("severityText")) == Some(Text(z.severityText))
    ensures Property(Seen(z), Ascii("serviceName")) == Some(Text(z.serviceName))
    ensures Property(Seen(z), Ascii("body")) == Some(Text(z.body))
    ensures Property(Seen(z), Ascii("bodyType")) == Some(Text(z.bodyType))
    ensures Property(Seen(z), Ascii("scopeName")) == Some(Text(z.scopeName))
    ensures Property(Seen(z), Ascii("scopeVersion")) == Some(Text(z.scopeVersion))
  {
    hide Seen, Ascii;
    WireProperty(z, TraceId);
    WireProperty(z, SpanId);
    WireProperty(z, SeverityText);
    WireProperty(z, ServiceName);
    WireProperty(z, Body);
    WireProperty(z, BodyType);
    WireProperty(z, ScopeName);
    WireProperty(z, ScopeVersion);
  }

  /** Under the names on the wire, one of which has a lower-case k, the browser has the lists of a record. */
  lemma ListsByName(z: FlatLog)
    ensures Property(Seen(z), Ascii("logAttrKeys")) == Some(List(Texts(z.logAttrKeys)))
    ensures Property(Seen(z), Ascii("logAttrValues")) == Some(List(Texts(z.logAttrValues)))
    ensures Property(Seen(z), Ascii("resAttrkeys")) == Some(List(Texts(z.resAttrKeys)))
    ensures Property(Seen(z), Ascii("resAttrValues")) == Some(List(Texts(z.resAttrValues)))
  {
    hide Seen, Ascii, Texts;
    WireProperty(z, LogAttrKeys);
    WireProperty(z, LogAttrValues);
    WireProperty(z, ResAttrKeys);
    WireProperty(z, ResAttrValues);
  }

  lemma TypeNameOfResAttrKeys()
    ensures TypeName(ResAttrKeys) == "resAttrKeys"
  {
  }

  /** A value for each field that differs from the empty record's value of every other field. */
  function Probe(f: Field): (v: Val)
    ensures Matches(f, v) && ValWithinLimits(v)
  {
    match f
    case Timestamp | ObservedTimestamp | InsertedAt => TimeVal(Time(1, 0))
    case SeverityNumber => ByteVal(1)
    case LogAttrKeys | LogAttrValues | ResAttrKeys | ResAttrValues => ListVal([[]])
    case _ => StrVal([0])
  }

  lemma EmptyValue(g: Field)
    ensures JsVal(Get(EMPTY, g)) in [Number(-62135596800_000_000), Number(0), Text([]), List([])]
  {
    assert Texts([]) == [];
  }

  lemma ProbeValue(f: Field)
    ensures JsVal(Probe(f)) in [Number(1_000_000), Number(1), Text([0]), List([Text([])])]
  {
    assert Texts([[]]) == [Text([])];
  }

  lemma ProbeDiffers(f: Field, g: Field)
    ensures JsVal(Probe(f)) != JsVal(Get(EMPTY, g))
  {
    hide JsVal, Probe, Get;
    EmptyValue(g);
    ProbeValue(f);
  }

  lemma ProbeWithinLimits(f: Field)
    ensures WithinLimits(Set(EMPTY, f, Probe(f)))
  {
    hide Set, Probe;
    forall g ensures ValWithinLimits(Get(Set(EMPTY, f, Probe(f)), g)) {
      GetSet(EMPTY, f, Probe(f), g);
    }
  }

  /** A table of names, one per field, shows every field of every record exactly if it has the names on the wire. */
  lemma AllFieldsSeenExactlyWhen(names: Field -> Str)
    ensures (forall z, f :: WithinLimits(z) ==> Property(Seen(z), names(f)) == Some(JsVal(Get(z, f)))) <==>
            forall f :: names(f) == Key(f)
  {
    hide Key, Seen, JsVal, Get, Set, Probe, WithinLimits, Property;
    if forall f :: names(f) == Key(f) {
      forall z, f | WithinLimits(z) ensures Property(Seen(z), names(f)) == Some(JsVal(Get(z, f))) {
        SeenProperty(z, names(f), f);
      }
    } else {
      var f :| names(f) != Key(f);
      var z := Set(EMPTY, f, Probe(f));
      ProbeWithinLimits(f);
      GetSet(EMPTY, f, Probe(f), f);
      SeenProperty(z, names(f), f);
      if g :| Key(g) == names(f) {
        SeenProperty(z, names(f), g);
        GetSet(EMPTY, f, Probe(f), g);
        ProbeDiffers(f, g);
      }
      assert Property(Seen(z), names(f)) != Some(JsVal(Get(z, f)));
    }
  }

  /** The attribute lists of the detail page. */
  function ZipAttrs(keys: Option<Js>, values: Option<Js>): seq<(Js, Option<Js>)>
  {
    match keys
    case Some(List(ks)) =>
      seq(|ks|, i requires 0 <= i < |ks| =>
        (ks[i], match values case Some(List(vs)) => (if i < |vs| then Some(vs[i]) else None) case _ => None))
    case _ => []
  }

  /** The detail page shows a record's log attributes and never a resource attribute. */
  lemma DialogShows(z: FlatLog)
    ensures ZipAttrs(ReadField(Seen(z), ResAttrKeys), ReadField(Seen(z), ResAttrValues)) == []
    ensures var shown := ZipAttrs(ReadField(Seen(z), LogAttrKeys), ReadField(Seen(z), LogAttrValues));
            && |shown| == |z.logAttrKeys|
            && forall i :: 0 <= i < |shown| ==>
                 && shown[i].0 == Text(z.logAttrKeys[i])
                 && shown[i].1 == if i < |z.logAttrValues| then Some(Text(z.logAttrValues[i])) else None
  {
    hide ReadField, Seen;
    FifteenFieldsSeen(z, ResAttrKeys);
    FifteenFieldsSeen(z, LogAttrKeys);
    FifteenFieldsSeen(z, LogAttrValues);
  }

  /** A record with one resource attribute: it travels whole, and the page shows none. */
  lemma ResourceAttributeVanishes()
    ensures var z := EMPTY.(resAttrKeys := [Ascii("env")], resAttrValues := [Ascii("prod")]);
            && DecodeLog(EncodeLog(z), EMPTY) == Ok(z, [])
            && ReadField(Seen(z), ResAttrKeys) == None
            && ReadField(Seen(z), ResAttrValues) == Some(List([Text(Ascii("prod"))]))
  {
    hide Seen, ReadField, EncodeLog, DecodeLog;
    var z := EMPTY.(resAttrKeys := [Ascii("env")], resAttrValues := [Ascii("prod")]);
    assert WithinLimits(z);
    RoundTrip(z, [], EMPTY);
    assert EncodeLog(z) + [] == EncodeLog(z);
    FifteenFieldsSeen(z, ResAttrKeys);
    FifteenFieldsSeen(z, ResAttrValues);
    assert Texts([Ascii("prod")]) == [Text(Ascii("prod"))];
  }

  /** Times less than a microsecond apart look the same. */
  lemma NanosecondsVanish(s: Time, t: Time)
    ensures JsVal(TimeVal(s)) == JsVal(TimeVal(t)) <==> s.sec == t.sec && s.nsec / 1_000 == t.nsec / 1_000
  {
    assert 0 <= s.nsec / 1_000 < 1_000_000 && 0 <= t.nsec / 1_000 < 1_000_000;
  }

  // ---- Messages

  const SEEN: FlatLog -> seq<Js> := (z: FlatLog) => [Seen(z)]

  /** What the browser has for a list of records. */
  function SeenAll(zs: seq<FlatLog>): seq<Js>
  {
    FlatMap(SEEN, zs)
  }

  lemma SeenAllCons(z: FlatLog, zs: seq<FlatLog>, tail: seq<Js>)
    ensures SeenAll([z] + zs) + tail == [Seen(z)] + (SeenAll(zs) + tail)
  {
    hide Seen;
    FlatMapConcat(SEEN, [z], zs);
    FlatMapOne(SEEN, z);
  }

  /** The decode loop over concatenated encodings gives the objects of the records in order, then what follows. */
  lemma {:induction false} DecodeMultiOf(zs: seq<FlatLog>, tail: seq<byte>)
    requires forall z :: z in zs ==> WithinLimits(z)
    ensures DecodeMulti(EncodeMany(zs) + tail) == (SeenAll(zs) + DecodeMulti(tail).0, DecodeMulti(tail).1)
  {
    hide WithinLimits, EncodeLog, Seen, Parse, JsOf, RecordTree, WellFormed, Encode;
    if zs == [] {
      FlatMapNone(SEEN);
      assert EncodeMany(zs) + tail == tail;
      assert SeenAll(zs) + DecodeMulti(tail).0 == DecodeMulti(tail).0;
    } else {
      hide FlatMap, SeenAll;
      var b := EncodeMany(zs) + tail;
      var more := EncodeMany(zs[1..]) + tail;
      assert b == EncodeLog(zs[0]) + more;
      RecordTreeEncodes(zs[0]);
      RecordDecodes(zs[0]);
      ParseEncoded(RecordTree(zs[0]), more);
      assert b != [] by { assert |Parse(b).rest| < |b|; }
      DecodeMultiOf(zs[1..], tail);
      SeenAllCons(zs[0], zs[1..], DecodeMulti(tail).0);
      assert zs == [zs[0]] + zs[1..];
    }
  }

  /** One whole websocket message. */
  lemma MessageDecodes(zs: seq<FlatLog>)
    requires forall z :: z in zs ==> WithinLimits(z)
    ensures DecodeMulti(EncodeMany(zs)) == (SeenAll(zs), true)
  {
    hide WithinLimits, EncodeLog, SeenAll;
    DecodeMultiOf(zs, []);
    assert EncodeMany(zs) + [] == EncodeMany(zs) && SeenAll(zs) + [] == SeenAll(zs);
  }

  lemma {:induction false} ParseStable(b: seq<byte>, q: seq<byte>)
    ensures Parse(b).Ok? ==> Parse(b + q) == Ok(Parse(b).value, Parse(b).rest + q)
    decreases |b|, 0
  {
    hide Classify;
    if Parse(b).Ok? {
      var h := Classify(b[0]);
      TailOfSum(b, q, 1);
      ReadLengthStable(h, b[1..], q);
      var len := ReadLength(h, b[1..]);
      if h.Leaf? {
        TailOfSum(len.rest, q, h.extra + len.value);
      } else {
        ParseManyStable(if h.pairs then 2 * len.value else len.value, len.rest, q);
      }
    }
  }

  lemma RestGrows(b: seq<byte>, q: seq<byte>)
    ensures Parse(b).Ok? ==> Parse(b + q).Ok? && |Parse(b + q).rest| >= |q|
  {
    hide Parse;
    ParseStable(b, q);
  }

  lemma ReadLengthStable(h: Head, b: seq<byte>, q: seq<byte>)
    requires !h.Reserved?
    ensures ReadLength(h, b).Ok? ==> ReadLength(h, b + q) == Ok(ReadLength(h, b).value, ReadLength(h, b).rest + q)
  {
    if h.width > 0 && |b| >= h.width {
      TailOfSum(b, q, h.width);
    }
  }

  lemma {:induction false} ParseManyStable(n: nat, b: seq<byte>, q: seq<byte>)
    ensures ParseMany(n, b).Ok? ==> ParseMany(n, b + q) == Ok(ParseMany(n, b).value, ParseMany(n, b).rest + q)
    decreases |b|, 1 + n
  {
    if n > 0 && ParseMany(n, b).Ok? {
      ParseStable(b, q);
      ParseManyStable(n - 1, Parse(b).rest, q);
    }
  }

  /** A message cut inside a record gives the objects of the whole records before the cut and then an error. */
  lemma DecodeMultiTruncated(zs: seq<FlatLog>, z: FlatLog, k: nat)
    requires (forall x :: x in zs ==> WithinLimits(x)) && WithinLimits(z)
    requires 0 < k < |EncodeLog(z)|
    ensures DecodeMulti(EncodeMany(zs) + EncodeLog(z)[..k]) == (SeenAll(zs), false)
  {
    hide WithinLimits, EncodeLog, Parse, JsOf, WellFormed, Encode, RecordTree, SeenAll;
    var b, q := EncodeLog(z)[..k], EncodeLog(z)[k..];
    assert b + q == EncodeLog(z) && EncodeLog(z) + [] == EncodeLog(z);
    RecordTreeEncodes(z);
    ParseEncoded(RecordTree(z), []);
    RestGrows(b, q);
    DecodeMultiOf(zs, b);
    assert SeenAll(zs) + [] == SeenAll(zs);
  }
}
