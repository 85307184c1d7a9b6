/**
 The encoding of a flat log record as a MessagePack map of sixteen entries, and its decoder, as functions
 on byte sequences. The methods of module FlatLogRecord are proved to compute these functions.
 */
module FlatLogCodec {
  import opened Bytes
  import opened MsgPack
  import opened MsgPackSkip
  import opened Options

  datatype FlatLog = FlatLog(
    timestamp: Time,
    observedTimestamp: Time,
    insertedAt: Time,
    traceId: Str,
    spanId: Str,
    severityText: Str,
    severityNumber: byte,
    serviceName: Str,
    body: Str,
    bodyType: Str,
    scopeName: Str,
    scopeVersion: Str,
    logAttrKeys: seq<Str>,
    logAttrValues: seq<Str>,
    resAttrKeys: seq<Str>,
    resAttrValues: seq<Str>)

  const EMPTY := FlatLog(ZERO_TIME, ZERO_TIME, ZERO_TIME, [], [], [], 0, [], [], [], [], [], [], [], [], [])

  datatype Field =
    | Timestamp | ObservedTimestamp | InsertedAt
    | TraceId | SpanId | SeverityText | SeverityNumber | ServiceName | Body | BodyType | ScopeName | ScopeVersion
    | LogAttrKeys | LogAttrValues | ResAttrKeys | ResAttrValues

  /** The order in which the encoder writes the fields. */
  const FIELDS: seq<Field> :=
    [ Timestamp, ObservedTimestamp, InsertedAt, TraceId, SpanId, SeverityText, SeverityNumber, ServiceName,
      Body, BodyType, ScopeName, ScopeVersion, LogAttrKeys, LogAttrValues, ResAttrKeys, ResAttrValues ]

  /** The key of a field on the wire; note the lower-case k of the resource attribute keys. */
  function KeyName(f: Field): string
  {
    match f
    case Timestamp => "timestamp"
    case ObservedTimestamp => "observedTimestamp"
    case InsertedAt => "insertedAt"
    case TraceId => "traceId"
    case SpanId => "spanId"
    case SeverityText => "severityText"
    case SeverityNumber => "severityNumber"
    case ServiceName => "serviceName"
    case Body => "body"
    case BodyType => "bodyType"
    case ScopeName => "scopeName"
    case ScopeVersion => "scopeVersion"
    case LogAttrKeys => "logAttrKeys"
    case LogAttrValues => "logAttrValues"
    case ResAttrKeys => "resAttrkeys"
    case ResAttrValues => "resAttrValues"
  }

  function Ascii(s: string): (b: Str)
    ensures |b| == |s|
  {
    seq(|s|, i requires 0 <= i < |s| => s[i] as int % 256)
  }

  function Key(f: Field): Str
  {
    Ascii(KeyName(f))
  }

  lemma KeysDiffer(f: Field, g: Field)
    requires Key(f) == Key(g)
    ensures f == g
  {
    var a, b := KeyName(f), KeyName(g);
    assert |a| == |b|;
    assert Ascii(a)[0] == Ascii(b)[0] && Ascii(a)[1] == Ascii(b)[1];
    assert a[0] as int % 256 == b[0] as int % 256 && a[1] as int % 256 == b[1] as int % 256;
  }

  /** The field a key names, if any. */
  ghost function FieldOf(key: Str): Option<Field>
  {
    if f :| Key(f) == key then Some(f) else None
  }

  // ---- Fields as values

  datatype Val = TimeVal(time: Time) | StrVal(str: Str) | ByteVal(num: byte) | ListVal(strs: seq<Str>)

  predicate Matches(f: Field, v: Val)
  {
    match f
    case Timestamp | ObservedTimestamp | InsertedAt => v.TimeVal?
    case SeverityNumber => v.ByteVal?
    case LogAttrKeys | LogAttrValues | ResAttrKeys | ResAttrValues => v.ListVal?
    case _ => v.StrVal?
  }

  function Get(z: FlatLog, f: Field): (v: Val)
    ensures Matches(f, v)
  {
    match f
    case Timestamp => TimeVal(z.timestamp)
    case ObservedTimestamp => TimeVal(z.observedTimestamp)
    case InsertedAt => TimeVal(z.insertedAt)
    case TraceId => StrVal(z.traceId)
    case SpanId => StrVal(z.spanId)
    case SeverityText => StrVal(z.severityText)
    case SeverityNumber => ByteVal(z.severityNumber)
    case ServiceName => StrVal(z.serviceName)
    case Body => StrVal(z.body)
    case BodyType => StrVal(z.bodyType)
    case ScopeName => StrVal(z.scopeName)
    case ScopeVersion => StrVal(z.scopeVersion)
    case LogAttrKeys => ListVal(z.logAttrKeys)
    case LogAttrValues => ListVal(z.logAttrValues)
    case ResAttrKeys => ListVal(z.resAttrKeys)
    case ResAttrValues => ListVal(z.resAttrValues)
  }

  function Set(z: FlatLog, f: Field, v: Val): (z': FlatLog)
    requires Matches(f, v)
  {
    match f
    case Timestamp => z.(timestamp := v.time)
    case ObservedTimestamp => z.(observedTimestamp := v.time)
    case InsertedAt => z.(insertedAt := v.time)
    case TraceId => z.(traceId := v.str)
    case SpanId => z.(spanId := v.str)
    case SeverityText => z.(severityText := v.str)
    case SeverityNumber => z.(severityNumber := v.num)
    case ServiceName => z.(serviceName := v.str)
    case Body => z.(body := v.str)
    case BodyType => z.(bodyType := v.str)
    case ScopeName => z.(scopeName := v.str)
    case ScopeVersion => z.(scopeVersion := v.str)
    case LogAttrKeys => z.(logAttrKeys := v.strs)
    case LogAttrValues => z.(logAttrValues := v.strs)
    case ResAttrKeys => z.(resAttrKeys := v.strs)
    case ResAttrValues => z.(resAttrValues := v.strs)
  }

  lemma GetSet(z: FlatLog, f: Field, v: Val, g: Field)
    requires Matches(f, v)
    ensures Get(Set(z, f, v), g) == if g == f then v else Get(z, g)
  {
  }

  lemma SameTimes(z: FlatLog, z': FlatLog)
    requires forall f :: Get(z, f) == Get(z', f)
    ensures z.timestamp == z'.timestamp
    ensures z.observedTimestamp == z'.observedTimestamp
    ensures z.insertedAt == z'.insertedAt
  {
    assert Get(z, Timestamp) == Get(z', Timestamp);
    assert Get(z, ObservedTimestamp) == Get(z', ObservedTimestamp);
    assert Get(z, InsertedAt) == Get(z', InsertedAt);
  }

  lemma SameOrigin(z: FlatLog, z': FlatLog)
    requires forall f :: Get(z, f) == Get(z', f)
    ensures z.traceId == z'.traceId
    ensures z.spanId == z'.spanId
    ensures z.severityText == z'.severityText
    ensures z.severityNumber == z'.severityNumber
    ensures z.serviceName == z'.serviceName
  {
    assert Get(z, TraceId) == Get(z', TraceId);
    assert Get(z, SpanId) == Get(z', SpanId);
    assert Get(z, SeverityText) == Get(z', SeverityText);
    assert Get(z, SeverityNumber) == Get(z', SeverityNumber);
    assert Get(z, ServiceName) == Get(z', ServiceName);
  }

  lemma SameContent(z: FlatLog, z': FlatLog)
    requires forall f :: Get(z, f) == Get(z', f)
    ensures z.body == z'.body
    ensures z.bodyType == z'.bodyType
    ensures z.scopeName == z'.scopeName
    ensures z.scopeVersion == z'.scopeVersion
  {
    assert Get(z, Body) == Get(z', Body);
    assert Get(z, BodyType) == Get(z', BodyType);
    assert Get(z, ScopeName) == Get(z', ScopeName);
    assert Get(z, ScopeVersion) == Get(z', ScopeVersion);
  }

  lemma SameAttrs(z: FlatLog, z': FlatLog)
    requires forall f :: Get(z, f) == Get(z', f)
    ensures z.logAttrKeys == z'.logAttrKeys
    ensures z.logAttrValues == z'.logAttrValues
    ensures z.resAttrKeys == z'.resAttrKeys
    ensures z.resAttrValues == z'.resAttrValues
  {
    assert Get(z, LogAttrKeys) == Get(z', LogAttrKeys);
    assert Get(z, LogAttrValues) == Get(z', LogAttrValues);
    assert Get(z, ResAttrKeys) == Get(z', ResAttrKeys);
    assert Get(z, ResAttrValues) == Get(z', ResAttrValues);
  }

  lemma SameFields(z: FlatLog, z': FlatLog)
    requires forall f :: Get(z, f) == Get(z', f)
    ensures z == z'
  {
    hide Get;
    SameTimes(z, z');
    SameOrigin(z, z');
    SameContent(z, z');
    SameAttrs(z, z');
  }

  // ---- Encoding

  function EncodeVal(v: Val): seq<byte>
  {
    match v
    case TimeVal(t) => AppendTime(t)
    case StrVal(s) => AppendString(s)
    case ByteVal(n) => AppendUint8(n)
    case ListVal(ss) => ArrayHeader(|ss|) + AppendStrings(ss)
  }

  function EncodeField(z: FlatLog, f: Field): seq<byte>
  {
    AppendString(Key(f)) + EncodeVal(Get(z, f))
  }

  function EncodeFields(z: FlatLog, fs: seq<Field>): seq<byte>
  {
    if fs == [] then [] else EncodeFields(z, fs[..|fs| - 1]) + EncodeField(z, fs[|fs| - 1])
  }

  /** The bytes of a record: a map header for sixteen entries, then the entries. */
  function EncodeLog(z: FlatLog): seq<byte>
  {
    [0xde, 0, 16] + EncodeFields(z, FIELDS)
  }

  // ---- Decoding

  function ReadVal(f: Field, b: seq<byte>): (r: Read<Val>)
    ensures r.Ok? ==> Matches(f, r.value)
  {
    match f
    case Timestamp | ObservedTimestamp | InsertedAt =>
      var (t, r) :- ReadTime(b);
      Ok(TimeVal(t), r)
    case SeverityNumber =>
      var (n, r) :- ReadUint8(b);
      Ok(ByteVal(n), r)
    case LogAttrKeys | LogAttrValues | ResAttrKeys | ResAttrValues =>
      var (ss, r) :- ReadStringArray(b);
      Ok(ListVal(ss), r)
    case _ =>
      var (s, r) :- ReadString(b);
      Ok(StrVal(s), r)
  }

  /** What the decoder does with the value that follows `key`: store it or, for a foreign key, skip it. */
  ghost function ReadValueFor(key: Str, b: seq<byte>, z: FlatLog): Read<FlatLog>
  {
    match FieldOf(key)
    case Some(f) =>
      var (v, r) :- ReadVal(f, b);
      Ok(Set(z, f, v), r)
    case None =>
      var (_, r) :- Skip(b);
      Ok(z, r)
  }

  /** One round of the decoding loop on a target that holds `z`. */
  ghost function ReadEntry(b: seq<byte>, z: FlatLog): Read<FlatLog>
  {
    var (key, r) :- ReadMapKey(b);
    ReadValueFor(key, r, z)
  }

  ghost function ReadEntries(n: nat, b: seq<byte>, z: FlatLog): Read<FlatLog>
  {
    if n == 0 then Ok(z, b)
    else
      var (z', r) :- ReadEntry(b, z);
      ReadEntries(n - 1, r, z')
  }

  ghost function DecodeLog(b: seq<byte>, z: FlatLog): Read<FlatLog>
  {
    var (n, r) :- ReadMapHeader(b);
    ReadEntries(n, r, z)
  }

  lemma FieldOfKey(f: Field)
    ensures FieldOf(Key(f)) == Some(f)
  {
    var g :| FieldOf(Key(f)) == Some(g) && Key(g) == Key(f);
    KeysDiffer(f, g);
  }

  ghost predicate ValWithinLimits(v: Val)
  {
    && (v.StrVal? ==> |v.str| < LIMIT)
    && (v.ListVal? ==> |v.strs| < LIMIT && forall s :: s in v.strs ==> |s| < LIMIT)
  }

  /** All lengths in the record fit in 32 bits. */
  ghost predicate WithinLimits(z: FlatLog)
  {
    forall f :: ValWithinLimits(Get(z, f))
  }

  lemma ReadValOf(f: Field, v: Val, rest: seq<byte>)
    requires Matches(f, v) && ValWithinLimits(v)
    ensures ReadVal(f, EncodeVal(v) + rest) == Ok(v, rest)
  {
    match v
    case TimeVal(t) => ReadTimeOf(t, rest);
    case StrVal(s) => ReadStringOf(s, rest);
    case ByteVal(n) => ReadUint8Of(n, rest);
    case ListVal(ss) => ReadStringArrayOf(ss, rest);
  }

  // ---- Maps as lists of entries, in any order and with foreign entries among the known ones

  /** The key is an object of the str or bin family. A foreign entry's value is any object at all. */
  datatype Entry = Known(key: Obj, field: Field, val: Val) | Foreign(key: Obj, obj: Obj)

  ghost predicate IsKey(k: Obj)
  {
    WellFormed(k) && k.LeafObj? && (0xa0 <= k.lead <= 0xbf || 0xc4 <= k.lead <= 0xc6 || 0xd9 <= k.lead <= 0xdb)
  }

  ghost predicate Legal(e: Entry)
  {
    && IsKey(e.key)
    && match e
       case Known(key, f, v) => key.data == Key(f) && Matches(f, v) && ValWithinLimits(v)
       case Foreign(key, o) => FieldOf(key.data) == None && Skippable(o)
  }

  ghost predicate AllLegal(es: seq<Entry>)
  {
    forall e :: e in es ==> Legal(e)
  }

  ghost function EncodeEntry(e: Entry): seq<byte>
    requires Legal(e)
  {
    Encode(e.key) + match e case Known(_, _, v) => EncodeVal(v) case Foreign(_, o) => Encode(o)
  }

  ghost function EncodeEntries(es: seq<Entry>): seq<byte>
    requires AllLegal(es)
  {
    if es == [] then [] else EncodeEntries(es[..|es| - 1]) + EncodeEntry(es[|es| - 1])
  }

  /** The record after the entries have been stored one by one. */
  ghost function Store(e: Entry, z: FlatLog): FlatLog
    requires Legal(e)
  {
    match e case Known(_, f, v) => Set(z, f, v) case Foreign(_, _) => z
  }

  ghost function StoreAll(es: seq<Entry>, z: FlatLog): FlatLog
    requires AllLegal(es)
  {
    if es == [] then z else Store(es[|es| - 1], StoreAll(es[..|es| - 1], z))
  }

  lemma KeyHead(lead: byte)
    requires 0xa0 <= lead <= 0xbf || 0xc4 <= lead <= 0xc6 || 0xd9 <= lead <= 0xdb
    ensures var h := Classify(lead);
            && h.Leaf? && h.extra == 0
            && h == if lead <= 0xbf then Leaf(0, lead - 0xa0, 0)
                    else if lead == 0xc4 || lead == 0xd9 then Leaf(1, 0, 0)
                    else if lead == 0xc5 || lead == 0xda then Leaf(2, 0, 0)
                    else Leaf(4, 0, 0)
  {
  }

  lemma ReadMapKeyOf(k: Obj, rest: seq<byte>)
    requires IsKey(k)
    ensures ReadMapKey(Encode(k) + rest) == Ok(k.data, rest)
  {
    hide Classify, BigEndian, Take, ReadBlob;
    KeyHead(k.lead);
    var h := Classify(k.lead);
    var b := Encode(k) + rest;
    assert b[0] == k.lead;
    if h.width == 0 {
      assert b[1..] == k.data + rest;
      TakeAll(k.data, rest);
    } else {
      assert b[1..] == BigEndian(h.width, |k.data|) + k.data + rest;
      ReadBlobOf(h.width, k.data, rest);
    }
  }

  lemma KeyIsWellFormed(k: Obj)
    requires IsKey(k)
    ensures WellFormed(k)
  {
  }

  lemma ReadEntryOf(e: Entry, rest: seq<byte>, z: FlatLog)
    requires Legal(e)
    ensures ReadEntry(EncodeEntry(e) + rest, z) == Ok(Store(e, z), rest)
  {
    hide IsKey, Encode, EncodeVal, Set;
    assert WellFormed(e.key) by { assert IsKey(e.key); KeyIsWellFormed(e.key); }
    var tail := match e case Known(_, _, v) => EncodeVal(v) case Foreign(_, o) => Encode(o);
    assert EncodeEntry(e) + rest == Encode(e.key) + (tail + rest);
    ReadMapKeyOf(e.key, tail + rest);
    match e
    case Known(key, f, v) =>
      FieldOfKey(f);
      ReadValOf(f, v, rest);
    case Foreign(_, o) =>
      SkipEncoded(NESTING_LIMIT, o, rest);
  }

  /** Reading `m + n` entries is reading `m` and then `n`. */
  lemma {:induction false} ReadEntriesSplit(m: nat, n: nat, b: seq<byte>, z: FlatLog)
    ensures ReadEntries(m + n, b, z) ==
            (var r := ReadEntries(m, b, z); if r.Fail? then Fail else ReadEntries(n, r.rest, r.value))
  {
    hide ReadEntry;
    if m > 0 && ReadEntry(b, z).Ok? {
      ReadEntriesSplit(m - 1, n, ReadEntry(b, z).rest, ReadEntry(b, z).value);
    }
  }

  lemma {:induction false} ReadEntriesOf(es: seq<Entry>, rest: seq<byte>, z: FlatLog)
    requires AllLegal(es)
    ensures ReadEntries(|es|, EncodeEntries(es) + rest, z) == Ok(StoreAll(es, z), rest)
  {
    hide Legal, EncodeEntry, Store, ReadEntry;
    if es == [] {
      assert EncodeEntries(es) + rest == rest;
    } else {
      var init, last := es[..|es| - 1], es[|es| - 1];
      var more := EncodeEntry(last) + rest;
      assert EncodeEntries(es) + rest == EncodeEntries(init) + more;
      ReadEntriesOf(init, more, z);
      ReadEntriesSplit(|init|, 1, EncodeEntries(es) + rest, z);
      var z' := StoreAll(init, z);
      ReadEntryOf(last, rest, z');
      assert ReadEntries(1, more, z') == ReadEntries(0, rest, Store(last, z'));
    }
  }

  /** Any of the three map headers that announces `n` entries. */
  ghost predicate MapHeaderFor(lead: byte, n: nat)
  {
    (0x80 <= lead <= 0x8f || lead == 0xde || lead == 0xdf) && Fits(Classify(lead), n)
  }

  ghost function EncodeMap(lead: byte, es: seq<Entry>): seq<byte>
    requires AllLegal(es) && MapHeaderFor(lead, |es|)
  {
    [lead] + BigEndian(Classify(lead).width, |es|) + EncodeEntries(es)
  }

  lemma MapHead(lead: byte)
    requires 0x80 <= lead <= 0x8f || lead == 0xde || lead == 0xdf
    ensures Classify(lead) ==
            if lead <= 0x8f then Node(0, lead - 0x80, true) else Node(if lead == 0xde then 2 else 4, 0, true)
  {
  }

  lemma DecodeMap(lead: byte, es: seq<Entry>, rest: seq<byte>, z: FlatLog)
    requires AllLegal(es) && MapHeaderFor(lead, |es|)
    ensures DecodeLog(EncodeMap(lead, es) + rest, z) == Ok(StoreAll(es, z), rest)
  {
    hide Classify, Legal, EncodeEntries, StoreAll, ReadEntries;
    MapHead(lead);
    var h := Classify(lead);
    var b := EncodeMap(lead, es) + rest;
    var tail := EncodeEntries(es) + rest;
    assert b[1..] == BigEndian(h.width, |es|) + tail;
    ReadLengthOf(h, |es|, tail);
    ReadEntriesOf(es, rest, z);
  }

  // ---- What a list of entries stores

  /** All entries for a field agree with the record `z` on its value. */
  ghost predicate AgreesWith(es: seq<Entry>, z: FlatLog)
  {
    forall e :: e in es && e.Known? ==> e.val == Get(z, e.field)
  }

  ghost predicate Mentions(es: seq<Entry>, f: Field)
  {
    exists e :: e in es && e.Known? && e.field == f
  }

  lemma {:induction false} StoreAllAgrees(es: seq<Entry>, z: FlatLog, prior: FlatLog, f: Field)
    requires AllLegal(es) && AgreesWith(es, z)
    ensures Get(StoreAll(es, prior), f) == if Mentions(es, f) then Get(z, f) else Get(prior, f)
  {
    hide Get, Set, Legal, Matches;
    if es != [] {
      var init, last := es[..|es| - 1], es[|es| - 1];
      assert es == init + [last];
      StoreAllAgrees(init, z, prior, f);
      assert Mentions(es, f) <==> Mentions(init, f) || (last.Known? && last.field == f) by {
        assert forall e :: e in es <==> e in init || e == last;
      }
      if last.Known? {
        GetSet(StoreAll(init, prior), last.field, last.val, f);
      }
    }
  }

  /**
   The decoder depends only on the key/value mapping: entries in any order, under any header and key
   forms, repeated or interleaved with foreign entries, decode to the record they describe.
   */
  lemma DecodeAnyOrder(lead: byte, es: seq<Entry>, z: FlatLog, rest: seq<byte>, prior: FlatLog)
    requires AllLegal(es) && MapHeaderFor(lead, |es|)
    requires AgreesWith(es, z) && forall f :: Mentions(es, f)
    ensures DecodeLog(EncodeMap(lead, es) + rest, prior) == Ok(z, rest)
  {
    hide Legal, MapHeaderFor, EncodeMap, Get, DecodeLog;
    DecodeMap(lead, es, rest, prior);
    forall f ensures Get(StoreAll(es, prior), f) == Get(z, f) {
      StoreAllAgrees(es, z, prior, f);
    }
    SameFields(StoreAll(es, prior), z);
  }

  /** Fields the map does not mention keep what the target held. */
  lemma DecodePartial(lead: byte, es: seq<Entry>, z: FlatLog, rest: seq<byte>, prior: FlatLog, f: Field)
    requires AllLegal(es) && MapHeaderFor(lead, |es|) && AgreesWith(es, z)
    ensures var r := DecodeLog(EncodeMap(lead, es) + rest, prior);
            r.Ok? && r.rest == rest && Get(r.value, f) == if Mentions(es, f) then Get(z, f) else Get(prior, f)
  {
    hide Legal, MapHeaderFor, EncodeMap, Get, DecodeLog;
    DecodeMap(lead, es, rest, prior);
    StoreAllAgrees(es, z, prior, f);
  }

  /** Permuting the entries of a map does not change what it decodes to. */
  lemma PermutedMapsDecodeAlike(lead: byte, es: seq<Entry>, es': seq<Entry>, z: FlatLog, rest: seq<byte>,
    prior: FlatLog)
    requires AllLegal(es) && MapHeaderFor(lead, |es|) && AgreesWith(es, z)
    requires multiset(es) == multiset(es')
    ensures |es| == |es'| && AllLegal(es')
    ensures DecodeLog(EncodeMap(lead, es) + rest, prior) == DecodeLog(EncodeMap(lead, es') + rest, prior)
  {
    hide Legal, MapHeaderFor, EncodeMap, Get, DecodeLog;
    assert |multiset(es)| == |es| && |multiset(es')| == |es'|;
    assert forall e :: e in es <==> e in multiset(es);
    assert forall e :: e in es' <==> e in multiset(es');
    DecodeMap(lead, es, rest, prior);
    DecodeMap(lead, es', rest, prior);
    forall f ensures Get(StoreAll(es, prior), f) == Get(StoreAll(es', prior), f) {
      StoreAllAgrees(es, z, prior, f);
      StoreAllAgrees(es', z, prior, f);
    }
    SameFields(StoreAll(es, prior), StoreAll(es', prior));
  }

  // ---- The encoder's own output

  function KeyLead(f: Field): (lead: byte)
  {
    0xa0 + |Key(f)|
  }

  ghost function OwnEntries(z: FlatLog, fs: seq<Field>): (es: seq<Entry>)
    ensures |es| == |fs|
    ensures forall i :: 0 <= i < |fs| ==> es[i] == Known(LeafObj(KeyLead(fs[i]), Key(fs[i])), fs[i], Get(z, fs[i]))
  {
    seq(|fs|, i requires 0 <= i < |fs| => Known(LeafObj(KeyLead(fs[i]), Key(fs[i])), fs[i], Get(z, fs[i])))
  }

  lemma KeyLength(f: Field)
    ensures |Key(f)| <= 17
  {
  }

  lemma OwnEntryLegal(z: FlatLog, f: Field)
    requires ValWithinLimits(Get(z, f))
    ensures var e := Known(LeafObj(KeyLead(f), Key(f)), f, Get(z, f));
            Legal(e) && EncodeEntry(e) == EncodeField(z, f)
  {
    hide Get, EncodeVal, KeyName, Ascii, Classify;
    KeyLength(f);
    KeyHead(KeyLead(f));
    assert BigEndian(0, |Key(f)|) == [];
    assert AppendString(Key(f)) == [KeyLead(f)] + Key(f);
  }

  lemma {:induction false} EncodeFieldsAsEntries(z: FlatLog, fs: seq<Field>)
    requires WithinLimits(z)
    ensures AllLegal(OwnEntries(z, fs)) && EncodeEntries(OwnEntries(z, fs)) == EncodeFields(z, fs)
  {
    hide Legal, EncodeField, EncodeEntry, Get, KeyName;
    var es := OwnEntries(z, fs);
    forall e | e in es ensures Legal(e) {
      var i :| 0 <= i < |es| && es[i] == e;
      OwnEntryLegal(z, fs[i]);
    }
    if fs != [] {
      var init, last := fs[..|fs| - 1], fs[|fs| - 1];
      EncodeFieldsAsEntries(z, init);
      assert OwnEntries(z, init) == es[..|es| - 1];
      OwnEntryLegal(z, last);
    }
  }

  function Index(f: Field): (i: nat)
    ensures i < 16
  {
    match f
    case Timestamp => 0 case ObservedTimestamp => 1 case InsertedAt => 2 case TraceId => 3
    case SpanId => 4 case SeverityText => 5 case SeverityNumber => 6 case ServiceName => 7
    case Body => 8 case BodyType => 9 case ScopeName => 10 case ScopeVersion => 11
    case LogAttrKeys => 12 case LogAttrValues => 13 case ResAttrKeys => 14 case ResAttrValues => 15
  }

  lemma FieldAt(f: Field)
    ensures |FIELDS| == 16 && FIELDS[Index(f)] == f
  {
  }

  lemma OwnEncodingIsMap(z: FlatLog)
    requires WithinLimits(z)
    ensures AllLegal(OwnEntries(z, FIELDS)) && MapHeaderFor(0xde, 16)
    ensures EncodeLog(z) == EncodeMap(0xde, OwnEntries(z, FIELDS))
  {
    hide Legal, Get, WithinLimits, Classify, EncodeField, EncodeEntry, EncodeFields, EncodeEntries, OwnEntries;
    Powers();
    MapHead(0xde);
    EncodeFieldsAsEntries(z, FIELDS);
    assert BigEndian(2, 16) == [0, 16] by {
      assert BigEndian(1, 0) == [0];
    }
  }

  /** Decoding undoes encoding, whatever the target held, and stops where the encoding ends. */
  lemma RoundTrip(z: FlatLog, rest: seq<byte>, prior: FlatLog)
    requires WithinLimits(z)
    ensures DecodeLog(EncodeLog(z) + rest, prior) == Ok(z, rest)
  {
    hide Get, KeyName, EncodeLog, DecodeLog, EncodeMap, Legal;
    OwnEncodingIsMap(z);
    var es := OwnEntries(z, FIELDS);
    forall f ensures Mentions(es, f) {
      FieldAt(f);
      assert es[Index(f)] in es && es[Index(f)].field == f;
    }
    DecodeAnyOrder(0xde, es, z, rest, prior);
  }

  // ---- The 32-bit limit is exact

  lemma ReadValLimit(f: Field, b: seq<byte>)
    ensures ReadVal(f, b).Ok? ==> ValWithinLimits(ReadVal(f, b).value)
  {
    ReadStringLimit(b);
    ReadStringArrayLimit(b);
  }

  lemma ReadEntryLimit(b: seq<byte>, z: FlatLog)
    requires WithinLimits(z)
    ensures ReadEntry(b, z).Ok? ==> WithinLimits(ReadEntry(b, z).value)
  {
    hide Get, Set, ReadVal, ValWithinLimits;
    var key := ReadMapKey(b);
    if key.Ok? && FieldOf(key.value).Some? && ReadEntry(b, z).Ok? {
      var f := FieldOf(key.value).value;
      var v := ReadVal(f, key.rest).value;
      ReadValLimit(f, key.rest);
      forall g ensures ValWithinLimits(Get(Set(z, f, v), g)) {
        GetSet(z, f, v, g);
      }
    }
  }

  lemma {:induction false} ReadEntriesLimit(n: nat, b: seq<byte>, z: FlatLog)
    requires WithinLimits(z)
    ensures ReadEntries(n, b, z).Ok? ==> WithinLimits(ReadEntries(n, b, z).value)
  {
    hide WithinLimits, ReadEntry;
    if n > 0 && ReadEntry(b, z).Ok? {
      ReadEntryLimit(b, z);
      ReadEntriesLimit(n - 1, ReadEntry(b, z).rest, ReadEntry(b, z).value);
    }
  }

  /** A record survives encoding and decoding exactly when all its lengths are below 2^32. */
  lemma RoundTripExactly(z: FlatLog, rest: seq<byte>, prior: FlatLog)
    requires WithinLimits(prior)
    ensures DecodeLog(EncodeLog(z) + rest, prior) == Ok(z, rest) <==> WithinLimits(z)
  {
    hide WithinLimits, EncodeLog;
    if WithinLimits(z) {
      RoundTrip(z, rest, prior);
    }
    var b := EncodeLog(z) + rest;
    if DecodeLog(b, prior) == Ok(z, rest) {
      var h := ReadMapHeader(b);
      ReadEntriesLimit(h.value, h.rest, prior);
    }
  }

  // ---- Truncated input is rejected

  lemma ReadValStable(f: Field, b: seq<byte>, q: seq<byte>)
    ensures Stable(x => ReadVal(f, x), b, q)
  {
    hide ReadTime, ReadUint8, ReadStringArray, ReadString;
    ReadTimeStable(b, q);
    ReadUint8Stable(b, q);
    ReadStringArrayStable(b, q);
    ReadStringStable(b, q);
  }

  lemma ReadEntryStable(b: seq<byte>, q: seq<byte>, z: FlatLog)
    requires ReadEntry(b, z).Ok?
    ensures ReadEntry(b + q, z) == Ok(ReadEntry(b, z).value, ReadEntry(b, z).rest + q)
  {
    hide ReadVal, Set;
    ReadMapKeyStable(b, q);
    var key := ReadMapKey(b);
    if FieldOf(key.value).Some? {
      ReadValStable(FieldOf(key.value).value, key.rest, q);
    } else {
      SkipStable(key.rest, q);
    }
  }

  lemma {:induction false} ReadEntriesStable(n: nat, b: seq<byte>, q: seq<byte>, z: FlatLog)
    requires ReadEntries(n, b, z).Ok?
    ensures ReadEntries(n, b + q, z) == Ok(ReadEntries(n, b, z).value, ReadEntries(n, b, z).rest + q)
  {
    hide ReadEntry;
    if n > 0 {
      ReadEntryStable(b, q, z);
      ReadEntriesStable(n - 1, ReadEntry(b, z).rest, q, ReadEntry(b, z).value);
    }
  }

  lemma DecodeStable(b: seq<byte>, q: seq<byte>, z: FlatLog)
    requires DecodeLog(b, z).Ok?
    ensures DecodeLog(b + q, z) == Ok(DecodeLog(b, z).value, DecodeLog(b, z).rest + q)
  {
    ReadHeadersStable(b, q);
    var h := ReadMapHeader(b);
    ReadEntriesStable(h.value, h.rest, q, z);
  }

  /** No strict prefix of an encoding decodes. */
  lemma TruncatedFails(z: FlatLog, k: nat, prior: FlatLog)
    requires WithinLimits(z) && k < |EncodeLog(z)|
    ensures DecodeLog(EncodeLog(z)[..k], prior).Fail?
  {
    hide EncodeLog, DecodeLog;
    var b := EncodeLog(z);
    if DecodeLog(b[..k], prior).Ok? {
      DecodeStable(b[..k], b[k..], prior);
      assert b[..k] + b[k..] == b == b + [];
      RoundTrip(z, [], prior);
      assert false;
    }
  }

  // ---- Concatenated encodings

  lemma {:induction false} ReadEntriesConsumes(n: nat, b: seq<byte>, z: FlatLog)
    ensures ReadEntries(n, b, z).Ok? ==> |ReadEntries(n, b, z).rest| <= |b|
  {
    hide ReadEntry;
    if n > 0 && ReadEntry(b, z).Ok? {
      ReadEntryConsumes(b, z);
      ReadEntriesConsumes(n - 1, ReadEntry(b, z).rest, ReadEntry(b, z).value);
    }
  }

  lemma ReadEntryConsumes(b: seq<byte>, z: FlatLog)
    ensures ReadEntry(b, z).Ok? ==> |ReadEntry(b, z).rest| <= |b|
  {
    hide Set, ReadMapKey, ReadString, ReadStringArray, ReadTime, ReadUint8;
  }

  lemma DecodeConsumes(b: seq<byte>, z: FlatLog)
    ensures DecodeLog(b, z).Ok? ==> |DecodeLog(b, z).rest| < |b|
  {
    var h := ReadMapHeader(b);
    if h.Ok? {
      assert |h.rest| < |b|;
      ReadEntriesConsumes(h.value, h.rest, z);
    }
  }

  /**
   Decodes records until the input is used up or one does not decode; the records before a bad one
   are kept. The second result says whether all of the input was used.
   */
  ghost function DecodeMany(b: seq<byte>): (seq<FlatLog>, bool)
    decreases |b|
  {
    if b == [] then ([], true)
    else
      var r := DecodeLog(b, EMPTY);
      if r.Fail? then ([], false)
      else
        DecodeConsumes(b, EMPTY);
        var (zs, ok) := DecodeMany(r.rest);
        ([r.value] + zs, ok)
  }

  function EncodeMany(zs: seq<FlatLog>): seq<byte>
  {
    if zs == [] then [] else EncodeLog(zs[0]) + EncodeMany(zs[1..])
  }

  lemma ManyHead(zs: seq<FlatLog>, tail: seq<byte>)
    requires zs != []
    ensures EncodeMany(zs) + tail == EncodeLog(zs[0]) + (EncodeMany(zs[1..]) + tail)
  {
    hide EncodeLog;
  }

  /** One round of the decode loop. */
  lemma DecodeManyStep(z: FlatLog, more: seq<byte>)
    requires WithinLimits(z)
    ensures var r := DecodeMany(more); DecodeMany(EncodeLog(z) + more) == ([z] + r.0, r.1)
  {
    hide WithinLimits, EncodeLog, DecodeLog;
    RoundTrip(z, more, EMPTY);
    assert EncodeLog(z) + more != [] by { DecodeConsumes(EncodeLog(z) + more, EMPTY); }
  }

  /** A decode loop over concatenated encodings returns the records in order. */
  lemma {:induction false} DecodeManyOf(zs: seq<FlatLog>, tail: seq<byte>)
    requires forall z :: z in zs ==> WithinLimits(z)
    ensures DecodeMany(EncodeMany(zs) + tail) == (zs + DecodeMany(tail).0, DecodeMany(tail).1)
  {
    hide WithinLimits, EncodeLog, DecodeLog;
    if zs == [] {
      assert EncodeMany(zs) + tail == tail;
      assert zs + DecodeMany(tail).0 == DecodeMany(tail).0;
    } else {
      hide DecodeMany, EncodeMany;
      var more := EncodeMany(zs[1..]) + tail;
      ManyHead(zs, tail);
      DecodeManyStep(zs[0], more);
      DecodeManyOf(zs[1..], tail);
      assert zs == [zs[0]] + zs[1..];
      assert zs + DecodeMany(tail).0 == [zs[0]] + (zs[1..] + DecodeMany(tail).0);
    }
  }

  /** A batch cut short inside a record yields the whole records before the cut and then an error. */
  lemma DecodeManyTruncated(zs: seq<FlatLog>, z: FlatLog, k: nat)
    requires (forall x :: x in zs ==> WithinLimits(x)) && WithinLimits(z)
    requires 0 < k < |EncodeLog(z)|
    ensures DecodeMany(EncodeMany(zs) + EncodeLog(z)[..k]) == (zs, false)
  {
    hide WithinLimits, EncodeLog;
    TruncatedFails(z, k, EMPTY);
    DecodeManyOf(zs, EncodeLog(z)[..k]);
    assert zs + [] == zs;
  }
}
