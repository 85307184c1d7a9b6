/**
 Flattening of resource logs into rows and live-tail records. The scratch slices of a recycled buffer are truncated
 and refilled for every record, and the live-tail record shares their backing arrays.
 */
module Flatten {
  import opened Bytes
  import opened MsgPack
  import opened Seqs
  import opened LogData
  import opened FlatLogCodec
  import opened FlatLogRecords
  import opened Columns
  import opened Storage

  // ---- The incoming data; attribute values and bodies are given in their string form

  datatype Attr = Attr(key: Str, value: Str)

  datatype LogRecord = LogRecord(
    attrs: seq<Attr>,
    observedTimestamp: nat,   // 64 bits
    timestamp: nat,
    traceId: seq<byte>,
    spanId: seq<byte>,
    severityText: Str,
    severityNumber: int,
    body: Str)

  datatype ScopeLogs = ScopeLogs(name: Str, version: Str, records: seq<LogRecord>)
  datatype ResourceLogs = ResourceLogs(attrs: seq<Attr>, scopes: seq<ScopeLogs>)

  // ---- The rows of resource logs

  function Keys(attrs: seq<Attr>): (ks: seq<Str>)
    ensures |ks| == |attrs| && forall i :: 0 <= i < |attrs| ==> ks[i] == attrs[i].key
  {
    seq(|attrs|, i requires 0 <= i < |attrs| => attrs[i].key)
  }

  function Values(attrs: seq<Attr>): (vs: seq<Str>)
    ensures |vs| == |attrs| && forall i :: 0 <= i < |attrs| ==> vs[i] == attrs[i].value
  {
    seq(|attrs|, i requires 0 <= i < |attrs| => attrs[i].value)
  }

  const SERVICE_NAME := Ascii("service.name")
  const UNKNOWN := Ascii("unknown")
  const STRING := Ascii("string")
  const SUBJECT_PREFIX := Ascii("tail.")

  predicate NamesService(a: Attr)
  {
    a.key == SERVICE_NAME && a.value != []
  }

  /** The last non-empty service name among the resource attributes. */
  function ServiceNameOf(attrs: seq<Attr>): Str
  {
    if attrs == [] then UNKNOWN
    else if NamesService(attrs[|attrs| - 1]) then attrs[|attrs| - 1].value
    else ServiceNameOf(attrs[..|attrs| - 1])
  }

  /** A count of nanoseconds as an instant, by way of a signed 64-bit integer. */
  function FromNanos(n: nat): Time
  {
    UnixTime(0, Wrap64(n))
  }

  function OrNow(t: nat, now: nat): nat
  {
    if t == 0 then now else t
  }

  function RowFor(resAttrs: seq<Attr>, scope: ScopeLogs, now: nat): LogRecord -> seq<Row>
  {
    (l: LogRecord) =>
      [Row(FromNanos(OrNow(l.timestamp, now)), FromNanos(OrNow(l.observedTimestamp, now)), l.severityNumber % 256,
           l.traceId, l.spanId, Keys(l.attrs), Values(l.attrs), Keys(resAttrs), Values(resAttrs),
           LogFields(scope.name, scope.version, l.severityText, ServiceNameOf(resAttrs), l.body, STRING))]
  }

  function ScopeRows(resAttrs: seq<Attr>, now: nat): ScopeLogs -> seq<Row>
  {
    (scope: ScopeLogs) => FlatMap(RowFor(resAttrs, scope, now), scope.records)
  }

  /** One row per record, in scope and record order, each with its own attributes. */
  function RowsFor(rl: ResourceLogs, now: nat): seq<Row>
  {
    FlatMap(ScopeRows(rl.attrs, now), rl.scopes)
  }

  // ---- What the rows say, field by field

  /** `t` is `nanos` nanoseconds since the epoch, a count of 64 bits that is read as a signed one. */
  predicate Instant(t: Time, nanos: nat)
  {
    && (nanos < 0x8000_0000_0000_0000 ==> t == Time(nanos / 1_000_000_000, nanos % 1_000_000_000))
    && (0x8000_0000_0000_0000 <= nanos < 0x1_0000_0000_0000_0000 ==>
          var before := 0x1_0000_0000_0000_0000 - nanos;
          t == Time(-before / 1_000_000_000, -before % 1_000_000_000))
  }

  predicate NamedAt(attrs: seq<Attr>, i: nat)
    requires i < |attrs|
  {
    attrs[i].key == Ascii("service.name") && attrs[i].value != []
  }

  /** The last non-empty value under `service.name`, or `unknown`. */
  ghost predicate IsServiceName(name: Str, attrs: seq<Attr>)
  {
    || (name == Ascii("unknown") && forall i :: 0 <= i < |attrs| ==> !NamedAt(attrs, i))
    || (exists i :: 0 <= i < |attrs| && NamedAt(attrs, i) && name == attrs[i].value
          && forall j :: i < j < |attrs| ==> !NamedAt(attrs, j))
  }

  predicate SplitInto(attrs: seq<Attr>, keys: seq<Str>, values: seq<Str>)
  {
    && |keys| == |values| == |attrs|
    && forall i :: 0 <= i < |attrs| ==> keys[i] == attrs[i].key && values[i] == attrs[i].value
  }

  /** The row is that of a record of a scope of a resource; a time that is missing is `now`. */
  ghost predicate Describes(row: Row, resAttrs: seq<Attr>, scope: ScopeLogs, l: LogRecord, now: nat)
  {
    && (l.timestamp != 0 ==> Instant(row.timestamp, l.timestamp))
    && (l.timestamp == 0 ==> Instant(row.timestamp, now))
    && (l.observedTimestamp != 0 ==> Instant(row.observedTimestamp, l.observedTimestamp))
    && (l.observedTimestamp == 0 ==> Instant(row.observedTimestamp, now))
    && row.severityNumber == l.severityNumber % 256
    && row.traceId == l.traceId && row.spanId == l.spanId
    && SplitInto(l.attrs, row.logAttrKeys, row.logAttrValues)
    && SplitInto(resAttrs, row.resAttrKeys, row.resAttrValues)
    && row.fields.scopeName == scope.name && row.fields.scopeVersion == scope.version
    && row.fields.severityText == l.severityText && row.fields.body == l.body
    && row.fields.bodyType == Ascii("string")
    && IsServiceName(row.fields.serviceName, resAttrs)
  }

  /** How many records there are in some scopes. */
  function Size(scopes: seq<ScopeLogs>): nat
  {
    if scopes == [] then 0 else Size(scopes[..|scopes| - 1]) + |scopes[|scopes| - 1].records|
  }

  /** The row at the place of a record in scope and record order. */
  ghost predicate RowAt(rows: seq<Row>, resAttrs: seq<Attr>, scopes: seq<ScopeLogs>, now: nat, a: nat, b: nat)
    requires a < |scopes| && b < |scopes[a].records|
  {
    var i := Size(scopes[..a]) + b;
    i < |rows| && Describes(rows[i], resAttrs, scopes[a], scopes[a].records[b], now)
  }

  /** One row per record, each at its place. */
  ghost predicate RecordsInOrder(rows: seq<Row>, resAttrs: seq<Attr>, scopes: seq<ScopeLogs>, now: nat)
  {
    && |rows| == Size(scopes)
    && forall a, b :: 0 <= a < |scopes| && 0 <= b < |scopes[a].records| ==> RowAt(rows, resAttrs, scopes, now, a, b)
  }

  lemma {:induction false} ServiceNameIs(attrs: seq<Attr>)
    ensures IsServiceName(ServiceNameOf(attrs), attrs)
  {
    if attrs != [] {
      var n := |attrs| - 1;
      assert NamesService(attrs[n]) <==> NamedAt(attrs, n);
      if !NamesService(attrs[n]) {
        ServiceNameIs(attrs[..n]);
        assert forall i :: 0 <= i < n ==> (NamedAt(attrs, i) <==> NamedAt(attrs[..n], i));
        if i :| 0 <= i < n && NamedAt(attrs[..n], i) && ServiceNameOf(attrs[..n]) == attrs[..n][i].value
                && forall j :: i < j < n ==> !NamedAt(attrs[..n], j) {
          assert NamedAt(attrs, i);
        }
      }
    }
  }

  lemma InstantIs(nanos: nat)
    ensures Instant(FromNanos(nanos), nanos)
  {
    if 0x8000_0000_0000_0000 <= nanos < 0x1_0000_0000_0000_0000 {
      assert Wrap64(nanos) == nanos - 0x1_0000_0000_0000_0000;
    }
  }

  lemma RowDescribes(resAttrs: seq<Attr>, scope: ScopeLogs, now: nat, l: LogRecord)
    ensures |RowFor(resAttrs, scope, now)(l)| == 1
    ensures Describes(RowFor(resAttrs, scope, now)(l)[0], resAttrs, scope, l, now)
  {
    hide FromNanos, Instant, ServiceNameOf, IsServiceName;
    ServiceNameIs(resAttrs);
    InstantIs(l.timestamp);
    InstantIs(l.observedTimestamp);
    InstantIs(now);
  }

  lemma {:induction false} ScopeInOrder(resAttrs: seq<Attr>, scope: ScopeLogs, now: nat, ls: seq<LogRecord>)
    ensures var rows := FlatMap(RowFor(resAttrs, scope, now), ls);
            |rows| == |ls| && forall b :: 0 <= b < |ls| ==> Describes(rows[b], resAttrs, scope, ls[b], now)
  {
    hide RowFor, Describes;
    if ls != [] {
      var n := |ls| - 1;
      ScopeInOrder(resAttrs, scope, now, ls[..n]);
      RowDescribes(resAttrs, scope, now, ls[n]);
    }
  }

  lemma {:induction false} ScopesInOrder(resAttrs: seq<Attr>, scopes: seq<ScopeLogs>, now: nat)
    ensures RecordsInOrder(FlatMap(ScopeRows(resAttrs, now), scopes), resAttrs, scopes, now)
  {
    hide RowFor, Describes;
    if scopes != [] {
      var n := |scopes| - 1;
      var init := FlatMap(ScopeRows(resAttrs, now), scopes[..n]);
      var rows := FlatMap(ScopeRows(resAttrs, now), scopes);
      ScopesInOrder(resAttrs, scopes[..n], now);
      ScopeInOrder(resAttrs, scopes[n], now, scopes[n].records);
      forall a, b | 0 <= a < |scopes| && 0 <= b < |scopes[a].records|
        ensures RowAt(rows, resAttrs, scopes, now, a, b)
      {
        if a < n {
          assert scopes[..n][..a] == scopes[..a];
          assert RowAt(init, resAttrs, scopes[..n], now, a, b);
        }
      }
    }
  }

  /** The rows of resource logs, record by record. */
  lemma RowsInOrder(rl: ResourceLogs, now: nat)
    ensures RecordsInOrder(RowsFor(rl, now), rl.attrs, rl.scopes, now)
  {
    hide RecordsInOrder, FlatMap;
    ScopesInOrder(rl.attrs, rl.scopes, now);
  }

  // ---- The live-tail record of a row

  /** Ids in string form: hexadecimal, but empty when all bytes are zero. */
  function IdString(id: seq<byte>): Str
  {
    if AllZero(id) then [] else Hex(id)
  }

  function FlatOf(r: Row): FlatLog
  {
    FlatLog(r.timestamp, r.observedTimestamp, ZERO_TIME, IdString(r.traceId), IdString(r.spanId), r.fields.severityText,
            r.severityNumber, r.fields.serviceName, r.fields.body, r.fields.bodyType, r.fields.scopeName,
            r.fields.scopeVersion, r.logAttrKeys, r.logAttrValues, r.resAttrKeys, r.resAttrValues)
  }

  predicate AllZero(id: seq<byte>)
  {
    forall b :: b in id ==> b == 0
  }

  /** The record agrees with the stored row field by field exactly if neither id consists of zero bytes only. */
  lemma RecordMatchesRow(r: Row)
    requires |r.traceId| == 16 && |r.spanId| == 8
    ensures Matching(r, FlatOf(r)) <==> !AllZero(r.traceId) && !AllZero(r.spanId)
  {
    hide AllZero, HexDigit;
    assert |Hex(r.traceId)| == 32 && |Hex(r.spanId)| == 16;
  }

  function Publication(r: Row): (Str, seq<byte>)
  {
    (SUBJECT_PREFIX + r.fields.serviceName, EncodeLog(FlatOf(r)))
  }

  function Publications(rows: seq<Row>): (ps: seq<(Str, seq<byte>)>)
    ensures |ps| == |rows| && forall i :: 0 <= i < |rows| ==> ps[i] == Publication(rows[i])
  {
    seq(|rows|, i requires 0 <= i < |rows| => Publication(rows[i]))
  }

  /** The published record is the row's, with ids in hexadecimal and without those of zero bytes only. */
  ghost predicate Carries(z: FlatLog, row: Row)
  {
    && z.timestamp == row.timestamp && z.observedTimestamp == row.observedTimestamp && z.insertedAt == ZERO_TIME
    && (if AllZero(row.traceId) then z.traceId == [] else SpellsHex(z.traceId, row.traceId))
    && (if AllZero(row.spanId) then z.spanId == [] else SpellsHex(z.spanId, row.spanId))
    && z.severityText == row.fields.severityText && z.severityNumber == row.severityNumber
    && z.serviceName == row.fields.serviceName && z.body == row.fields.body && z.bodyType == row.fields.bodyType
    && z.scopeName == row.fields.scopeName && z.scopeVersion == row.fields.scopeVersion
    && z.logAttrKeys == row.logAttrKeys && z.logAttrValues == row.logAttrValues
    && z.resAttrKeys == row.resAttrKeys && z.resAttrValues == row.resAttrValues
  }

  /** A publication of the row: its service's subject and the bytes of a record that carries it. */
  ghost predicate Announces(p: (Str, seq<byte>), row: Row)
  {
    p.0 == Ascii("tail.") + row.fields.serviceName && exists z :: Carries(z, row) && p.1 == EncodeLog(z)
  }

  lemma PublicationAnnounces(row: Row)
    ensures Announces(Publication(row), row)
  {
    hide EncodeLog, SpellsHex, Hex;
    HexSpells(row.traceId);
    HexSpells(row.spanId);
    assert Carries(FlatOf(row), row);
  }

  // ---- Slices

  /** Go's append: in place while the capacity lasts, into a larger array otherwise. */
  method Append(s: Slice, x: Str) returns (s': Slice)
    requires s.Valid()
    modifies s.arr
    ensures s'.Valid() && (s'.arr == s.arr || fresh(s'.arr))
    ensures s'.Elements() == old(s.Elements()) + [x]
  {
    if s.len < s.arr.Length {
      s.arr[s.len] := x;
      s' := Slice(s.arr, s.len + 1);
    } else {
      var capacity :| capacity > s.len;
      var arr := new Str[capacity](_ => []);
      forall i | 0 <= i < s.len {
        arr[i] := s.arr[i];
      }
      arr[s.len] := x;
      s' := Slice(arr, s.len + 1);
    }
  }

  /** Appends the keys and values of attributes to two slices. */
  method AppendAttrs(ks: Slice, vs: Slice, attrs: seq<Attr>) returns (keys: Slice, values: Slice)
    requires ks.Valid() && vs.Valid() && ks.arr != vs.arr
    modifies ks.arr, vs.arr
    ensures keys.Valid() && values.Valid() && keys.arr != values.arr
    ensures (keys.arr == ks.arr || fresh(keys.arr)) && (values.arr == vs.arr || fresh(values.arr))
    ensures keys.Elements() == old(ks.Elements()) + Keys(attrs)
            && values.Elements() == old(vs.Elements()) + Values(attrs)
  {
    keys, values := ks, vs;
    for i := 0 to |attrs|
      invariant keys.Valid() && values.Valid() && keys.arr != values.arr
      invariant (keys.arr == ks.arr || fresh(keys.arr)) && (values.arr == vs.arr || fresh(values.arr))
      invariant keys.Elements() == old(ks.Elements()) + Keys(attrs)[..i]
      invariant values.Elements() == old(vs.Elements()) + Values(attrs)[..i]
    {
      keys := Append(keys, attrs[i].key);
      values := Append(values, attrs[i].value);
      assert Keys(attrs)[..i + 1] == Keys(attrs)[..i] + [attrs[i].key];
      assert Values(attrs)[..i + 1] == Values(attrs)[..i] + [attrs[i].value];
    }
    assert Keys(attrs)[..|attrs|] == Keys(attrs) && Values(attrs)[..|attrs|] == Values(attrs);
  }

  // ---- The transformer and what it talks to

  /** What was said between a job and the publisher. */
  datatype Told = Told(
    asked: seq<bool>,                   // the answers to HasSubscribers
    offered: seq<(Str, seq<byte>)>,     // the subjects and records, as encoded, of the calls of Enqueue
    answers: seq<bool>)                 // the results of these calls

  /** The publisher as one job's transformer sees it: what was accepted from this job, already encoded. */
  class Publisher {
    var accepted: seq<(Str, seq<byte>)>
    ghost var told: Told

    /** Exactly what was offered and answered yes is accepted, in order. */
    ghost predicate Valid()
      reads this
    {
      |told.offered| == |told.answers| && accepted == Chosen(told.offered, told.answers)
    }

    constructor ()
      ensures Valid() && told == Told([], [], [])
    {
      accepted, told := [], Told([], [], []);
    }

    method HasSubscribers() returns (yes: bool)
      requires Valid()
      modifies `told
      ensures Valid() && told == old(told).(asked := old(told.asked) + [yes])
    {
      yes := *;
      told := told.(asked := told.asked + [yes]);
    }

    method Enqueue(subject: Str, m: FlatLogRecord) returns (ok: bool)
      requires Valid() && m.Valid()
      modifies this
      ensures Valid()
      ensures told == old(told).(offered := old(told.offered) + [(subject, EncodeLog(m.Value()))],
                                 answers := old(told.answers) + [ok])
    {
      hide Chosen, EncodeLog;
      var data := m.MarshalMsg([]);
      assert [] + EncodeLog(m.Value()) == EncodeLog(m.Value());
      ok := *;
      ChosenConcat(told.offered, told.answers, [(subject, data)], [ok]);
      ChosenOne((subject, data), ok);
      if ok {
        accepted := accepted + [(subject, data)];
      }
      assert accepted == Chosen(told.offered + [(subject, data)], told.answers + [ok]);
      told := told.(offered := told.offered + [(subject, data)], answers := told.answers + [ok]);
    }
  }

  lemma {:induction false} AppendRowsConcat(c: Cols, a: seq<Row>, b: seq<Row>)
    ensures AppendRows(AppendRows(c, a), b) == AppendRows(c, a + b)
  {
    hide AppendRow;
    if b == [] {
      assert a + b == a;
    } else {
      assert (a + b)[..|a + b| - 1] == a + b[..|b| - 1];
      AppendRowsConcat(c, a, b[..|b| - 1]);
    }
  }

  /** Rows in the order of their appends: what others append before each row of one job, and that row. */
  function Weave(others: seq<seq<Row>>, mine: seq<Row>): seq<Row>
  {
    if mine == [] then []
    else
      var n := |mine| - 1;
      Weave(others, mine[..n]) + (if n < |others| then others[n] else []) + [mine[n]]
  }

  lemma StoredConcat(c: Cols, a: seq<Row>, b: seq<Row>)
    ensures AppendRows(AppendRows(c, StoredAll(a)), StoredAll(b)) == AppendRows(c, StoredAll(a + b))
  {
    hide AppendRows, Stored;
    AppendRowsConcat(c, StoredAll(a), StoredAll(b));
    assert StoredAll(a + b) == StoredAll(a) + StoredAll(b);
  }

  lemma StoredSnoc(c: Cols, rows: seq<Row>, r: Row)
    ensures AppendRows(c, StoredAll(rows + [r])) == AppendRow(AppendRows(c, StoredAll(rows)), Stored(r))
  {
    hide AppendRow, Stored;
    AppendRowsSnoc(c, StoredAll(rows), Stored(r));
    assert StoredAll(rows + [r]) == StoredAll(rows) + [Stored(r)];
  }

  /**
   The shared appender as one job sees it: `others` is what the other jobs append before each append of this one, and
   they may append anything.
   */
  class JobAppender {
    const appender: BatchAppender
    const others: seq<seq<Row>>
    var appends: nat
    ghost const start: Cols
    ghost var mine: seq<Row>

    ghost predicate Valid()
      reads this, appender, appender.batch
    {
      && !appender.flushed && appends == |mine|
      && appender.batch.Contents() == AppendRows(start, StoredAll(Weave(others, mine)))
    }

    constructor (appender: BatchAppender, others: seq<seq<Row>>)
      requires !appender.flushed
      ensures Valid() && this.appender == appender && this.others == others && mine == []
      ensures start == appender.batch.Contents()
    {
      this.appender, this.others, appends := appender, others, 0;
      start, mine := appender.batch.Contents(), [];
    }

    method Append(r: Row)
      requires Valid()
      modifies `appends, `mine, appender.batch
      ensures Valid() && mine == old(mine) + [r]
    {
      hide AppendRow, AppendRows, Stored, StoredAll;
      ghost var woven := Weave(others, mine);
      var before := if appends < |others| then others[appends] else [];
      OthersAppend(before);
      StoredConcat(start, woven, before);
      StoredSnoc(start, woven + before, r);
      appender.Append(r);
      assert (mine + [r])[..|mine|] == mine;
      mine := mine + [r];
      appends := appends + 1;
    }

    method OthersAppend(rows: seq<Row>)
      requires !appender.flushed
      modifies appender.batch
      ensures appender.batch.Contents() == AppendRows(old(appender.batch.Contents()), StoredAll(rows))
    {
      hide AppendRow, Stored;
      ghost var c := appender.batch.Contents();
      assert StoredAll(rows[..0]) == [];
      for i := 0 to |rows|
        invariant appender.batch.Contents() == AppendRows(c, StoredAll(rows[..i]))
      {
        StoredSnoc(c, rows[..i], rows[i]);
        assert rows[..i + 1] == rows[..i] + [rows[i]];
        appender.Append(rows[i]);
      }
      assert rows[..|rows|] == rows;
    }
  }

  class TransformBuffer {
    const flatLogRecord: FlatLogRecord
    var resAttrKeys: Slice
    var resAttrValues: Slice
    var logAttrKeys: Slice
    var logAttrValues: Slice

    ghost function Scratch(): set<array<Str>>
      reads this
    {
      {resAttrKeys.arr, resAttrValues.arr, logAttrKeys.arr, logAttrValues.arr}
    }

    ghost predicate Valid()
      reads this
    {
      && resAttrKeys.Valid() && resAttrValues.Valid() && logAttrKeys.Valid() && logAttrValues.Valid()
      && resAttrKeys.arr != resAttrValues.arr && resAttrKeys.arr != logAttrKeys.arr
      && resAttrKeys.arr != logAttrValues.arr && resAttrValues.arr != logAttrKeys.arr
      && resAttrValues.arr != logAttrValues.arr && logAttrKeys.arr != logAttrValues.arr
    }

    constructor ()
      ensures Valid() && fresh(flatLogRecord) && fresh(Scratch())
    {
      flatLogRecord := new FlatLogRecord();
      var a, b, c, d := new Str[10](_ => []), new Str[10](_ => []), new Str[10](_ => []), new Str[10](_ => []);
      resAttrKeys, resAttrValues, logAttrKeys, logAttrValues := Slice(a, 0), Slice(b, 0), Slice(c, 0), Slice(d, 0);
    }

    /** Truncates the slices and clears the record; the arrays keep their old elements. */
    method Reset()
      requires Valid()
      modifies this, flatLogRecord
      ensures Valid() && resAttrKeys.arr == old(resAttrKeys.arr) && resAttrValues.arr == old(resAttrValues.arr)
      ensures logAttrKeys.arr == old(logAttrKeys.arr) && logAttrValues.arr == old(logAttrValues.arr)
      ensures resAttrKeys.len == resAttrValues.len == logAttrKeys.len == logAttrValues.len == 0
      ensures flatLogRecord.insertedAt == ZERO_TIME
    {
      flatLogRecord.Clear();
      resAttrKeys, resAttrValues := Slice(resAttrKeys.arr, 0), Slice(resAttrValues.arr, 0);
      logAttrKeys, logAttrValues := Slice(logAttrKeys.arr, 0), Slice(logAttrValues.arr, 0);
    }
  }

  /** The log attribute slices are on their old arrays or on new ones. */
  twostate predicate LogArraysKept(buf: TransformBuffer)
    reads buf
  {
    && (buf.logAttrKeys.arr == old(buf.logAttrKeys.arr) || fresh(buf.logAttrKeys.arr))
    && (buf.logAttrValues.arr == old(buf.logAttrValues.arr) || fresh(buf.logAttrValues.arr))
  }

  /** The first phase of a round: the log attribute slices are truncated and refilled. */
  method FillLogAttrs(buf: TransformBuffer, attrs: seq<Attr>)
    requires buf.Valid()
    modifies buf`logAttrKeys, buf`logAttrValues, buf.logAttrKeys.arr, buf.logAttrValues.arr
    ensures buf.Valid() && LogArraysKept(buf)
    ensures buf.logAttrKeys.Elements() == Keys(attrs) && buf.logAttrValues.Elements() == Values(attrs)
  {
    buf.logAttrKeys, buf.logAttrValues := Slice(buf.logAttrKeys.arr, 0), Slice(buf.logAttrValues.arr, 0);
    assert buf.logAttrKeys.Elements() == [] && buf.logAttrValues.Elements() == [];
    assert [] + Keys(attrs) == Keys(attrs) && [] + Values(attrs) == Values(attrs);
    hide Keys, Values;
    buf.logAttrKeys, buf.logAttrValues := AppendAttrs(buf.logAttrKeys, buf.logAttrValues, attrs);
  }

  method FillTexts(z: FlatLogRecord, l: LogRecord, serviceName: Str, scope: ScopeLogs)
    modifies z`severityText, z`severityNumber, z`body, z`bodyType, z`serviceName, z`scopeName, z`scopeVersion
    ensures z.severityText == l.severityText && z.severityNumber == l.severityNumber % 256 && z.body == l.body
    ensures z.bodyType == STRING && z.serviceName == serviceName && z.scopeName == scope.name
            && z.scopeVersion == scope.version
  {
    z.severityText := l.severityText;
    z.severityNumber := l.severityNumber % 256;
    z.body := l.body;
    z.bodyType := STRING;
    z.serviceName := serviceName;
    z.scopeName := scope.name;
    z.scopeVersion := scope.version;
  }

  /** The live-tail record, its lists sharing the arrays of the scratch slices. */
  method FillRecord(buf: TransformBuffer, l: LogRecord, eventTime: nat, observedTime: nat, serviceName: Str,
    scope: ScopeLogs)
    requires buf.Valid() && buf.flatLogRecord.insertedAt == ZERO_TIME
    modifies buf.flatLogRecord
    ensures buf.flatLogRecord.Valid() && buf.flatLogRecord.insertedAt == ZERO_TIME
    ensures buf.flatLogRecord.Value() == FlatOf(RowOfRound(buf, l, eventTime, observedTime, serviceName, scope))
  {
    hide Hex, UnixTime, Wrap64;
    var z := buf.flatLogRecord;
    z.timestamp := FromNanos(eventTime);
    z.observedTimestamp := FromNanos(observedTime);
    z.traceId := IdString(l.traceId);
    z.spanId := IdString(l.spanId);
    FillTexts(z, l, serviceName, scope);
    z.resAttrKeys, z.resAttrValues := buf.resAttrKeys, buf.resAttrValues;
    z.logAttrKeys, z.logAttrValues := buf.logAttrKeys, buf.logAttrValues;
  }

  /** The row given to the appender in a round. */
  ghost function RowOfRound(buf: TransformBuffer, l: LogRecord, eventTime: nat, observedTime: nat, serviceName: Str,
                            scope: ScopeLogs): Row
    requires buf.Valid()
    reads buf, buf.Scratch()
  {
    Row(FromNanos(eventTime), FromNanos(observedTime), l.severityNumber % 256, l.traceId, l.spanId,
        buf.logAttrKeys.Elements(), buf.logAttrValues.Elements(),
        buf.resAttrKeys.Elements(), buf.resAttrValues.Elements(),
        LogFields(scope.name, scope.version, l.severityText, serviceName, l.body, STRING))
  }

  /** The publisher was asked once, and the row was offered exactly if the answer was yes. */
  ghost predicate ToldOf(was: Told, told: Told, row: Row)
  {
    && |told.asked| == |was.asked| + 1 && was.asked <= told.asked && was.answers <= told.answers
    && told.offered == was.offered + if told.asked[|was.asked|] then [Publication(row)] else []
  }

  /** The record is filled and offered exactly if there are subscribers. */
  method PublishRound(buf: TransformBuffer, publisher: Publisher, l: LogRecord, eventTime: nat, observedTime: nat,
                      serviceName: Str, scope: ScopeLogs)
    requires buf.Valid() && buf.flatLogRecord.insertedAt == ZERO_TIME && publisher.Valid()
    modifies buf.flatLogRecord, publisher
    ensures buf.flatLogRecord.insertedAt == ZERO_TIME && publisher.Valid()
    ensures ToldOf(old(publisher.told), publisher.told, RowOfRound(buf, l, eventTime, observedTime, serviceName, scope))
  {
    hide EncodeLog, FlatOf, FromNanos, Publisher.Valid;
    var yes := publisher.HasSubscribers();
    if yes {
      FillRecord(buf, l, eventTime, observedTime, serviceName, scope);
      var _ := publisher.Enqueue(SUBJECT_PREFIX + serviceName, buf.flatLogRecord);
    }
  }

  /** One round of the inner loop: refill the log attribute slices, publish, append. */
  method FlattenRecord(buf: TransformBuffer, publisher: Publisher, appender: JobAppender,
                       ghost resAttrs: seq<Attr>, serviceName: Str, scope: ScopeLogs, l: LogRecord, now: nat)
    requires buf.Valid() && buf.flatLogRecord.insertedAt == ZERO_TIME && appender.Valid() && publisher.Valid()
    requires serviceName == ServiceNameOf(resAttrs)
    requires buf.resAttrKeys.Elements() == Keys(resAttrs) && buf.resAttrValues.Elements() == Values(resAttrs)
    modifies buf`logAttrKeys, buf`logAttrValues, buf.flatLogRecord, buf.logAttrKeys.arr, buf.logAttrValues.arr,
      publisher, appender, appender.appender.batch
    ensures buf.Valid() && buf.flatLogRecord.insertedAt == ZERO_TIME && LogArraysKept(buf)
    ensures appender.Valid() && publisher.Valid()
    ensures buf.resAttrKeys.Elements() == Keys(resAttrs) && buf.resAttrValues.Elements() == Values(resAttrs)
    ensures var row := RowFor(resAttrs, scope, now)(l)[0];
            && appender.mine == old(appender.mine) + [row] && Describes(row, resAttrs, scope, l, now)
            && ToldOf(old(publisher.told), publisher.told, row)
  {
    hide JobAppender.Valid, Publisher.Valid, ToldOf, Publication, ServiceNameOf, FromNanos, Describes;
    RowDescribes(resAttrs, scope, now, l);
    FillLogAttrs(buf, l.attrs);
    var observedTime, eventTime := OrNow(l.observedTimestamp, now), OrNow(l.timestamp, now);
    ghost var row := RowFor(resAttrs, scope, now)(l)[0];
    assert RowOfRound(buf, l, eventTime, observedTime, serviceName, scope) == row;
    PublishRound(buf, publisher, l, eventTime, observedTime, serviceName, scope);
    AppendRound(buf, appender, l, eventTime, observedTime, serviceName, scope);
  }

  method AppendRound(buf: TransformBuffer, appender: JobAppender, l: LogRecord, eventTime: nat, observedTime: nat,
                     serviceName: Str, scope: ScopeLogs)
    requires buf.Valid() && appender.Valid()
    modifies appender, appender.appender.batch
    ensures appender.Valid()
    ensures appender.mine == old(appender.mine) + [RowOfRound(buf, l, eventTime, observedTime, serviceName, scope)]
  {
    hide JobAppender.Valid, FromNanos;
    appender.Append(Row(
      FromNanos(eventTime), FromNanos(observedTime), l.severityNumber % 256, l.traceId, l.spanId,
      buf.logAttrKeys.arr[..buf.logAttrKeys.len], buf.logAttrValues.arr[..buf.logAttrValues.len],
      buf.resAttrKeys.arr[..buf.resAttrKeys.len], buf.resAttrValues.arr[..buf.resAttrValues.len],
      LogFields(scope.name, scope.version, l.severityText, serviceName, l.body, STRING)));
  }

  // ---- Whole resource logs

  /** What a stretch of rows leaves behind: all of them appended, and those asked about with answer yes offered. */
  ghost predicate Emitted(before: seq<Row>, after: seq<Row>, was: Told, told: Told, rows: seq<Row>)
  {
    && after == before + rows
    && was.asked <= told.asked && |told.asked| == |was.asked| + |rows| && was.answers <= told.answers
    && told.offered == was.offered + Chosen(Publications(rows), told.asked[|was.asked|..])
  }

  lemma EmittedNothing(before: seq<Row>, was: Told)
    ensures Emitted(before, before, was, was, [])
  {
  }

  lemma EmittedConcat(r0: seq<Row>, r1: seq<Row>, r2: seq<Row>, p0: Told, p1: Told, p2: Told, a: seq<Row>, b: seq<Row>)
    requires Emitted(r0, r1, p0, p1, a) && Emitted(r1, r2, p1, p2, b)
    ensures Emitted(r0, r2, p0, p2, a + b)
  {
    hide Chosen, Publication;
    assert r0 + a + b == r0 + (a + b);
    assert Publications(a + b) == Publications(a) + Publications(b);
    assert p2.asked[|p0.asked|..] == p1.asked[|p0.asked|..] + p2.asked[|p1.asked|..];
    ChosenConcat(Publications(a), p1.asked[|p0.asked|..], Publications(b), p2.asked[|p1.asked|..]);
  }

  lemma OnePublication(row: Row)
    ensures Publications([row]) == [Publication(row)]
  {
    hide Publication;
  }

  lemma EmittedOne(before: seq<Row>, was: Told, told: Told, row: Row)
    requires ToldOf(was, told, row)
    ensures Emitted(before, before + [row], was, told, [row])
  {
    hide Publication, Chosen;
    OnePublication(row);
    assert told.asked[|was.asked|..] == [told.asked[|was.asked|]];
    ChosenOne(Publication(row), told.asked[|was.asked|]);
  }

  /**
   The publisher was asked once for each row, and exactly the rows answered yes were offered, in order and once each,
   under their service's subject.
   */
  ghost predicate Announced(was: Told, told: Told, rows: seq<Row>)
  {
    && was.asked <= told.asked && |told.asked| == |was.asked| + |rows| && was.answers <= told.answers
    && var yes := told.asked[|was.asked|..];
    && was.offered <= told.offered && |told.offered| == |was.offered| + Count(YES, yes)
    && forall i :: 0 <= i < |rows| && yes[i] ==>
         var k := |was.offered| + Count(YES, yes[..i]); k < |told.offered| && Announces(told.offered[k], rows[i])
  }

  lemma EmittedAnnounces(before: seq<Row>, after: seq<Row>, was: Told, told: Told, rows: seq<Row>)
    requires Emitted(before, after, was, told, rows)
    ensures Announced(was, told, rows)
  {
    hide Chosen, Publication, Announces, Count;
    var yes := told.asked[|was.asked|..];
    ChosenAt(Publications(rows), yes);
    forall i | 0 <= i < |rows| && yes[i]
      ensures var k := |was.offered| + Count(YES, yes[..i]); k < |told.offered| && Announces(told.offered[k], rows[i])
    {
      PublicationAnnounces(rows[i]);
    }
  }

  lemma RowsAppended(before: seq<Row>, after: seq<Row>, was: Told, told: Told, rl: ResourceLogs, now: nat)
    requires Emitted(before, after, was, told, RowsFor(rl, now))
    ensures before <= after && RecordsInOrder(after[|before|..], rl.attrs, rl.scopes, now)
    ensures Announced(was, told, after[|before|..])
  {
    hide RecordsInOrder, Announced, RowsFor;
    RowsInOrder(rl, now);
    EmittedAnnounces(before, after, was, told, RowsFor(rl, now));
    assert after[|before|..] == RowsFor(rl, now);
  }

  class LogTransformer {
    var bufPool: set<TransformBuffer>
    /** The pooled buffers, their records and the arrays of their scratch slices. */
    ghost var Repr: set<object>

    ghost predicate Valid()
      reads this, bufPool
    {
      forall b :: b in bufPool ==> b.Valid() && b in Repr && b.flatLogRecord in Repr && b.Scratch() <= Repr
    }

    constructor ()
      ensures Valid() && bufPool == {} && Repr == {}
    {
      bufPool, Repr := {}, {};
    }

    /**
     Every record gives one row, in scope and record order, with its own attributes, whatever the recycled buffer held,
     whatever other jobs append meanwhile and whatever the publisher says. The publisher is asked for each row, and the
     rows for which it has subscribers are offered to it, in order.
     */
    method Flatten(resourceLogs: ResourceLogs, publisher: Publisher, appender: JobAppender, nowNano: nat)
      requires Valid() && appender.Valid() && publisher.Valid()
      modifies this, Repr, publisher, appender, appender.appender.batch
      ensures Valid() && fresh(Repr - old(Repr)) && appender.Valid() && publisher.Valid()
      ensures Emitted(old(appender.mine), appender.mine, old(publisher.told), publisher.told,
                      RowsFor(resourceLogs, nowNano))
      ensures old(appender.mine) <= appender.mine
      ensures RecordsInOrder(appender.mine[|old(appender.mine)|..], resourceLogs.attrs, resourceLogs.scopes, nowNano)
      ensures Announced(old(publisher.told), publisher.told, appender.mine[|old(appender.mine)|..])
    {
      hide Emitted, RowsFor, RecordsInOrder, Announced, JobAppender.Valid, Publisher.Valid;
      ghost var r0, p0 := appender.mine, publisher.told;
      FlattenPooled(resourceLogs, publisher, appender, nowNano);
      RowsAppended(r0, appender.mine, p0, publisher.told, resourceLogs, nowNano);
    }

    /** Flattening with a buffer from the pool, which goes back afterwards. */
    method FlattenPooled(resourceLogs: ResourceLogs, publisher: Publisher, appender: JobAppender, nowNano: nat)
      requires Valid() && appender.Valid() && publisher.Valid()
      modifies this, Repr, publisher, appender, appender.appender.batch
      ensures Valid() && fresh(Repr - old(Repr)) && appender.Valid() && publisher.Valid()
      ensures Emitted(old(appender.mine), appender.mine, old(publisher.told), publisher.told,
                      RowsFor(resourceLogs, nowNano))
    {
      hide Emitted, RowsFor, JobAppender.Valid, Publisher.Valid, TransformBuffer.Valid, TransformBuffer.Scratch;
      var buf := TakeBuffer();
      FlattenWith(buf, resourceLogs, publisher, appender, nowNano);
      Recycle(buf);
    }

    /** Gives a buffer back, unless it has grown too large. */
    method Recycle(buf: TransformBuffer)
      requires Valid() && buf.Valid()
      modifies `bufPool, `Repr
      ensures Valid() && Repr == old(Repr) + {buf, buf.flatLogRecord} + buf.Scratch()
      ensures bufPool ==
              if buf.logAttrKeys.arr.Length > 200 || buf.resAttrKeys.arr.Length > 200 then old(bufPool)
              else old(bufPool) + {buf}
    {
      Repr := Repr + {buf, buf.flatLogRecord} + buf.Scratch();
      if buf.logAttrKeys.arr.Length <= 200 && buf.resAttrKeys.arr.Length <= 200 {
        bufPool := bufPool + {buf};
      }
    }

    /** Any pooled buffer, dirty as it is, or a new one; either way no longer pooled. */
    method TakeBuffer() returns (buf: TransformBuffer)
      requires Valid()
      modifies `bufPool
      ensures Valid() && buf.Valid() && buf !in bufPool
      ensures (buf in Repr && buf.flatLogRecord in Repr && buf.Scratch() <= Repr) ||
              (fresh(buf) && fresh(buf.flatLogRecord) && fresh(buf.Scratch()))
    {
      var reuse := *;
      if bufPool != {} && reuse {
        buf :| buf in bufPool;
        bufPool := bufPool - {buf};
      } else {
        buf := new TransformBuffer();
      }
    }
  }

  /** Flattening with a given buffer, in any state. */
  method FlattenWith(buf: TransformBuffer, resourceLogs: ResourceLogs, publisher: Publisher, appender: JobAppender,
    now: nat)
    requires buf.Valid() && appender.Valid() && publisher.Valid()
    modifies buf, buf.flatLogRecord, buf.Scratch(), publisher, appender, appender.appender.batch
    ensures buf.Valid() && fresh(buf.Scratch() - old(buf.Scratch())) && appender.Valid() && publisher.Valid()
    ensures Emitted(old(appender.mine), appender.mine, old(publisher.told), publisher.told,
                    RowsFor(resourceLogs, now))
  {
    hide Emitted, ServiceNameOf, RowFor, JobAppender.Valid, Publisher.Valid;
    buf.Reset();
    var serviceName := ReadResource(buf, resourceLogs.attrs);
    FlattenScopes(buf, resourceLogs.attrs, resourceLogs.scopes, serviceName, publisher, appender, now);
  }

  /** The loop over the scopes. */
  method FlattenScopes(buf: TransformBuffer, ghost resAttrs: seq<Attr>, scopes: seq<ScopeLogs>, serviceName: Str,
    publisher: Publisher, appender: JobAppender, now: nat)
    requires buf.Valid() && buf.flatLogRecord.insertedAt == ZERO_TIME && appender.Valid() && publisher.Valid()
    requires serviceName == ServiceNameOf(resAttrs)
    requires buf.resAttrKeys.Elements() == Keys(resAttrs) && buf.resAttrValues.Elements() == Values(resAttrs)
    modifies buf`logAttrKeys, buf`logAttrValues, buf.flatLogRecord, buf.logAttrKeys.arr, buf.logAttrValues.arr,
      publisher, appender, appender.appender.batch
    ensures buf.Valid() && LogArraysKept(buf) && appender.Valid() && publisher.Valid()
    ensures Emitted(old(appender.mine), appender.mine, old(publisher.told), publisher.told,
                    FlatMap(ScopeRows(resAttrs, now), scopes))
  {
    hide Emitted, ServiceNameOf, RowFor, JobAppender.Valid, Publisher.Valid, FlatMap;
    ghost var r0, p0 := appender.mine, publisher.told;
    ghost var f := ScopeRows(resAttrs, now);
    EmittedNothing(r0, p0);
    FlatMapNone(f);
    for i := 0 to |scopes|
      invariant buf.Valid() && buf.flatLogRecord.insertedAt == ZERO_TIME && LogArraysKept(buf)
      invariant appender.Valid() && publisher.Valid()
      invariant buf.resAttrKeys.Elements() == Keys(resAttrs) && buf.resAttrValues.Elements() == Values(resAttrs)
      invariant Emitted(r0, appender.mine, p0, publisher.told, FlatMap(f, scopes[..i]))
    {
      ghost var r1, p1 := appender.mine, publisher.told;
      FlattenScope(buf, publisher, appender, resAttrs, serviceName, scopes[i], now);
      EmittedConcat(r0, r1, appender.mine, p0, p1, publisher.told, FlatMap(f, scopes[..i]), f(scopes[i]));
      FlatMapSnoc(f, scopes[..i], scopes[i]);
      assert scopes[..i + 1] == scopes[..i] + [scopes[i]];
    }
    assert scopes[..|scopes|] == scopes;
  }

  lemma ServiceNameStep(attrs: seq<Attr>, i: nat)
    requires i < |attrs|
    ensures ServiceNameOf(attrs[..i + 1]) ==
            if NamesService(attrs[i]) then attrs[i].value else ServiceNameOf(attrs[..i])
  {
    hide NamesService;
    var part := attrs[..i + 1];
    assert part[..i] == attrs[..i] && part[|part| - 1] == attrs[i];
  }

  method FindServiceName(attrs: seq<Attr>) returns (serviceName: Str)
    ensures serviceName == ServiceNameOf(attrs) && IsServiceName(serviceName, attrs)
  {
    hide NamesService, IsServiceName;
    ServiceNameIs(attrs);
    serviceName := UNKNOWN;
    for i := 0 to |attrs|
      invariant serviceName == ServiceNameOf(attrs[..i])
    {
      ServiceNameStep(attrs, i);
      if NamesService(attrs[i]) {
        serviceName := attrs[i].value;
      }
    }
    assert attrs[..|attrs|] == attrs;
  }

  /** Fills the resource attribute slices and finds the service name on the way. */
  method ReadResource(buf: TransformBuffer, attrs: seq<Attr>) returns (serviceName: Str)
    requires buf.Valid() && buf.resAttrKeys.len == buf.resAttrValues.len == 0
    modifies buf`resAttrKeys, buf`resAttrValues, buf.resAttrKeys.arr, buf.resAttrValues.arr
    ensures buf.Valid() && serviceName == ServiceNameOf(attrs) && fresh(buf.Scratch() - old(buf.Scratch()))
    ensures buf.resAttrKeys.Elements() == Keys(attrs) && buf.resAttrValues.Elements() == Values(attrs)
  {
    hide ServiceNameOf, IsServiceName, Keys, Values;
    serviceName := FindServiceName(attrs);
    assert [] + Keys(attrs) == Keys(attrs) && [] + Values(attrs) == Values(attrs);
    assert buf.resAttrKeys.Elements() == [] && buf.resAttrValues.Elements() == [];
    buf.resAttrKeys, buf.resAttrValues := AppendAttrs(buf.resAttrKeys, buf.resAttrValues, attrs);
  }

  /** The inner loop over the records of a scope. */
  method FlattenScope(buf: TransformBuffer, publisher: Publisher, appender: JobAppender,
                      ghost resAttrs: seq<Attr>, serviceName: Str, scope: ScopeLogs, now: nat)
    requires buf.Valid() && buf.flatLogRecord.insertedAt == ZERO_TIME && appender.Valid() && publisher.Valid()
    requires serviceName == ServiceNameOf(resAttrs)
    requires buf.resAttrKeys.Elements() == Keys(resAttrs) && buf.resAttrValues.Elements() == Values(resAttrs)
    modifies buf`logAttrKeys, buf`logAttrValues, buf.flatLogRecord, buf.logAttrKeys.arr, buf.logAttrValues.arr,
      publisher, appender, appender.appender.batch
    ensures buf.Valid() && buf.flatLogRecord.insertedAt == ZERO_TIME && LogArraysKept(buf)
    ensures appender.Valid() && publisher.Valid()
    ensures buf.resAttrKeys.Elements() == Keys(resAttrs) && buf.resAttrValues.Elements() == Values(resAttrs)
    ensures Emitted(old(appender.mine), appender.mine, old(publisher.told), publisher.told,
                    ScopeRows(resAttrs, now)(scope))
  {
    hide Emitted, ServiceNameOf, JobAppender.Valid, Publisher.Valid, ToldOf, Publication, FromNanos;
    ghost var r0, p0 := appender.mine, publisher.told;
    var ls := scope.records;
    ghost var rows: seq<Row> := [];
    ghost var f := RowFor(resAttrs, scope, now);
    EmittedNothing(r0, p0);
    FlatMapNone(f);
    for j := 0 to |ls|
      invariant buf.Valid() && buf.flatLogRecord.insertedAt == ZERO_TIME && appender.Valid() && publisher.Valid()
      invariant LogArraysKept(buf)
      invariant buf.resAttrKeys.Elements() == Keys(resAttrs) && buf.resAttrValues.Elements() == Values(resAttrs)
      invariant rows == FlatMap(f, ls[..j])
      invariant Emitted(r0, appender.mine, p0, publisher.told, rows)
    {
      ghost var r1, p1 := appender.mine, publisher.told;
      FlattenRecord(buf, publisher, appender, resAttrs, serviceName, scope, ls[j], now);
      ghost var row := f(ls[j])[0];
      EmittedOne(r1, p1, publisher.told, row);
      EmittedConcat(r0, r1, appender.mine, p0, p1, publisher.told, rows, [row]);
      rows := rows + [row];
      FlatMapSnoc(f, ls[..j], ls[j]);
      assert ls[..j + 1] == ls[..j] + [ls[j]];
    }
    assert ls[..|ls|] == ls;
  }
}
