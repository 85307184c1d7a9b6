/**
 Exactly when an acknowledged delivery is lost, that is, neither fully stored nor published to the dead-letter stream:
 its dead-letter call failed, its payload does not decode, or it has rows and the job that held it panicked before
 appending all of them. Each cause is shown by a run.
 */
module Losses {
  import opened Options
  import opened Seqs
  import opened LogData
  import opened Columns
  import opened Flatten
  import opened Process
  import opened Handler
  import opened Pipeline
  import C = Consumer
  import D = Delivery
  import R = Redelivery
  import W = WorkerPool

  // ---- What becomes of a message in a call of the handler

  /** The payload decompresses and decodes. */
  predicate Decodes(c: Codecs, m: D.Message)
  {
    var bytes := Decompressed(c, m);
    bytes.Some? && c.decode(bytes.value, m.headers).Some?
  }

  /** The job that gets message `q` of a batch. */
  function JobFor(workers: nat, n: nat, q: nat): (j: nat)
    requires workers > 0 && q < n
    ensures j < |W.Intervals(n, workers)|
  {
    W.JobOf(W.Intervals(n, workers), q)
  }

  function StartFor(workers: nat, n: nat, q: nat): (start: nat)
    requires workers > 0 && q < n
    ensures start <= q
  {
    W.IntervalsTile(n, workers);
    W.JobHolds(W.Intervals(n, workers), n, q);
    W.TilesBounded(W.Intervals(n, workers), n);
    W.Intervals(n, workers)[JobFor(workers, n, q)].start
  }

  /** What its job appends from its start up to message `q`, the rows of `q` included. */
  function RowsThrough(c: Codecs, workers: nat, messages: seq<Timed>, q: nat): seq<Row>
    requires workers > 0 && q < |messages|
  {
    FlatMap(RowsOfMessage(c), messages[StartFor(workers, |messages|, q)..q + 1])
  }

  /** Message `q` has a row. */
  predicate HasRows(c: Codecs, call: Call, q: nat)
    requires q < |call.messages|
  {
    RowsOfMessage(c)(call.messages[q]) != []
  }

  /** What the call flushed contains what the job of message `q` appends up to and including the rows of `q`. */
  ghost predicate RowsFlushed(c: Codecs, workers: nat, call: Call, q: nat)
    requires workers > 0 && q < |call.messages|
  {
    && |call.end.rows| == |call.end.owner|
    && RowsThrough(c, workers, call.messages, q) <=
       W.By(call.end.rows, call.end.owner, JobFor(workers, |call.messages|, q))
  }

  /** The message decodes, and its rows, if it has any, were flushed. */
  ghost predicate FullyStored(c: Codecs, workers: nat, call: Call, q: nat)
    requires workers > 0 && q < |call.messages|
  {
    Decodes(c, call.messages[q].msg) && (HasRows(c, call, q) ==> RowsFlushed(c, workers, call, q))
  }

  /** The message has rows, and the job panicked before it had appended all of them. */
  ghost predicate PanickedOn(c: Codecs, workers: nat, call: Call, q: nat)
    requires workers > 0 && q < |call.messages|
  {
    HasRows(c, call, q) &&
    W.PanicsBefore(call.xs, JobFor(workers, |call.messages|, q), |RowsThrough(c, workers, call.messages, q)|)
  }

  /** The rows up to message `q` are the first rows of its job. */
  lemma RowsThroughIsPrefix(c: Codecs, workers: nat, messages: seq<Timed>, q: nat)
    requires workers > 0 && q < |messages|
    ensures var j := JobFor(workers, |messages|, q);
            && j < |JobRows(c, workers, messages)|
            && RowsThrough(c, workers, messages, q) <= JobRows(c, workers, messages)[j]
  {
    hide FlatMap, RowsOfMessage, W.Intervals, W.Tiles, W.JobOf;
    var n := |messages|;
    var ivs := W.Intervals(n, workers);
    W.IntervalsTile(n, workers);
    W.TilesBounded(ivs, n);
    W.JobHolds(ivs, n, q);
    var iv := ivs[JobFor(workers, n, q)];
    assert iv in ivs;
    assert messages[iv.start..iv.end] == messages[iv.start..q + 1] + messages[q + 1..iv.end];
    FlatMapConcat(RowsOfMessage(c), messages[iv.start..q + 1], messages[q + 1..iv.end]);
  }

  lemma RowsOfLast(c: Codecs, workers: nat, messages: seq<Timed>, q: nat)
    requires workers > 0 && q < |messages|
    ensures var start := StartFor(workers, |messages|, q);
            RowsThrough(c, workers, messages, q) ==
            FlatMap(RowsOfMessage(c), messages[start..q]) + RowsOfMessage(c)(messages[q])
  {
    hide FlatMap, RowsOfMessage, W.Intervals, W.JobOf;
    var start := StartFor(workers, |messages|, q);
    assert messages[start..q + 1] == messages[start..q] + [messages[q]];
    FlatMapSnoc(RowsOfMessage(c), messages[start..q], messages[q]);
  }

  /**
   A message is fully stored exactly if it decodes and, should it have rows, its job did not panic before it had
   appended all of them.
   */
  lemma FullyStoredExactlyWhen(c: Codecs, workers: nat, call: Call, h: D.Flushed, q: nat)
    requires workers > 0 && CallOf(c, workers, call, h) && q < |call.messages|
    ensures FullyStored(c, workers, call, q) <==> Decodes(c, call.messages[q].msg) && !PanickedOn(c, workers, call, q)
  {
    hide Decodes, HasRows, JobRows, W.Reaches, W.By, W.PanicsBefore, RowsThrough, JobFor;
    var j, rows := JobFor(workers, |call.messages|, q), RowsThrough(c, workers, call.messages, q);
    var parts := JobRows(c, workers, call.messages);
    RowsThroughIsPrefix(c, workers, call.messages, q);
    W.ShortExactlyWhen(workers, parts, call.xs, call.end, j, |rows|);
    if !W.PanicsBefore(call.xs, j, |rows|) {
      W.PanicIsContained(workers, parts, call.xs, call.end, j, |rows|);
      assert parts[j][..|rows|] == rows;
    }
  }

  /** The rows of a fully stored message are among those its call flushed, each as often as the message has it. */
  lemma FullyStoredRows(c: Codecs, workers: nat, call: Call, h: D.Flushed, q: nat)
    requires workers > 0 && CallOf(c, workers, call, h) && q < |call.messages| && FullyStored(c, workers, call, q)
    ensures multiset(RowsOfMessage(c)(call.messages[q])) <= multiset(call.end.rows)
  {
    hide Decodes, RowsThrough, JobFor, W.By, RowsOfMessage, FlatMap, Schedule, StartFor;
    if HasRows(c, call, q) {
      var j, rows := JobFor(workers, |call.messages|, q), RowsThrough(c, workers, call.messages, q);
      RowsOfLast(c, workers, call.messages, q);
      W.ByWithin(call.end.rows, call.end.owner, j);
      var all := W.By(call.end.rows, call.end.owner, j);
      assert all == rows + all[|rows|..];
    }
  }

  // ---- The database

  /** The row can be read from one of the inserted column sets. */
  ghost predicate InDatabase(db: seq<Cols>, r: Row)
  {
    exists cols, n, k :: cols in db && Rectangular(cols, n) && k < n && ReadRow(cols, n, k) == r
  }

  lemma StoredIsReadable(rows: seq<Row>, db: seq<Cols>, r: Row)
    requires ColumnsOf(StoredAll(rows)) in db && r in rows
    ensures InDatabase(db, Stored(r))
  {
    hide ReadRow, ColumnsOf, Stored;
    var k :| 0 <= k < |rows| && rows[k] == r;
    ReadBack(StoredAll(rows));
    assert ReadRow(ColumnsOf(StoredAll(rows)), |rows|, k) == Stored(r);
  }

  lemma InsertedIsThere(calls: seq<Call>, p: nat)
    requires p < |calls| && calls[p].ok
    ensures ColumnsOf(StoredAll(calls[p].end.rows)) in Database(calls)
  {
    hide FlatMap, ColumnsOf, StoredAll;
    InFlatMap(INSERTED, calls, ColumnsOf(StoredAll(calls[p].end.rows)));
    assert calls[p] in calls && ColumnsOf(StoredAll(calls[p].end.rows)) in INSERTED(calls[p]);
  }

  /**
   Every row of a delivery on whose batch the handler returned nil can be read from the database, unless the job that
   held it panicked before it had appended all of them.
   */
  lemma AckedRowsAreStored(c: Codecs, workers: nat, handled: seq<D.Flushed>, calls: seq<Call>, p: nat, q: nat, r: Row)
    requires workers > 0 && Explains(c, workers, handled, calls) && p < |calls| && q < |calls[p].messages|
    requires handled[p].ok && !PanickedOn(c, workers, calls[p], q)
    requires r in RowsOfMessage(c)(calls[p].messages[q])
    ensures InDatabase(Database(calls), Stored(r))
  {
    hide InDatabase, Database, PanickedOn, FullyStored, Decodes, Stored, ColumnsOf, StoredAll;
    var call := calls[p];
    assert CallOf(c, workers, call, handled[p]);
    hide Schedule;
    assert Decodes(c, call.messages[q].msg) by { OnlyDecodedHasRows(c, call.messages[q], r); }
    FullyStoredExactlyWhen(c, workers, call, handled[p], q);
    FullyStoredRows(c, workers, call, handled[p], q);
    assert r in multiset(call.end.rows);
    InsertedIsThere(calls, p);
    StoredIsReadable(call.end.rows, Database(calls), r);
  }

  lemma OnlyDecodedHasRows(c: Codecs, m: Timed, r: Row)
    requires r in RowsOfMessage(c)(m)
    ensures Decodes(c, m.msg)
  {
    hide RowsFor;
  }

  // ---- Where a delivery is

  lemma HandledSplit(hs: seq<D.Flushed>, p: nat)
    requires p < |hs|
    ensures D.Handled(hs) == D.Handled(hs[..p]) + D.HANDLED_IN(hs[p]) + D.Handled(hs[p + 1..])
  {
    hide FlatMap;
    assert hs == hs[..p] + [hs[p]] + hs[p + 1..];
    FlatMapConcat(D.HANDLED_IN, hs[..p] + [hs[p]], hs[p + 1..]);
    FlatMapSnoc(D.HANDLED_IN, hs[..p], hs[p]);
  }

  lemma ItemIsHandled(hs: seq<D.Flushed>, h: D.Flushed, x: D.Item)
    requires h in hs && x in h.items
    ensures x.d in D.HANDLED_IN(h) && x.d in D.Handled(hs)
  {
    hide FlatMap;
    InFlatMap(D.DELIVERY_OF, h.items, x.d);
    assert x.d in D.DELIVERY_OF(x);
    InFlatMap(D.HANDLED_IN, hs, x.d);
  }

  /** No delivery is in two flushes, or twice in one. */
  lemma OnePlace(cfg: D.Config, xs: seq<D.Input>, s: D.State, h: D.Flushed, x: D.Item, g: D.Flushed, y: D.Item)
    requires D.Reaches(cfg, xs, s) && h in s.handled && x in h.items && g in s.handled && y in g.items && x.d == y.d
    ensures h == g && x == y
  {
    hide D.Handled, D.HANDLED_IN, D.Deliveries, D.Reaches;
    D.SettledExactlyOnce(cfg, xs, s);
    assert HandledOnce(s.handled) by {
      assert s.accepted == D.Handled(s.handled) + (s.batch + s.ch);
      PartOnce(D.Handled(s.handled), s.batch + s.ch);
    }
    var p :| 0 <= p < |s.handled| && s.handled[p] == h;
    var o :| 0 <= o < |s.handled| && s.handled[o] == g;
    if p < o {
      TwoPlaces(s.handled, p, o, x, y);
    } else if o < p {
      TwoPlaces(s.handled, o, p, y, x);
    } else if x != y {
      TwoItems(s.handled, p, x, y);
    }
  }

  ghost predicate HandledOnce(hs: seq<D.Flushed>)
  {
    forall d :: multiset(D.Handled(hs))[d] <= 1
  }

  lemma PartOnce(a: seq<D.Delivery>, b: seq<D.Delivery>)
    requires forall d :: multiset(a + b)[d] <= 1
    ensures forall d :: multiset(a)[d] <= 1
  {
    forall d ensures multiset(a)[d] <= 1 {
      assert multiset(a + b)[d] == multiset(a)[d] + multiset(b)[d];
    }
  }

  lemma TwoPlaces(hs: seq<D.Flushed>, p: nat, o: nat, x: D.Item, y: D.Item)
    requires p < o < |hs| && x in hs[p].items && y in hs[o].items && HandledOnce(hs)
    ensures x.d != y.d
  {
    hide D.Handled, D.HANDLED_IN;
    HandledSplit(hs, p);
    assert hs[o] == hs[p + 1..][o - p - 1];
    ItemIsHandled(hs, hs[p], x);
    ItemIsHandled(hs[p + 1..], hs[o], y);
    var a, b, c := D.Handled(hs[..p]), D.HANDLED_IN(hs[p]), D.Handled(hs[p + 1..]);
    assert multiset(a + b + c) == multiset(a) + multiset(b) + multiset(c);
    assert multiset(D.Handled(hs))[x.d] <= 1;
  }

  lemma TwoItems(hs: seq<D.Flushed>, p: nat, x: D.Item, y: D.Item)
    requires p < |hs| && x in hs[p].items && y in hs[p].items && x != y && HandledOnce(hs)
    ensures x.d != y.d
  {
    hide D.Handled;
    HandledSplit(hs, p);
    var a, b, c := D.Handled(hs[..p]), D.HANDLED_IN(hs[p]), D.Handled(hs[p + 1..]);
    assert multiset(a + b + c) == multiset(a) + multiset(b) + multiset(c);
    var items := hs[p].items;
    var i :| 0 <= i < |items| && items[i] == x;
    var k :| 0 <= k < |items| && items[k] == y;
    C.DeliveriesAt(items);
    assert multiset(D.Handled(hs))[x.d] <= 1;
    if x.d == y.d {
      D.TwicePresent(b, i, k);
    }
  }

  /** A call on a delivery in the log was made when its batch was flushed. */
  lemma CallComesFrom(cfg: D.Config, hs: seq<D.Flushed>, e: D.Event) returns (h: D.Flushed, x: D.Item)
    requires e in D.LogOf(cfg, hs) && !e.Handle?
    ensures h in hs && x in h.items && x.d == e.d && e in D.SettleOne(cfg, h.ok)(x)
  {
    hide FlatMap, D.SettleOne;
    InFlatMap(D.FlushCalls(cfg), hs, e);
    h :| h in hs && e in D.FlushCalls(cfg)(h);
    InFlatMap(D.SettleOne(cfg, h.ok), h.items, e);
    x :| x in h.items && e in D.SettleOne(cfg, h.ok)(x);
    D.SettleOneSettles(cfg, h.ok, x);
  }

  // ---- The theorem

  /** The delivery's own data and headers were published to the dead-letter stream. */
  predicate DeadLetterPublished(log: seq<D.Event>, d: D.Delivery)
  {
    D.Dlq(d, d.msg.payload, d.msg.headers, true) in log
  }

  /** Neither stored in full nor dead-lettered. */
  ghost predicate Lost(c: Codecs, workers: nat, s: D.State, calls: seq<Call>, p: nat, q: nat)
    requires workers > 0 && Explains(c, workers, s.handled, calls) && p < |calls| && q < |calls[p].messages|
    requires q < |s.handled[p].items|
  {
    && !DeadLetterPublished(s.log, s.handled[p].items[q].d)
    && !(calls[p].ok && FullyStored(c, workers, calls[p], q))
  }

  lemma SameLength(c: Codecs, workers: nat, handled: seq<D.Flushed>, calls: seq<Call>, p: nat, q: nat)
    requires workers > 0 && Explains(c, workers, handled, calls) && p < |calls| && q < |handled[p].items|
    ensures q < |calls[p].messages| && calls[p].messages[q].msg == handled[p].items[q].d.msg
            && calls[p].ok == handled[p].ok
    ensures CallOf(c, workers, calls[p], handled[p])
  {
    hide Schedule;
    assert CallOf(c, workers, calls[p], handled[p]);
    C.DeliveriesAt(handled[p].items);
  }

  /** What an acknowledgement in the log says about the flush it was made in. */
  lemma AckedItem(cfg: D.Config, xs: seq<D.Input>, s: D.State, h: D.Flushed, x: D.Item)
    requires D.Reaches(cfg, xs, s) && h in s.handled && x in h.items && D.Ack(x.d) in s.log
    ensures h.ok ==> !DeadLetterPublished(s.log, x.d)
    ensures !h.ok ==> (DeadLetterPublished(s.log, x.d) <==> x.dlqOk)
  {
    hide D.Reaches, FlatMap, D.FlushCalls, D.Delay, D.Config.Threshold;
    D.RunKeeps(cfg, xs, s);
    var dlq := D.Dlq(x.d, x.d.msg.payload, x.d.msg.headers, true);
    var g, y := CallComesFrom(cfg, s.handled, D.Ack(x.d));
    OnePlace(cfg, xs, s, h, x, g, y);
    if dlq in s.log {
      var g', y' := CallComesFrom(cfg, s.handled, dlq);
      OnePlace(cfg, xs, s, h, x, g', y');
    }
    if !h.ok && x.dlqOk {
      D.CallIsLogged(cfg, s.handled, h, x, dlq);
    }
  }

  /**
   In every run of broker, consumer and pool, an acknowledged delivery is neither fully stored nor dead-lettered if and
   only if the handler failed on it and its dead-letter call failed too, or the handler returned nil and its payload
   does not decode, or it has rows and its job panicked before it had appended all of them.
   */
  lemma LostExactlyWhen(cfg: D.Config, xs: seq<D.Input>, s: D.State, c: Codecs, workers: nat, calls: seq<Call>,
                        p: nat, q: nat)
    requires D.Reaches(cfg, xs, s) && workers > 0 && Explains(c, workers, s.handled, calls)
    requires p < |calls| && q < |s.handled[p].items| && D.Ack(s.handled[p].items[q].d) in s.log
    ensures q < |calls[p].messages|
    ensures Lost(c, workers, s, calls, p, q) <==>
            var h := s.handled[p];
            || (!h.ok && !h.items[q].dlqOk)
            || (h.ok && !Decodes(c, h.items[q].d.msg))
            || (h.ok && PanickedOn(c, workers, calls[p], q))
  {
    hide D.Reaches, FullyStored, PanickedOn, Decodes, DeadLetterPublished, CallOf;
    SameLength(c, workers, s.handled, calls, p, q);
    FullyStoredExactlyWhen(c, workers, calls[p], s.handled[p], q);
    AckedItem(cfg, xs, s, s.handled[p], s.handled[p].items[q]);
  }

  /** Every acknowledged delivery has such a place. */
  lemma AckHasPlace(cfg: D.Config, xs: seq<D.Input>, s: D.State, d: D.Delivery) returns (p: nat, q: nat)
    requires D.Reaches(cfg, xs, s) && D.Ack(d) in s.log
    ensures p < |s.handled| && q < |s.handled[p].items| && s.handled[p].items[q].d == d
  {
    hide D.Reaches;
    D.RunKeeps(cfg, xs, s);
    var h, x := CallComesFrom(cfg, s.handled, D.Ack(d));
    p :| 0 <= p < |s.handled| && s.handled[p] == h;
    q :| 0 <= q < |h.items| && h.items[q] == x;
  }

  // ---- One run per cause, with a batch size of one and a delivery limit of one

  const ONE: D.Config := D.Config(1, 1, [])

  /** A run in which one message is published, delivered, handled with the given answer and settled. */
  lemma OneMessage(m: D.Message, ok: bool, dlqOk: bool) returns (xs: seq<D.Input>, s: D.State)
    ensures D.Reaches(ONE, xs, s)
    ensures var d := D.Delivery(0, m, 1);
            && s.handled == [D.Flushed([D.Item(d, true, dlqOk)], ok)] && D.Ack(d) in s.log
            && s.log == D.FlushCalls(ONE)(s.handled[0])
  {
    hide D.FlushCalls;
    var d := D.Delivery(0, m, 1);
    var out := D.Flushed([D.Item(d, true, dlqOk)], ok);
    var s0 := D.INIT.(published := [m]);
    R.PublishFirst(ONE, m);
    FlatMapOne(D.DELIVERY_OF, D.Item(d, true, dlqOk));
    var ys, t := R.CanDeliverAndFlush(ONE, [D.Publish(m)], s0, 0, out);
    xs, s := [D.Publish(m)] + ys, t;
    assert [] + D.FlushCalls(ONE)(out) == D.FlushCalls(ONE)(out);
    AckInFlush(m, ok, dlqOk);
  }

  lemma AckInFlush(m: D.Message, ok: bool, dlqOk: bool)
    ensures var d := D.Delivery(0, m, 1);
            var h := D.Flushed([D.Item(d, true, dlqOk)], ok);
            && D.Ack(d) in D.FlushCalls(ONE)(h)
            && (ok || !dlqOk ==> !DeadLetterPublished(D.FlushCalls(ONE)(h), d))
  {
    var x := D.Item(D.Delivery(0, m, 1), true, dlqOk);
    FlatMapOne(D.SettleOne(ONE, ok), x);
    var es := D.SettleOne(ONE, ok)(x);
    assert es == if ok then [D.Ack(x.d)] else [D.Dlq(x.d, m.payload, m.headers, dlqOk), D.Ack(x.d)];
    var h := D.Flushed([x], ok);
    assert D.FlushCalls(ONE)(h)[1..] == es;
    assert es[|es| - 1] == D.Ack(x.d);
  }

  lemma OneJobRows(c: Codecs, m: Timed)
    ensures JobRows(c, 1, [m]) == [RowsOfMessage(c)(m)]
  {
    hide RowsOfMessage, FlatMap;
    var ivs := W.Intervals(1, 1);
    assert W.StartOf(1, 0, 0) == 0 && W.StartOf(1, 0, 1) == 1;
    assert ivs == [W.Interval(0, 1)];
    W.IntervalsTile(1, 1);
    W.TilesBounded(ivs, 1);
    assert W.Pick(ivs[0], [m]) == [m];
    FlatMapOne(RowsOfMessage(c), m);
  }

  /** The handler's call in such a run. */
  lemma OneCall(c: Codecs, m: D.Message, now: nat, panics: bool, s: D.State) returns (calls: seq<Call>)
    requires s.handled == [D.Flushed([D.Item(D.Delivery(0, m, 1), true, true)], true)]
    requires panics || RowsOfMessage(c)(Timed(m, [now])) == []
    ensures Explains(c, 1, s.handled, calls) && Database(calls) == [ColumnsOf([])]
    ensures calls[0].messages == [Timed(m, [now])] && (panics ==> W.Panic(0) in calls[0].xs)
  {
    hide RowsOfMessage, JobRows, W.Reaches, ColumnsOf;
    var timed := Timed(m, [now]);
    OneJobRows(c, timed);
    var ys, end := W.OneJob(RowsOfMessage(c)(timed), panics);
    var call := Call([timed], ys, end, true);
    calls := [call];
    FlatMapOne(D.DELIVERY_OF, s.handled[0].items[0]);
    assert StoredAll(end.rows) == [];
    FlatMapOne(INSERTED, call);
    assert CallOf(c, 1, call, s.handled[0]);
  }

  /** A message whose handler and whose dead-letter call fail is acknowledged and gone. */
  lemma FailedDeadLetterLoses(m: D.Message) returns (xs: seq<D.Input>, s: D.State)
    ensures D.Reaches(ONE, xs, s) && D.Ack(D.Delivery(0, m, 1)) in s.log
    ensures |s.handled| == 1 && !s.handled[0].ok && !DeadLetterPublished(s.log, D.Delivery(0, m, 1))
  {
    hide D.Reaches, D.FlushCalls, DeadLetterPublished;
    xs, s := OneMessage(m, false, false);
    AckInFlush(m, false, false);
  }

  const NOTHING_DECODES := Codecs(_ => None, _ => None, (_, _) => None)

  /** A payload that does not decode is acknowledged, and the database gets no row. */
  lemma UndecodableLoses(m: D.Message, now: nat) returns (xs: seq<D.Input>, s: D.State, calls: seq<Call>)
    ensures D.Reaches(ONE, xs, s) && D.Ack(D.Delivery(0, m, 1)) in s.log && |s.handled| == 1 && s.handled[0].ok
    ensures Explains(NOTHING_DECODES, 1, s.handled, calls) && Database(calls) == [ColumnsOf([])]
    ensures !DeadLetterPublished(s.log, D.Delivery(0, m, 1))
  {
    hide D.Reaches, D.FlushCalls, DeadLetterPublished, Explains, Database;
    xs, s := OneMessage(m, true, true);
    AckInFlush(m, true, true);
    calls := OneCall(NOTHING_DECODES, m, now, false, s);
  }

  const RECORD := LogRecord([], 1, 1, [], [], [], 0, [])
  const ONE_RECORD := ResourceLogs([], [ScopeLogs([], [], [RECORD])])
  const ALL_DECODE := Codecs(_ => None, _ => None, (_, _) => Some([ONE_RECORD]))

  lemma OneRow(m: Timed)
    requires m.msg.headers == map[]
    ensures |RowsOfMessage(ALL_DECODE)(m)| == 1
  {
    hide RowFor;
    var now := m.Now(0);
    assert LogsOf(ALL_DECODE, m.msg) == [ONE_RECORD];
    FlatMapOne(ScopeRows([], now), ONE_RECORD.scopes[0]);
    FlatMapOne(RowFor([], ONE_RECORD.scopes[0], now), RECORD);
    RowForIsOne([], ONE_RECORD.scopes[0], now, RECORD);
    assert RowsUpTo(ALL_DECODE, m, 0) == [];
  }

  lemma RowForIsOne(resAttrs: seq<Attr>, scope: ScopeLogs, now: nat, l: LogRecord)
    ensures |RowFor(resAttrs, scope, now)(l)| == 1
  {
  }

  /** A message with a row whose job panics is acknowledged, and the database does not get the row. */
  lemma PanicLoses(payload: seq<Bytes.byte>, now: nat) returns (xs: seq<D.Input>, s: D.State, calls: seq<Call>)
    ensures var m := D.Message(payload, map[]);
            && D.Reaches(ONE, xs, s) && D.Ack(D.Delivery(0, m, 1)) in s.log && |s.handled| == 1 && s.handled[0].ok
            && |RowsOfMessage(ALL_DECODE)(Timed(m, [now]))| == 1
            && !DeadLetterPublished(s.log, D.Delivery(0, m, 1))
    ensures Explains(ALL_DECODE, 1, s.handled, calls) && Database(calls) == [ColumnsOf([])]
  {
    hide D.Reaches, D.FlushCalls, DeadLetterPublished, Explains, Database, RowsOfMessage;
    var m := D.Message(payload, map[]);
    xs, s := OneMessage(m, true, true);
    AckInFlush(m, true, true);
    OneRow(Timed(m, [now]));
    calls := OneCall(ALL_DECODE, m, now, true, s);
  }
}
