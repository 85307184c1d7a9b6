/** The batch handler of the worker pool on the real appender: what a call of it inserts. */
module Handler {
  import opened Seqs
  import opened LogData
  import opened Columns
  import opened Storage
  import opened Flatten
  import opened Process
  import W = WorkerPool

  /** The rows of each job of a batch. */
  function JobRows(c: Codecs, workers: nat, messages: seq<Timed>): seq<seq<Row>>
    requires workers > 0
  {
    W.IntervalsTile(|messages|, workers);
    W.TilesBounded(W.Intervals(|messages|, workers), |messages|);
    W.Parts(RowsOfMessage(c), messages, W.Intervals(|messages|, workers))
  }

  /** A schedule of the pool for a batch: steps of handler and workers, ending with the flush. */
  ghost predicate Schedule(c: Codecs, workers: nat, messages: seq<Timed>, xs: seq<W.Input>, end: W.State)
    requires workers > 0
  {
    && W.Reaches(workers, JobRows(c, workers, messages), xs, end)
    && xs != [] && xs[|xs| - 1] == W.Flush && forall i :: 0 <= i < |xs| - 1 ==> xs[i] != W.Flush
  }

  /** Every batch has a schedule: the handler always comes to its flush. */
  lemma SomeSchedule(c: Codecs, workers: nat, messages: seq<Timed>) returns (xs: seq<W.Input>, end: W.State)
    requires workers > 0
    ensures Schedule(c, workers, messages, xs, end)
  {
    hide JobRows, W.Reaches;
    var parts := JobRows(c, workers, messages);
    W.ReachesInit(workers, parts, []);
    xs, end := W.CanFlush(workers, parts, [], W.Init(parts));
    assert [] + xs == xs;
  }

  lemma {:induction false} NotFlushed(workers: nat, parts: seq<seq<Row>>, xs: seq<W.Input>, s: W.State)
    requires W.Reaches(workers, parts, xs, s) && forall i :: 0 <= i < |xs| ==> xs[i] != W.Flush
    ensures s.flushes == []
  {
    if xs != [] {
      hide W.Enabled;
      var n := |xs| - 1;
      var p :| W.Reaches(workers, parts, xs[..n], p) && W.Enabled(workers, p, xs[n]) && s == W.Step(workers, p, xs[n]);
      NotFlushed(workers, parts, xs[..n], p);
    }
  }

  /**
   The handler: an appender for the batch, one job per interval, and the flush once all jobs are done. `xs` is how the
   goroutines happen to interleave; each append of a job is an append on the shared appender. One insert is
   attempted, of exactly what the jobs appended, and the result is the database's answer.
   */
  method ConsumeCallback(store: ClickHouseStore, estimatedRows: int, workers: nat, c: Codecs, messages: seq<Timed>,
                         xs: seq<W.Input>, ghost end: W.State) returns (ok: bool)
    requires store.batchPool.Valid() && workers > 0
    requires messages != [] ==> Schedule(c, workers, messages, xs, end)
    modifies store, store.batchPool, store.batchPool.Batches()
    ensures store.batchPool.Valid()
    ensures fresh(store.batchPool.Batches() - old(store.batchPool.Batches()))
    ensures messages == [] ==> ok && store.logs == old(store.logs) && store.attempts == old(store.attempts)
    ensures messages != [] ==>
              end.flushes == [end.rows] &&
              store.attempts == old(store.attempts) + [Attempt(ColumnsOf(StoredAll(end.rows)), ok)] &&
              store.logs == old(store.logs) + if ok then [ColumnsOf(StoredAll(end.rows))] else []
  {
    hide Schedule, JobRows, ColumnsOf, StoredAll;
    if |messages| == 0 { return true; }
    var appender := store.FastInsert(estimatedRows);
    var s := SplitJobs(workers, c, messages);
    s := RunJobs(appender, workers, c, messages, xs, end, s);
    ok := appender.Flush();
  }

  /** One job per interval, and a wait group that counts them. */
  method SplitJobs(workers: nat, c: Codecs, messages: seq<Timed>) returns (s: W.State)
    requires workers > 0
    ensures s == W.Init(JobRows(c, workers, messages))
  {
    hide RowsOfMessage, W.Intervals, W.Init;
    W.IntervalsTile(|messages|, workers);
    var intervals := W.SplitMessages(|messages|, workers);
    W.TilesBounded(intervals, |messages|);
    s := W.Init(W.Parts(RowsOfMessage(c), messages, intervals));
  }

  /** The jobs run until all of them have signalled the wait group. */
  method RunJobs(appender: BatchAppender, workers: nat, c: Codecs, messages: seq<Timed>, xs: seq<W.Input>,
                 ghost end: W.State, from: W.State) returns (s: W.State)
    requires workers > 0 && Schedule(c, workers, messages, xs, end) && from == W.Init(JobRows(c, workers, messages))
    requires !appender.flushed && appender.batch.Contents() == NO_ROWS
    modifies appender.batch
    ensures appender.batch.Contents() == ColumnsOf(StoredAll(end.rows)) && s.rows == end.rows && s.wg == 0
    ensures end.flushes == [end.rows]
  {
    hide W.Reaches, W.Enabled, JobRows, ColumnsOf, AppendRow, Stored;
    ghost var parts := JobRows(c, workers, messages);
    var n := |xs| - 1;
    s := from;
    assert W.Reaches(workers, parts, xs[..0], s) by { W.ReachesInit(workers, parts, xs[..0]); }
    assert ColumnsOf(StoredAll([])) == NO_ROWS by { StoredColumnsOfNothing(); }
    assert s.rows == [];
    for i := 0 to n
      invariant W.Reaches(workers, parts, xs[..i], s)
      invariant appender.batch.Contents() == ColumnsOf(StoredAll(s.rows)) && !appender.flushed
    {
      W.WasEnabled(workers, parts, xs, end, i, s);
      if xs[i].AppendRow? {
        AppendEnabled(workers, s, xs[i]);
        var row := s.jobs[xs[i].j].todo[0];
        StoredColumnsOfSnoc(s.rows, row);
        appender.Append(row);
      }
      RowsAfter(workers, s, xs[i]);
      s := W.Step(workers, s, xs[i]);
    }
    W.WasEnabled(workers, parts, xs, end, n, s);
    assert xs[..n + 1] == xs;
    W.Deterministic(workers, parts, xs, end, W.Step(workers, s, W.Flush));
    NotFlushed(workers, parts, xs[..n], s);
    FlushStep(workers, s);
  }

  lemma AppendEnabled(workers: nat, s: W.State, x: W.Input)
    requires W.Enabled(workers, s, x) && x.AppendRow?
    ensures x.j < |s.jobs| && s.jobs[x.j].todo != []
  {
  }

  lemma RowsAfter(workers: nat, s: W.State, x: W.Input)
    requires W.Enabled(workers, s, x)
    ensures W.Step(workers, s, x).rows ==
            if x.AppendRow? && x.j < |s.jobs| && s.jobs[x.j].todo != [] then s.rows + [s.jobs[x.j].todo[0]] else s.rows
  {
  }

  lemma FlushStep(workers: nat, s: W.State)
    requires W.Enabled(workers, s, W.Flush)
    ensures s.wg == 0 && s.flushes == []
    ensures W.Step(workers, s, W.Flush).rows == s.rows && W.Step(workers, s, W.Flush).flushes == [s.rows]
  {
  }

  // ---- The code of one job under a schedule

  /** What the others append before each append of job `j`, and after its last. */
  function SplitAt(rows: seq<Row>, owner: seq<nat>, j: nat): (seq<seq<Row>>, seq<Row>)
    requires |rows| == |owner|
  {
    if rows == [] then ([], [])
    else
      var n := |rows| - 1;
      var (before, after) := SplitAt(rows[..n], owner[..n], j);
      if owner[n] == j then (before + [after], []) else (before, after + [rows[n]])
  }

  lemma {:induction false} WeaveMore(others: seq<seq<Row>>, more: seq<seq<Row>>, mine: seq<Row>)
    requires |mine| <= |others|
    ensures Weave(others + more, mine) == Weave(others, mine)
  {
    if mine != [] {
      WeaveMore(others, more, mine[..|mine| - 1]);
    }
  }

  /** Every history of appends is a weave of the rows of one job with what the others append. */
  lemma {:induction false} SplitWeaves(rows: seq<Row>, owner: seq<nat>, j: nat)
    requires |rows| == |owner|
    ensures var (before, after) := SplitAt(rows, owner, j);
            |before| == |W.By(rows, owner, j)| && Weave(before, W.By(rows, owner, j)) + after == rows
  {
    if rows != [] {
      var n := |rows| - 1;
      SplitWeaves(rows[..n], owner[..n], j);
      var (before, after) := SplitAt(rows[..n], owner[..n], j);
      var mine := W.By(rows[..n], owner[..n], j);
      if owner[n] == j {
        WeaveMore(before, [after], mine);
        assert (mine + [rows[n]])[..|mine|] == mine;
        assert (before + [after])[|mine|] == after;
        assert Weave(before, mine) + after + [rows[n]] + [] == rows[..n] + [rows[n]];
      } else {
        assert W.By(rows, owner, j) == mine;
        assert Weave(before, mine) + (after + [rows[n]]) == rows[..n] + [rows[n]];
      }
      assert rows == rows[..n] + [rows[n]];
    }
  }

  /**
   Job `j` of a schedule, run by the code that decompresses, decodes and flattens its messages while the others append
   what the schedule makes them append. Unless the schedule makes the job panic, the shared batch ends as RunJobs leaves
   it: it is the schedule, and nothing in that code, that decides what is flushed.
   */
  method RunJob(dec: LogDecompressor, transformer: LogTransformer, publisher: Publisher, appender: BatchAppender,
                workers: nat, messages: seq<Timed>, xs: seq<W.Input>, end: W.State, j: nat)
    requires workers > 0 && Schedule(dec.codecs, workers, messages, xs, end)
    requires j < |JobRows(dec.codecs, workers, messages)|
    requires !W.PanicsBefore(xs, j, |JobRows(dec.codecs, workers, messages)[j]|)
    requires dec.Valid() && transformer.Valid() && dec !in transformer.Repr && publisher.Valid()
    requires !appender.flushed && appender.batch.Contents() == NO_ROWS
    modifies dec, dec.bufPool, dec.gzipPool, transformer, transformer.Repr, publisher, appender.batch
    ensures dec.Valid() && transformer.Valid()
    ensures appender.batch.Contents() == ColumnsOf(StoredAll(end.rows))
  {
    hide Schedule, W.Reaches, W.PanicsBefore, W.Intervals, W.By, RowsOfMessage, SplitAt, Weave, AppendRows, StoredAll;
    JobAppends(dec.codecs, workers, messages, xs, end, j);
    var iv := JobInterval(dec.codecs, workers, messages, j);
    SplitWeaves(end.rows, end.owner, j);
    var (before, after) := SplitAt(end.rows, end.owner, j);
    var job := new JobAppender(appender, before);
    ProcessMessages(dec, messages[iv.start..iv.end], transformer, publisher, job);
    assert job.mine == W.By(end.rows, end.owner, j);
    assert end.rows == Weave(before, job.mine) + after;
    StoredConcat(NO_ROWS, Weave(before, job.mine), after);
    job.OthersAppend(after);
  }

  /** The interval of job `j`. */
  method JobInterval(c: Codecs, workers: nat, messages: seq<Timed>, j: nat) returns (iv: W.Interval)
    requires workers > 0 && j < |JobRows(c, workers, messages)|
    ensures 0 <= iv.start <= iv.end <= |messages|
    ensures FlatMap(RowsOfMessage(c), messages[iv.start..iv.end]) == JobRows(c, workers, messages)[j]
  {
    hide W.Balanced, W.Tiles, RowsOfMessage, FlatMap;
    W.IntervalsTile(|messages|, workers);
    W.TilesBounded(W.Intervals(|messages|, workers), |messages|);
    var intervals := W.SplitMessages(|messages|, workers);
    iv := intervals[j];
    assert iv in intervals;
  }

  /** A job that does not panic early appends all of its rows. */
  lemma JobAppends(c: Codecs, workers: nat, messages: seq<Timed>, xs: seq<W.Input>, end: W.State, j: nat)
    requires workers > 0 && Schedule(c, workers, messages, xs, end) && j < |JobRows(c, workers, messages)|
    requires !W.PanicsBefore(xs, j, |JobRows(c, workers, messages)[j]|)
    ensures |end.rows| == |end.owner| && W.By(end.rows, end.owner, j) == JobRows(c, workers, messages)[j]
  {
    hide W.By, W.PanicsBefore, W.Reaches, JobRows;
    var parts := JobRows(c, workers, messages);
    ScheduleFlushes(c, workers, messages, xs, end);
    W.FlushedRows(workers, parts, xs, end);
    W.ShortExactlyWhen(workers, parts, xs, end, j, |parts[j]|);
  }

  lemma ScheduleFlushes(c: Codecs, workers: nat, messages: seq<Timed>, xs: seq<W.Input>, end: W.State)
    requires workers > 0 && Schedule(c, workers, messages, xs, end)
    ensures end.flushes != []
  {
    hide JobRows, W.Enabled;
    var n := |xs| - 1;
    var parts := JobRows(c, workers, messages);
    var p :| W.Reaches(workers, parts, xs[..n], p) && W.Enabled(workers, p, xs[n]) && end == W.Step(workers, p, xs[n]);
  }
}
