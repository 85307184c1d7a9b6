/**
 The batch handler: messages are split into intervals, one job per interval goes through a bounded job
 channel to a fixed set of workers, and the jobs append rows to one shared batch in any interleaving, each
 append being atomic. When every job has signalled the wait group the batch is flushed.
 */
module WorkerPool {
  import opened LogData
  import opened Seqs

  // ---- Splitting a batch

  datatype Interval = Interval(start: int, end: int)

  /** The intervals cover [0, n) without gap or overlap, in order. */
  ghost predicate Tiles(ivs: seq<Interval>, n: int)
  {
    if ivs == [] then n == 0
    else
      var last := ivs[|ivs| - 1];
      last.end == n && 0 <= last.start <= last.end && Tiles(ivs[..|ivs| - 1], last.start)
  }

  function Size(iv: Interval): int
  {
    iv.end - iv.start
  }

  /** Where interval `i` starts when the first `extra` intervals hold one message more than `base`. */
  function StartOf(base: nat, extra: nat, i: nat): nat
  {
    if i == 0 then 0 else StartOf(base, extra, i - 1) + if i - 1 < extra then base + 1 else base
  }

  lemma {:induction false} StartOfValue(base: nat, extra: nat, i: nat)
    ensures StartOf(base, extra, i) == i * base + if i < extra then i else extra
  {
    if i > 0 {
      StartOfValue(base, extra, i - 1);
      assert i * base == (i - 1) * base + base;
    }
  }

  lemma LastStart(n: nat, k: nat)
    requires 0 < k <= n
    ensures n / k >= 1 && StartOf(n / k, n % k, k) == n
  {
    StartOfValue(n / k, n % k, k);
  }

  /** `m` intervals, the first `extra` of them one message longer than `base`. */
  function IntervalsOf(base: nat, extra: nat, m: nat): (ivs: seq<Interval>)
    ensures |ivs| == m
    ensures forall i :: 0 <= i < m ==> ivs[i] == Interval(StartOf(base, extra, i), StartOf(base, extra, i + 1))
  {
    seq(m, i requires 0 <= i < m => Interval(StartOf(base, extra, i), StartOf(base, extra, i + 1)))
  }

  /** The intervals for a batch of `n` messages and `k` workers. */
  function Intervals(n: nat, k: nat): (ivs: seq<Interval>)
    ensures |ivs| == if n <= k then n else k
  {
    var m := if n <= k then n else k;
    if m == 0 then [] else IntervalsOf(n / m, n % m, m)
  }

  /** No interval is empty, sizes differ by at most one, and longer intervals come first. */
  predicate Balanced(ivs: seq<Interval>)
  {
    forall i, j :: 0 <= i < j < |ivs| ==> 1 <= Size(ivs[j]) <= Size(ivs[i]) <= Size(ivs[j]) + 1
  }

  lemma IntervalSizes(base: nat, extra: nat, m: nat)
    requires base >= 1
    ensures Balanced(IntervalsOf(base, extra, m))
  {
    assert forall i :: 0 <= i < m ==> Size(IntervalsOf(base, extra, m)[i]) == if i < extra then base + 1 else base;
  }

  lemma {:induction false} IntervalsTileUpTo(base: nat, extra: nat, m: nat)
    ensures Tiles(IntervalsOf(base, extra, m), StartOf(base, extra, m))
  {
    if m > 0 {
      IntervalsTileUpTo(base, extra, m - 1);
      assert IntervalsOf(base, extra, m)[..m - 1] == IntervalsOf(base, extra, m - 1);
    } else {
      assert IntervalsOf(base, extra, m) == [];
    }
  }

  /** The intervals computed tile the batch, none is empty, and longer ones come first. */
  lemma IntervalsTile(n: nat, k: nat)
    requires k > 0
    ensures Tiles(Intervals(n, k), n) && Balanced(Intervals(n, k))
  {
    hide IntervalsOf, Tiles, Balanced;
    var m := |Intervals(n, k)|;
    if m > 0 {
      LastStart(n, m);
      IntervalSizes(n / m, n % m, m);
      IntervalsTileUpTo(n / m, n % m, m);
    } else {
      NothingTiles();
    }
  }

  lemma NothingTiles()
    ensures Tiles([], 0) && Balanced([])
  {
  }

  /** Divides a batch among the workers: as many intervals as workers, but no more than messages. */
  method SplitMessages(numMessages: nat, numWorkers: int) returns (intervals: seq<Interval>)
    ensures intervals == Intervals(numMessages, if numWorkers >= 0 then numWorkers else 0)
    ensures |intervals| == if numWorkers <= 0 then 0 else if numMessages <= numWorkers then numMessages else numWorkers
    ensures numWorkers > 0 ==> Tiles(intervals, numMessages)
    ensures Balanced(intervals)
  {
    hide Tiles, StartOf, Balanced;
    NothingTiles();
    if numWorkers > 0 {
      IntervalsTile(numMessages, numWorkers);
    }
    var workers := if numMessages < numWorkers then numMessages else numWorkers;
    if workers <= 0 { return []; }
    var base, remainder := numMessages / workers, numMessages % workers;
    intervals := FillIntervals(base, remainder, workers);
  }

  /** The loop of SplitMessages. */
  method FillIntervals(base: nat, remainder: nat, workers: nat) returns (intervals: seq<Interval>)
    ensures intervals == IntervalsOf(base, remainder, workers)
  {
    intervals := [];
    var start := 0;
    for i := 0 to workers
      invariant |intervals| == i && start == StartOf(base, remainder, i)
      invariant intervals == IntervalsOf(base, remainder, workers)[..i]
    {
      var size := base;
      if i < remainder {
        size := size + 1;
      }
      intervals := intervals + [Interval(start, start + size)];
      start := start + size;
    }
  }

  // ---- What the jobs append

  function Pick<T>(iv: Interval, messages: seq<T>): seq<T>
    requires 0 <= iv.start <= iv.end <= |messages|
  {
    messages[iv.start..iv.end]
  }

  lemma {:induction false} TilesBounded(ivs: seq<Interval>, n: int)
    requires Tiles(ivs, n)
    ensures n >= 0 && forall iv :: iv in ivs ==> 0 <= iv.start <= iv.end <= n
  {
    if ivs != [] {
      TilesBounded(ivs[..|ivs| - 1], ivs[|ivs| - 1].start);
    }
  }

  /** The job that gets message `q`. */
  function JobOf(ivs: seq<Interval>, q: nat): (j: nat)
    requires ivs != []
    ensures j < |ivs|
  {
    var n := |ivs| - 1;
    if n == 0 || ivs[n].start <= q then n else JobOf(ivs[..n], q)
  }

  lemma {:induction false} JobHolds(ivs: seq<Interval>, n: int, q: nat)
    requires Tiles(ivs, n) && q < n
    ensures ivs != [] && ivs[JobOf(ivs, q)].start <= q < ivs[JobOf(ivs, q)].end
  {
    var m := |ivs| - 1;
    if ivs[m].start > q {
      JobHolds(ivs[..m], ivs[m].start, q);
    }
  }

  /** The rows of each job, for a function giving the rows of a message. */
  function Parts<M>(rowsOf: M -> seq<Row>, messages: seq<M>, ivs: seq<Interval>): (parts: seq<seq<Row>>)
    requires forall iv :: iv in ivs ==> 0 <= iv.start <= iv.end <= |messages|
    ensures |parts| == |ivs| && forall i :: 0 <= i < |ivs| ==> parts[i] == FlatMap(rowsOf, Pick(ivs[i], messages))
  {
    seq(|ivs|, i requires 0 <= i < |ivs| => FlatMap(rowsOf, Pick(ivs[i], messages)))
  }

  function Concat<T>(ss: seq<seq<T>>): seq<T>
  {
    if ss == [] then [] else Concat(ss[..|ss| - 1]) + ss[|ss| - 1]
  }

  /** One after the other, the jobs of a tiling append what processing the messages in order appends. */
  lemma {:induction false} PartsInOrder<M>(rowsOf: M -> seq<Row>, messages: seq<M>, ivs: seq<Interval>, n: nat)
    requires n <= |messages| && Tiles(ivs, n)
    requires forall iv :: iv in ivs ==> 0 <= iv.start <= iv.end <= |messages|
    ensures Concat(Parts(rowsOf, messages, ivs)) == FlatMap(rowsOf, messages[..n])
  {
    var parts := Parts(rowsOf, messages, ivs);
    if ivs != [] {
      var last := ivs[|ivs| - 1];
      TilesBounded(ivs, n);
      assert last in ivs;
      PartsInOrder(rowsOf, messages, ivs[..|ivs| - 1], last.start);
      assert parts[..|ivs| - 1] == Parts(rowsOf, messages, ivs[..|ivs| - 1]);
      assert messages[..n] == messages[..last.start] + Pick(last, messages);
      FlatMapConcat(rowsOf, messages[..last.start], Pick(last, messages));
    } else {
      assert messages[..0] == [];
    }
  }

  // ---- The machine

  datatype Phase = Unsent | Queued | Running | Finished

  /** `todo` are the rows the job has not appended; a job that panics keeps them, unappended, for ever. */
  datatype Job = Job(phase: Phase, todo: seq<Row>, panicked: bool)

  datatype State = State(
    jobs: seq<Job>,
    queue: seq<nat>,               // the job channel
    sent: nat,                     // jobs the handler has sent so far
    wg: int,                       // the wait group's counter
    rows: seq<Row>,                // the shared batch
    owner: seq<nat>,               // history: which job appended each row
    flushes: seq<seq<Row>>)        // history: what Flush was called with

  datatype Input = Send | Take | AppendRow(j: nat) | Finish(j: nat) | Panic(j: nat) | Flush

  function Init(parts: seq<seq<Row>>): State
  {
    State(seq(|parts|, i requires 0 <= i < |parts| => Job(Unsent, parts[i], false)), [], 0, |parts|, [], [], [])
  }

  function InPhase(jobs: seq<Job>, p: Phase): nat
  {
    if jobs == [] then 0
    else InPhase(jobs[..|jobs| - 1], p) + if jobs[|jobs| - 1].phase == p then 1 else 0
  }

  predicate IsRunning(s: State, j: nat)
  {
    j < |s.jobs| && s.jobs[j].phase == Running
  }

  predicate Enabled(workers: nat, s: State, x: Input)
  {
    match x
    case Send => s.sent < |s.jobs| && |s.queue| < workers
    case Take => s.queue != [] && s.queue[0] < |s.jobs| && InPhase(s.jobs, Running) < workers
    case AppendRow(j) => IsRunning(s, j) && s.jobs[j].todo != []
    case Finish(j) => IsRunning(s, j) && s.jobs[j].todo == []
    case Panic(j) => IsRunning(s, j)
    case Flush => s.sent == |s.jobs| && s.wg == 0 && s.flushes == []
  }

  function Step(workers: nat, s: State, x: Input): State
    requires Enabled(workers, s, x)
  {
    match x
    case Send =>
      s.(jobs := s.jobs[s.sent := s.jobs[s.sent].(phase := Queued)], queue := s.queue + [s.sent], sent := s.sent + 1)
    case Take =>
      var j := s.queue[0];
      s.(jobs := s.jobs[j := s.jobs[j].(phase := Running)], queue := s.queue[1..])
    case AppendRow(j) =>
      var job := s.jobs[j];
      s.(jobs := s.jobs[j := job.(todo := job.todo[1..])], rows := s.rows + [job.todo[0]], owner := s.owner + [j])
    case Finish(j) =>
      s.(jobs := s.jobs[j := s.jobs[j].(phase := Finished)], wg := s.wg - 1)
    case Panic(j) =>  // recovered by the worker; the deferred signal still happens
      s.(jobs := s.jobs[j := s.jobs[j].(phase := Finished, panicked := true)], wg := s.wg - 1)
    case Flush =>
      s.(flushes := s.flushes + [s.rows])
  }

  ghost predicate Reaches(workers: nat, parts: seq<seq<Row>>, xs: seq<Input>, s: State)
  {
    if xs == [] then s == Init(parts)
    else
      var n := |xs| - 1;
      exists p :: Reaches(workers, parts, xs[..n], p) && Enabled(workers, p, xs[n]) && s == Step(workers, p, xs[n])
  }

  /** The inputs determine the state. */
  lemma {:induction false} Deterministic(workers: nat, parts: seq<seq<Row>>, xs: seq<Input>, s: State, t: State)
    requires Reaches(workers, parts, xs, s) && Reaches(workers, parts, xs, t)
    ensures s == t
  {
    if xs != [] {
      hide Enabled, Step;
      var n := |xs| - 1;
      var p :| Reaches(workers, parts, xs[..n], p) && Enabled(workers, p, xs[n]) && s == Step(workers, p, xs[n]);
      var q :| Reaches(workers, parts, xs[..n], q) && Enabled(workers, q, xs[n]) && t == Step(workers, q, xs[n]);
      Deterministic(workers, parts, xs[..n], p, q);
    }
  }

  /** Every input of a run was enabled in the state reached before it. */
  lemma {:induction false} WasEnabled(workers: nat, parts: seq<seq<Row>>, xs: seq<Input>, s: State, i: nat, p: State)
    requires Reaches(workers, parts, xs, s) && i < |xs| && Reaches(workers, parts, xs[..i], p)
    ensures Enabled(workers, p, xs[i]) && Reaches(workers, parts, xs[..i + 1], Step(workers, p, xs[i]))
  {
    hide Enabled, Step;
    var n := |xs| - 1;
    var q :| Reaches(workers, parts, xs[..n], q) && Enabled(workers, q, xs[n]) && s == Step(workers, q, xs[n]);
    if i == n {
      Deterministic(workers, parts, xs[..n], p, q);
      assert xs[..i + 1] == xs;
    } else {
      assert xs[..n][..i] == xs[..i] && xs[..n][..i + 1] == xs[..i + 1];
      WasEnabled(workers, parts, xs[..n], q, i, p);
    }
  }

  /** The rows that job `j` appended, in the order it appended them. */
  function By(rows: seq<Row>, owner: seq<nat>, j: nat): seq<Row>
    requires |rows| == |owner|
  {
    if rows == [] then []
    else
      var n := |rows| - 1;
      By(rows[..n], owner[..n], j) + if owner[n] == j then [rows[n]] else []
  }

  ghost predicate RowsExplained(parts: seq<seq<Row>>, s: State)
  {
    && |s.jobs| == |parts| && |s.rows| == |s.owner| && (forall i :: 0 <= i < |s.owner| ==> s.owner[i] < |parts|)
    && forall j :: 0 <= j < |parts| ==>
         && By(s.rows, s.owner, j) + s.jobs[j].todo == parts[j]
         && (s.jobs[j].phase == Finished && !s.jobs[j].panicked ==> s.jobs[j].todo == [])
  }

  ghost predicate Scheduled(workers: nat, s: State)
  {
    && s.sent <= |s.jobs| && |s.queue| <= workers && InPhase(s.jobs, Running) <= workers
    && (forall j :: 0 <= j < |s.jobs| ==> (s.jobs[j].phase == Unsent <==> j >= s.sent))
    && (forall j :: 0 <= j < |s.jobs| ==> (s.jobs[j].phase == Queued <==> j in s.queue))
    && (forall j :: j in s.queue ==> j < |s.jobs|)
    && (forall i, k :: 0 <= i < k < |s.queue| ==> s.queue[i] != s.queue[k])
    && s.wg == |s.jobs| - InPhase(s.jobs, Finished)
    && |s.flushes| <= 1 && (s.flushes != [] ==> s.flushes[0] == s.rows && s.wg == 0 && s.sent == |s.jobs|)
  }

  lemma {:induction false} InPhaseUpdate(jobs: seq<Job>, j: nat, job: Job, p: Phase)
    requires j < |jobs|
    ensures InPhase(jobs[j := job], p) ==
            InPhase(jobs, p) - (if jobs[j].phase == p then 1 else 0) + (if job.phase == p then 1 else 0)
  {
    var n := |jobs| - 1;
    if j < n {
      InPhaseUpdate(jobs[..n], j, job, p);
      assert jobs[j := job][..n] == jobs[..n][j := job];
    } else {
      assert jobs[j := job][..n] == jobs[..n];
    }
  }

  lemma {:induction false} InPhaseBound(jobs: seq<Job>, p: Phase)
    ensures InPhase(jobs, p) <= |jobs|
    ensures InPhase(jobs, p) == |jobs| <==> forall i :: 0 <= i < |jobs| ==> jobs[i].phase == p
  {
    if jobs != [] {
      InPhaseBound(jobs[..|jobs| - 1], p);
    }
  }

  lemma {:induction false} NoneInPhase(jobs: seq<Job>, p: Phase)
    requires forall i :: 0 <= i < |jobs| ==> jobs[i].phase != p
    ensures InPhase(jobs, p) == 0
  {
    if jobs != [] {
      NoneInPhase(jobs[..|jobs| - 1], p);
    }
  }

  lemma StepRows(workers: nat, parts: seq<seq<Row>>, s: State, x: Input)
    requires RowsExplained(parts, s) && Enabled(workers, s, x)
    ensures RowsExplained(parts, Step(workers, s, x))
  {
    if x.AppendRow? {
      var t := Step(workers, s, x);
      forall j | 0 <= j < |parts| ensures By(t.rows, t.owner, j) + t.jobs[j].todo == parts[j] {
        assert t.rows[..|s.rows|] == s.rows && t.owner[..|s.owner|] == s.owner;
        if j == x.j {
          assert s.jobs[j].todo == [s.jobs[j].todo[0]] + t.jobs[j].todo;
        }
      }
    }
  }

  lemma SendScheduled(workers: nat, s: State)
    requires Scheduled(workers, s) && Enabled(workers, s, Send)
    ensures Scheduled(workers, Step(workers, s, Send))
  {
    hide InPhase;
    var t := Step(workers, s, Send);
    assert t.flushes == [] by { InPhaseBound(s.jobs, Finished); }
    Updated(s, t, s.sent);
  }

  lemma TakeScheduled(workers: nat, s: State)
    requires Scheduled(workers, s) && Enabled(workers, s, Take)
    ensures Scheduled(workers, Step(workers, s, Take))
  {
    hide InPhase;
    var t := Step(workers, s, Take);
    assert s.queue == [s.queue[0]] + s.queue[1..];
    assert forall j :: j in s.queue[1..] ==> j in s.queue;
    Updated(s, t, s.queue[0]);
  }

  lemma StepScheduled(workers: nat, s: State, x: Input)
    requires Scheduled(workers, s) && Enabled(workers, s, x)
    ensures Scheduled(workers, Step(workers, s, x))
  {
    hide InPhase;
    match x
    case Send => SendScheduled(workers, s);
    case Take => TakeScheduled(workers, s);
    case Flush =>
    case _ =>
      StillWaiting(workers, s, x.j);
      Updated(s, Step(workers, s, x), x.j);
  }

  lemma Updated(s: State, t: State, j: nat)
    requires j < |s.jobs| == |t.jobs| && t.jobs == s.jobs[j := t.jobs[j]]
    ensures forall p :: InPhase(t.jobs, p) ==
              InPhase(s.jobs, p) - (if s.jobs[j].phase == p then 1 else 0) + (if t.jobs[j].phase == p then 1 else 0)
  {
    forall p ensures InPhase(t.jobs, p) ==
              InPhase(s.jobs, p) - (if s.jobs[j].phase == p then 1 else 0) + (if t.jobs[j].phase == p then 1 else 0) {
      InPhaseUpdate(s.jobs, j, t.jobs[j], p);
    }
  }

  /** While a job runs the wait group is not at zero, so nothing has been flushed. */
  lemma StillWaiting(workers: nat, s: State, j: nat)
    requires Scheduled(workers, s) && IsRunning(s, j)
    ensures s.wg > 0 && s.flushes == []
  {
    InPhaseBound(s.jobs, Finished);
  }

  lemma {:induction false} RunKeeps(workers: nat, parts: seq<seq<Row>>, xs: seq<Input>, s: State)
    requires Reaches(workers, parts, xs, s)
    ensures RowsExplained(parts, s) && Scheduled(workers, s)
  {
    if xs == [] {
      NoneInPhase(s.jobs, Finished);
      NoneInPhase(s.jobs, Running);
    } else {
      hide Enabled, Step, RowsExplained, Scheduled;
      var n := |xs| - 1;
      var p :| Reaches(workers, parts, xs[..n], p) && Enabled(workers, p, xs[n]) && s == Step(workers, p, xs[n]);
      RunKeeps(workers, parts, xs[..n], p);
      StepRows(workers, parts, p, xs[n]);
      StepScheduled(workers, p, xs[n]);
    }
  }

  // ---- Whole-run properties

  /**
   In every run the batch is flushed at most once, after every job has finished, with all the rows: for each
   job the rows it appended are its own rows in order, all of them unless it panicked, and then a prefix.
   */
  lemma FlushedRows(workers: nat, parts: seq<seq<Row>>, xs: seq<Input>, s: State)
    requires Reaches(workers, parts, xs, s)
    ensures |s.flushes| <= 1
    ensures s.flushes != [] ==>
              && s.flushes[0] == s.rows && |s.jobs| == |parts| && |s.owner| == |s.rows|
              && forall j :: 0 <= j < |parts| ==>
                   && s.jobs[j].phase == Finished && By(s.rows, s.owner, j) <= parts[j]
                   && (!s.jobs[j].panicked ==> By(s.rows, s.owner, j) == parts[j])
  {
    RunKeeps(workers, parts, xs, s);
    InPhaseBound(s.jobs, Finished);
  }

  /** The union of the parts of a shuffle, as multisets. */
  ghost function AllBy(rows: seq<Row>, owner: seq<nat>, n: nat): multiset<Row>
    requires |rows| == |owner|
  {
    if n == 0 then multiset{} else AllBy(rows, owner, n - 1) + multiset(By(rows, owner, n - 1))
  }

  lemma BySnoc(rows: seq<Row>, owner: seq<nat>, j: nat)
    requires 0 < |rows| == |owner|
    ensures var k := |rows| - 1;
            multiset(By(rows, owner, j)) ==
            multiset(By(rows[..k], owner[..k], j)) + if owner[k] == j then multiset{rows[k]} else multiset{}
  {
  }

  lemma Regroup(a: multiset<Row>, m: multiset<Row>, x: multiset<Row>)
    ensures a + (m + x) == a + m + x && a + x + m == a + m + x && a + m + multiset{} == a + m && m + multiset{} == m
    ensures a + multiset{} == a
  {
  }

  lemma {:induction false} AllBySnoc(rows: seq<Row>, owner: seq<nat>, n: nat)
    requires 0 < |rows| == |owner|
    ensures var k := |rows| - 1;
            AllBy(rows, owner, n) ==
            AllBy(rows[..k], owner[..k], n) + if owner[k] < n then multiset{rows[k]} else multiset{}
  {
    hide By;
    if n > 0 {
      var k := |rows| - 1;
      var before, m := AllBy(rows[..k], owner[..k], n - 1), multiset(By(rows[..k], owner[..k], n - 1));
      AllBySnoc(rows, owner, n - 1);
      BySnoc(rows, owner, n - 1);
      Regroup(before, m, multiset{rows[k]});
    }
  }

  lemma {:induction false} NothingBy(n: nat)
    ensures AllBy([], [], n) == multiset{}
  {
    if n > 0 {
      NothingBy(n - 1);
    }
  }

  lemma MultisetSnoc(rows: seq<Row>, r: Row)
    ensures multiset(rows + [r]) == multiset(rows) + multiset{r}
  {
  }

  lemma {:induction false} ShuffleMultiset(rows: seq<Row>, owner: seq<nat>, n: nat)
    requires |rows| == |owner| && forall i :: 0 <= i < |owner| ==> owner[i] < n
    ensures AllBy(rows, owner, n) == multiset(rows)
  {
    hide By, AllBy;
    if rows == [] {
      NothingBy(n);
    } else {
      var k := |rows| - 1;
      var init, r := rows[..k], rows[k];
      ShuffleMultiset(init, owner[..k], n);
      AllBySnoc(rows, owner, n);
      MultisetSnoc(init, r);
      assert rows == init + [r];
    }
  }

  lemma {:induction false} PartsMultiset(rows: seq<Row>, owner: seq<nat>, parts: seq<seq<Row>>)
    requires |rows| == |owner| && forall j :: 0 <= j < |parts| ==> By(rows, owner, j) == parts[j]
    ensures AllBy(rows, owner, |parts|) == multiset(Concat(parts))
  {
    hide By;
    if parts != [] {
      var n := |parts| - 1;
      PartsMultiset(rows, owner, parts[..n]);
      assert By(rows, owner, n) == parts[n];
      assert multiset(Concat(parts[..n]) + parts[n]) == multiset(Concat(parts[..n])) + multiset(parts[n]);
    }
  }

  /**
   Whatever the number of workers and the interleaving, if no job panics the rows flushed are, as a multiset,
   those of processing all messages in order.
   */
  lemma ParallelIsSequential<M>(rowsOf: M -> seq<Row>, messages: seq<M>, ivs: seq<Interval>, workers: nat,
                                     xs: seq<Input>, s: State)
    requires Tiles(ivs, |messages|) && forall iv :: iv in ivs ==> 0 <= iv.start <= iv.end <= |messages|
    requires Reaches(workers, Parts(rowsOf, messages, ivs), xs, s)
    requires s.flushes != [] && forall job :: job in s.jobs ==> !job.panicked
    ensures multiset(s.flushes[0]) == multiset(FlatMap(rowsOf, messages))
  {
    var parts := Parts(rowsOf, messages, ivs);
    assert multiset(s.flushes[0]) == multiset(Concat(parts)) by { AllFlushed(workers, parts, xs, s); }
    PartsInOrder(rowsOf, messages, ivs, |messages|);
    assert messages[..|messages|] == messages;
  }

  lemma AllFlushed(workers: nat, parts: seq<seq<Row>>, xs: seq<Input>, s: State)
    requires Reaches(workers, parts, xs, s)
    requires s.flushes != [] && forall job :: job in s.jobs ==> !job.panicked
    ensures multiset(s.flushes[0]) == multiset(Concat(parts))
  {
    hide Reaches, By, InPhase, AllBy, Concat;
    FlushedRows(workers, parts, xs, s);
    RunKeeps(workers, parts, xs, s);
    hide Scheduled;
    forall j | 0 <= j < |parts| ensures By(s.rows, s.owner, j) == parts[j] {
      assert s.jobs[j] in s.jobs;
    }
    ShuffleMultiset(s.rows, s.owner, |parts|);
    PartsMultiset(s.rows, s.owner, parts);
  }

  // ---- What a panic costs

  /** How many rows job `j` is told to append. */
  function Appends(xs: seq<Input>, j: nat): nat
  {
    if xs == [] then 0 else Appends(xs[..|xs| - 1], j) + if xs[|xs| - 1] == AppendRow(j) then 1 else 0
  }

  /** Job `j` panics before it has appended `n` rows. */
  ghost predicate PanicsBefore(xs: seq<Input>, j: nat, n: nat)
  {
    exists k :: 0 <= k < |xs| && xs[k] == Panic(j) && Appends(xs[..k], j) < n
  }

  lemma AppendsStep(workers: nat, s: State, x: Input, j: nat)
    requires |s.rows| == |s.owner| && Enabled(workers, s, x)
    ensures var t := Step(workers, s, x);
            && |t.rows| == |t.owner|
            && |By(t.rows, t.owner, j)| == |By(s.rows, s.owner, j)| + if x == AppendRow(j) then 1 else 0
  {
    hide InPhase;
    if x.AppendRow? {
      var t := Step(workers, s, x);
      assert t.rows[..|s.rows|] == s.rows && t.owner[..|s.owner|] == s.owner;
    }
  }

  lemma {:induction false} AppendsIsBy(workers: nat, parts: seq<seq<Row>>, xs: seq<Input>, s: State, j: nat)
    requires Reaches(workers, parts, xs, s)
    ensures |s.rows| == |s.owner| && |By(s.rows, s.owner, j)| == Appends(xs, j)
  {
    if xs != [] {
      hide Enabled, Step, By;
      var n := |xs| - 1;
      var p :| Reaches(workers, parts, xs[..n], p) && Enabled(workers, p, xs[n]) && s == Step(workers, p, xs[n]);
      AppendsIsBy(workers, parts, xs[..n], p, j);
      AppendsStep(workers, p, xs[n], j);
    }
  }

  /** After its panic a job is finished and appends nothing. */
  ghost predicate PanicIsLast(xs: seq<Input>, s: State, j: nat)
  {
    && j < |s.jobs|
    && (s.jobs[j].panicked <==> Panic(j) in xs)
    && forall k :: 0 <= k < |xs| && xs[k] == Panic(j) ==>
         s.jobs[j].phase == Finished && Appends(xs[..k], j) == Appends(xs, j)
  }

  lemma FinishedStays(workers: nat, s: State, x: Input, j: nat)
    requires Scheduled(workers, s) && Enabled(workers, s, x) && j < |s.jobs| && s.jobs[j].phase == Finished
    ensures Step(workers, s, x).jobs[j] == s.jobs[j] && x != AppendRow(j) && x != Panic(j)
  {
    hide InPhase;
    if x.Take? {
      assert s.queue[0] in s.queue;
    }
  }

  lemma PanicStep(workers: nat, xs: seq<Input>, s: State, x: Input, j: nat)
    requires PanicIsLast(xs, s, j) && Scheduled(workers, s) && Enabled(workers, s, x)
    ensures PanicIsLast(xs + [x], Step(workers, s, x), j)
  {
    var more, t := xs + [x], Step(workers, s, x);
    assert more[..|xs|] == xs;
    assert Panic(j) in more <==> Panic(j) in xs || x == Panic(j);
    if s.jobs[j].phase == Finished {
      FinishedStays(workers, s, x, j);
    }
    hide Scheduled, InPhase;
    forall k | 0 <= k < |more| && more[k] == Panic(j)
      ensures t.jobs[j].phase == Finished && Appends(more[..k], j) == Appends(more, j)
    {
      if k < |xs| {
        assert xs[k] == Panic(j) && more[..k] == xs[..k];
      }
    }
  }

  lemma {:induction false} PanicHistory(workers: nat, parts: seq<seq<Row>>, xs: seq<Input>, s: State, j: nat)
    requires Reaches(workers, parts, xs, s) && j < |parts|
    ensures PanicIsLast(xs, s, j)
  {
    if xs != [] {
      hide PanicIsLast, Enabled, Step, RowsExplained, Scheduled;
      var n := |xs| - 1;
      var p :| Reaches(workers, parts, xs[..n], p) && Enabled(workers, p, xs[n]) && s == Step(workers, p, xs[n]);
      PanicHistory(workers, parts, xs[..n], p, j);
      RunKeeps(workers, parts, xs[..n], p);
      PanicStep(workers, xs[..n], p, xs[n], j);
      assert xs[..n] + [xs[n]] == xs;
    }
  }

  /** At the flush, a job has appended fewer than `n` of its rows exactly if it panicked before it had appended `n`. */
  lemma ShortExactlyWhen(workers: nat, parts: seq<seq<Row>>, xs: seq<Input>, s: State, j: nat, n: nat)
    requires Reaches(workers, parts, xs, s) && s.flushes != [] && j < |parts| && n <= |parts[j]|
    ensures |s.rows| == |s.owner| && (|By(s.rows, s.owner, j)| < n <==> PanicsBefore(xs, j, n))
  {
    hide Reaches, By, Appends;
    FlushedRows(workers, parts, xs, s);
    AppendsIsBy(workers, parts, xs, s, j);
    PanicHistory(workers, parts, xs, s, j);
    if |By(s.rows, s.owner, j)| < n {
      assert Panic(j) in xs;
      var k :| 0 <= k < |xs| && xs[k] == Panic(j);
      assert Appends(xs[..k], j) < n;
    }
  }

  /**
   A panic costs other jobs nothing, and its own job only later rows: as long as job `j` does not panic before its
   `n`th row, its first `n` rows are flushed, each as often as it occurs among them.
   */
  lemma PanicIsContained(workers: nat, parts: seq<seq<Row>>, xs: seq<Input>, s: State, j: nat, n: nat)
    requires Reaches(workers, parts, xs, s) && s.flushes != [] && j < |parts| && n <= |parts[j]|
    requires !PanicsBefore(xs, j, n)
    ensures |s.rows| == |s.owner| && parts[j][..n] <= By(s.rows, s.owner, j)
    ensures multiset(parts[j][..n]) <= multiset(s.flushes[0])
  {
    hide Reaches, By, PanicsBefore;
    FlushedRows(workers, parts, xs, s);
    ShortExactlyWhen(workers, parts, xs, s, j, n);
    ByWithin(s.rows, s.owner, j);
    var all := By(s.rows, s.owner, j);
    assert parts[j][..n] == all[..n];
    assert all == all[..n] + all[n..];
  }

  lemma {:induction false} ByWithin(rows: seq<Row>, owner: seq<nat>, j: nat)
    requires |rows| == |owner|
    ensures multiset(By(rows, owner, j)) <= multiset(rows)
  {
    if rows != [] {
      hide By;
      var n := |rows| - 1;
      ByWithin(rows[..n], owner[..n], j);
      BySnoc(rows, owner, j);
      assert rows == rows[..n] + [rows[n]];
      assert multiset(rows) == multiset(rows[..n]) + multiset{rows[n]};
    }
  }

  /** The pool with one worker and one job that ends, or panics, before it appends anything. */
  lemma OneJob(part: seq<Row>, panics: bool) returns (xs: seq<Input>, s: State)
    requires part == [] || panics
    ensures xs == [Send, Take, if panics then Panic(0) else Finish(0), Flush]
    ensures Reaches(1, [part], xs, s) && s.flushes == [[]] && s.rows == []
  {
    hide Reaches, Enabled, Step;
    var parts := [part];
    var x := if panics then Panic(0) else Finish(0);
    var s0: State := Init(parts);
    assert Reaches(1, parts, [], s0) by { ReachesInit(1, parts, []); }
    assert s0 == State([Job(Unsent, part, false)], [], 0, 1, [], [], []);
    var s1, s2 := StartJob(part);
    ReachesMore(1, parts, [], s0, Send);
    ReachesMore(1, parts, [] + [Send], s1, Take);
    var s3;
    s3, s := EndJob(part, panics);
    ReachesMore(1, parts, [] + [Send] + [Take], s2, x);
    ReachesMore(1, parts, [] + [Send] + [Take] + [x], s3, Flush);
    xs := [Send, Take, x, Flush];
    assert [] + [Send] + [Take] + [x] + [Flush] == xs;
  }

  lemma StartJob(part: seq<Row>) returns (s1: State, s2: State)
    ensures s1 == State([Job(Queued, part, false)], [0], 1, 1, [], [], [])
    ensures s2 == State([Job(Running, part, false)], [], 1, 1, [], [], [])
    ensures var s0 := State([Job(Unsent, part, false)], [], 0, 1, [], [], []);
            && Enabled(1, s0, Send) && Step(1, s0, Send) == s1
            && Enabled(1, s1, Take) && Step(1, s1, Take) == s2
  {
    s1 := State([Job(Queued, part, false)], [0], 1, 1, [], [], []);
    s2 := State([Job(Running, part, false)], [], 1, 1, [], [], []);
    assert InPhase(s1.jobs, Running) == 0 by { NoneInPhase(s1.jobs, Running); }
  }

  lemma EndJob(part: seq<Row>, panics: bool) returns (s3: State, s: State)
    requires part == [] || panics
    ensures s.flushes == [[]] && s.rows == []
    ensures var s2 := State([Job(Running, part, false)], [], 1, 1, [], [], []);
            var x := if panics then Panic(0) else Finish(0);
            && Enabled(1, s2, x) && Step(1, s2, x) == s3 && Enabled(1, s3, Flush) && Step(1, s3, Flush) == s
  {
    s3 := State([Job(Finished, part, panics)], [], 1, 0, [], [], []);
    s := s3.(flushes := [[]]);
  }

  lemma ReachesInit(workers: nat, parts: seq<seq<Row>>, xs: seq<Input>)
    requires xs == []
    ensures Reaches(workers, parts, xs, Init(parts))
  {
  }

  /** A panicking job loses rows although the handler goes on to flush and may return nil. */
  lemma PanicLosesRows(r: Row)
    ensures exists s :: Reaches(1, [[r]], [Send, Take, Panic(0), Flush], s) && s.flushes == [[]]
  {
    var xs, s := OneJob([r], true);
  }

  lemma ReachesMore(workers: nat, parts: seq<seq<Row>>, xs: seq<Input>, s: State, x: Input)
    requires Reaches(workers, parts, xs, s) && Enabled(workers, s, x)
    ensures Reaches(workers, parts, xs + [x], Step(workers, s, x))
  {
    hide Enabled, Step;
    assert (xs + [x])[..|xs|] == xs;
  }

  function Left(jobs: seq<Job>): nat
  {
    if jobs == [] then 0 else Left(jobs[..|jobs| - 1]) + |jobs[|jobs| - 1].todo|
  }

  lemma {:induction false} ByTotal(rows: seq<Row>, owner: seq<nat>, jobs: seq<Job>, parts: seq<seq<Row>>)
    requires |rows| == |owner| && |jobs| == |parts|
    requires forall j :: 0 <= j < |parts| ==> By(rows, owner, j) + jobs[j].todo == parts[j]
    ensures |AllBy(rows, owner, |parts|)| + Left(jobs) == |Concat(parts)|
  {
    hide By;
    if parts != [] {
      var n := |parts| - 1;
      ByTotal(rows, owner, jobs[..n], parts[..n]);
      assert |parts[n]| == |By(rows, owner, n)| + |jobs[n].todo|;
      assert |multiset(By(rows, owner, n))| == |By(rows, owner, n)|;
    }
  }

  lemma {:induction false} NothingLeft(jobs: seq<Job>)
    ensures Left(jobs) == 0 <==> forall j :: 0 <= j < |jobs| ==> jobs[j].todo == []
  {
    if jobs != [] {
      NothingLeft(jobs[..|jobs| - 1]);
    }
  }

  /** The flushed rows are all rows of the batch exactly when no job panics before its last row. */
  lemma AllRowsFlushedExactly(workers: nat, parts: seq<seq<Row>>, xs: seq<Input>, s: State)
    requires Reaches(workers, parts, xs, s) && s.flushes != []
    ensures multiset(s.flushes[0]) == multiset(Concat(parts)) <==>
            forall j :: 0 <= j < |parts| ==> !PanicsBefore(xs, j, |parts[j]|)
  {
    hide Reaches, PanicsBefore;
    RunKeeps(workers, parts, xs, s);
    ShuffleMultiset(s.rows, s.owner, |parts|);
    ByTotal(s.rows, s.owner, s.jobs, parts);
    NothingLeft(s.jobs);
    assert |multiset(Concat(parts))| == |Concat(parts)| && |multiset(s.rows)| == |s.rows|;
    forall j | 0 <= j < |parts| ensures s.jobs[j].todo == [] <==> !PanicsBefore(xs, j, |parts[j]|) {
      ShortExactlyWhen(workers, parts, xs, s, j, |parts[j]|);
      assert |parts[j]| == |By(s.rows, s.owner, j)| + |s.jobs[j].todo|;
    }
    if forall j :: 0 <= j < |s.jobs| ==> s.jobs[j].todo == [] {
      PartsMultiset(s.rows, s.owner, parts);
    }
  }

  // ---- Progress: with a worker, the handler always reaches the flush

  function Rank(jobs: seq<Job>): nat
  {
    if jobs == [] then 0
    else
      var job := jobs[|jobs| - 1];
      Rank(jobs[..|jobs| - 1]) + |job.todo| +
      match job.phase case Unsent => 3 case Queued => 2 case Running => 1 case Finished => 0
  }

  function Measure(s: State): nat
  {
    Rank(s.jobs) + if s.flushes == [] then 1 else 0
  }

  lemma {:induction false} RankUpdate(jobs: seq<Job>, j: nat, job: Job)
    requires j < |jobs|
    ensures Rank(jobs[j := job]) - Rank([job]) == Rank(jobs) - Rank([jobs[j]])
  {
    var n := |jobs| - 1;
    assert [job][..0] == [] && [jobs[j]][..0] == [];
    if j < n {
      RankUpdate(jobs[..n], j, job);
      assert jobs[j := job][..n] == jobs[..n][j := job];
    } else {
      assert jobs[j := job][..n] == jobs[..n];
    }
  }

  /** Every step brings the run closer to its end. */
  lemma StepDecreases(workers: nat, s: State, x: Input)
    requires Scheduled(workers, s) && Enabled(workers, s, x)
    ensures Measure(Step(workers, s, x)) < Measure(s)
  {
    var t := Step(workers, s, x);
    if !x.Flush? {
      var j := if x.Send? then s.sent else if x.Take? then s.queue[0] else x.j;
      RankUpdate(s.jobs, j, t.jobs[j]);
      assert [t.jobs[j]][..0] == [] && [s.jobs[j]][..0] == [];
    }
  }

  lemma NextStep(workers: nat, s: State) returns (x: Input)
    requires Scheduled(workers, s) && workers >= 1 && s.flushes == []
    ensures Enabled(workers, s, x)
  {
    hide InPhase;
    if j :| 0 <= j < |s.jobs| && s.jobs[j].phase == Running {
      x := if s.jobs[j].todo == [] then Finish(j) else AppendRow(j);
    } else if s.queue != [] {
      NoneInPhase(s.jobs, Running);
      assert s.queue[0] in s.queue;
      x := Take;
    } else if s.sent < |s.jobs| {
      x := Send;
    } else {
      InPhaseBound(s.jobs, Finished);
      x := Flush;
    }
  }

  /** As long as the batch has not been flushed some step is possible: the handler cannot get stuck. */
  lemma Progress(workers: nat, parts: seq<seq<Row>>, xs: seq<Input>, s: State)
    requires Reaches(workers, parts, xs, s) && workers >= 1 && s.flushes == []
    ensures exists x :: Enabled(workers, s, x)
  {
    hide RowsExplained, Scheduled, Enabled;
    RunKeeps(workers, parts, xs, s);
    var x := NextStep(workers, s);
  }

  lemma OnlyFlushFlushes(workers: nat, s: State, x: Input)
    requires Enabled(workers, s, x)
    ensures Step(workers, s, x).flushes == if x == Flush then s.flushes + [s.rows] else s.flushes
  {
  }

  /** Every run that has not flushed can be continued to the flush. */
  lemma {:induction false} CanFlush(workers: nat, parts: seq<seq<Row>>, xs: seq<Input>, s: State)
      returns (ys: seq<Input>, t: State)
    requires Reaches(workers, parts, xs, s) && workers >= 1 && s.flushes == []
    ensures Reaches(workers, parts, xs + ys, t) && t.flushes != []
    ensures ys != [] && ys[|ys| - 1] == Flush && forall i :: 0 <= i < |ys| - 1 ==> ys[i] != Flush
    decreases Measure(s)
  {
    hide RowsExplained, Scheduled, Enabled, Measure, Reaches, Step;
    RunKeeps(workers, parts, xs, s);
    var x := NextStep(workers, s);
    StepDecreases(workers, s, x);
    OnlyFlushFlushes(workers, s, x);
    ReachesMore(workers, parts, xs, s, x);
    if x == Flush {
      ys, t := [x], Step(workers, s, x);
    } else {
      var more;
      more, t := CanFlush(workers, parts, xs + [x], Step(workers, s, x));
      ys := [x] + more;
      assert xs + [x] + more == xs + ys;
    }
  }

  /** A run has at most as many steps as the initial measure says. */
  lemma {:induction false} RunsEnd(workers: nat, parts: seq<seq<Row>>, xs: seq<Input>, s: State)
    requires Reaches(workers, parts, xs, s)
    ensures |xs| + Measure(s) <= Measure(Init(parts))
  {
    if xs != [] {
      hide Measure, Enabled, Step, Init;
      var n := |xs| - 1;
      var p :| Reaches(workers, parts, xs[..n], p) && Enabled(workers, p, xs[n]) && s == Step(workers, p, xs[n]);
      RunsEnd(workers, parts, xs[..n], p);
      RunKeeps(workers, parts, xs[..n], p);
      StepDecreases(workers, p, xs[n]);
    }
  }

  /** The channel holds every job at once: sending never waits when there are no more jobs than workers. */
  lemma SendNeverWaits(workers: nat, parts: seq<seq<Row>>, xs: seq<Input>, s: State)
    requires Reaches(workers, parts, xs, s) && |parts| <= workers && s.sent < |s.jobs|
    ensures Enabled(workers, s, Send)
  {
    RunKeeps(workers, parts, xs, s);
    QueueFits(s.queue, s.sent);
  }

  lemma {:induction false} QueueFits(q: seq<nat>, n: nat)
    requires forall i, k :: 0 <= i < k < |q| ==> q[i] != q[k]
    requires forall j :: j in q ==> j < n
    ensures |q| <= n
  {
    if q != [] {
      assert q[0] in q;
      if i :| 0 <= i < |q| && q[i] == n - 1 {
        var q' := q[..i] + q[i + 1..];
        assert forall k :: 0 <= k < |q'| ==> q'[k] == if k < i then q[k] else q[k + 1];
        forall j | j in q' ensures j < n - 1 {
          var k :| 0 <= k < |q'| && q'[k] == j;
          assert q[if k < i then k else k + 1] in q;
        }
        QueueFits(q', n - 1);
      } else {
        assert forall j :: j in q ==> j != n - 1;
        QueueFits(q, n - 1);
      }
    }
  }
}
