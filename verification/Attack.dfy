/**
 The load generator's attack: a dispatcher puts tokens into a bounded channel, workers turn each token into a result on
 a second bounded channel, and the results channel is closed once the last worker has left. Channels behave as in Go:
 sending on a closed channel, closing twice and a negative wait group panic.
 */
module Attack {
  import opened Seqs

  /** The outcome of one call, successful or not, for one token. */
  datatype Result = Result(token: nat, error: bool)

  datatype Worker = Receiving | Invoking(token: nat) | Sending(result: Result) | Leaving | Exited

  datatype Dispatcher = Pacing | Offering | Ended

  datatype State = State(
    dispatcher: Dispatcher,
    dispatched: nat,           // history: tokens put into `jobs`, numbered from 0
    cancelled: bool,           // the context
    jobs: seq<nat>,
    jobsClosed: bool,
    workers: seq<Worker>,
    wg: int,                   // the wait group
    results: seq<Result>,
    resultsClosed: bool,
    closerDone: bool,
    emitted: seq<Result>,      // what the reader received
    readerDone: bool,
    panicked: bool)

  function Init(workers: nat): State
  {
    State(Pacing, 0, false, [], false, seq(workers, _ => Receiving), workers, [], false, false, [], false, false)
  }

  datatype Input =
    | Cancel                     // the context ends
    | Tick                       // the pacer asks for another hit and the wait for it is over
    | Stop                       // the pacer stops, the duration is over or the context ends: `jobs` is closed
    | Offer                      // the token goes into `jobs`
    | Take(w: nat)
    | Invoke(w: nat, error: bool)
    | SendResult(w: nat)
    | Drained(w: nat)            // the worker finds `jobs` closed and empty
    | Done(w: nat)
    | CloseResults
    | Read
    | ReadEnd

  /** Both channels hold twice as many elements as there are workers. */
  predicate Enabled(s: State, x: Input)
  {
    var capacity := 2 * |s.workers|;
    match x
    case Cancel => !s.cancelled
    case Tick => s.dispatcher.Pacing?
    case Stop => s.dispatcher.Pacing? || (s.dispatcher.Offering? && s.cancelled)
    case Offer => s.dispatcher.Offering? && (|s.jobs| < capacity || s.jobsClosed)
    case Take(w) => w < |s.workers| && s.workers[w].Receiving? && s.jobs != []
    case Invoke(w, _) => w < |s.workers| && s.workers[w].Invoking?
    case SendResult(w) => w < |s.workers| && s.workers[w].Sending? && (|s.results| < capacity || s.resultsClosed)
    case Drained(w) => w < |s.workers| && s.workers[w].Receiving? && s.jobs == [] && s.jobsClosed
    case Done(w) => w < |s.workers| && s.workers[w].Leaving?
    case CloseResults => s.wg == 0 && !s.closerDone
    case Read => s.results != [] && !s.readerDone
    case ReadEnd => s.results == [] && s.resultsClosed && !s.readerDone
  }

  function Step(s: State, x: Input): State
    requires Enabled(s, x)
  {
    match x
    case Cancel => s.(cancelled := true)
    case Tick => s.(dispatcher := Offering)
    case Stop => s.(dispatcher := Ended, jobsClosed := true, panicked := s.panicked || s.jobsClosed)
    case Offer =>
      if s.jobsClosed then s.(panicked := true)
      else s.(dispatcher := Pacing, jobs := s.jobs + [s.dispatched], dispatched := s.dispatched + 1)
    case Take(w) => s.(workers := s.workers[w := Invoking(s.jobs[0])], jobs := s.jobs[1..])
    case Invoke(w, error) => s.(workers := s.workers[w := Sending(Result(s.workers[w].token, error))])
    case SendResult(w) =>
      if s.resultsClosed then s.(panicked := true)
      else s.(workers := s.workers[w := Receiving], results := s.results + [s.workers[w].result])
    case Drained(w) => s.(workers := s.workers[w := Leaving])
    case Done(w) => s.(workers := s.workers[w := Exited], wg := s.wg - 1, panicked := s.panicked || s.wg < 1)
    case CloseResults => s.(closerDone := true, resultsClosed := true, panicked := s.panicked || s.resultsClosed)
    case Read => s.(results := s.results[1..], emitted := s.emitted + [s.results[0]])
    case ReadEnd => s.(readerDone := true)
  }

  /** `xs` leads from `p` to `s`. */
  ghost predicate Leads(p: State, xs: seq<Input>, s: State)
  {
    if xs == [] then s == p
    else
      var n := |xs| - 1;
      exists q :: Leads(p, xs[..n], q) && Enabled(q, xs[n]) && s == Step(q, xs[n])
  }

  ghost predicate Reaches(workers: nat, xs: seq<Input>, s: State)
  {
    Leads(Init(workers), xs, s)
  }

  // ---- Where a token can be

  function IsToken(t: nat): nat -> bool
  {
    (j: nat) => j == t
  }

  function Has(t: nat): Worker -> bool
  {
    (w: Worker) => (w.Invoking? && w.token == t) || (w.Sending? && w.result.token == t)
  }

  function IsResultOf(t: nat): Result -> bool
  {
    (r: Result) => r.token == t
  }

  const WORKING: Worker -> bool := (w: Worker) => !w.Exited?
  const BUSY: Worker -> bool := (w: Worker) => w.Invoking? || w.Sending?

  /** How often token `t` or its result is found in the channels, with the workers and among the results read. */
  function Places(s: State, t: nat): nat
  {
    Count(IsToken(t), s.jobs) + Count(Has(t), s.workers) + Count(IsResultOf(t), s.results) +
      Count(IsResultOf(t), s.emitted)
  }

  ghost predicate EachOnce(s: State)
  {
    && (forall t: nat :: Places(s, t) == One(t < s.dispatched))
    && |s.jobs| + Count(BUSY, s.workers) + |s.results| + |s.emitted| == s.dispatched
  }

  predicate Orderly(workers: nat, s: State)
  {
    && |s.workers| == workers && !s.panicked
    && s.wg == Count(WORKING, s.workers)
    && (s.jobsClosed <==> s.dispatcher.Ended?)
    && (s.resultsClosed <==> s.closerDone)
    && (s.resultsClosed ==> s.wg == 0)
    && (s.readerDone ==> s.resultsClosed && s.results == [])
    && (forall w :: w in s.workers && (w.Leaving? || w.Exited?) ==> s.jobsClosed && s.jobs == [])
    && |s.jobs| <= 2 * workers && |s.results| <= 2 * workers
    && (s.workers == [] ==> s.jobs == [])
  }

  /** The wait group cannot have reached zero while some worker is still working. */
  lemma WorkingMeansOpen(workers: nat, s: State, w: nat)
    requires Orderly(workers, s) && w < |s.workers| && !s.workers[w].Exited?
    ensures s.wg >= 1 && !s.resultsClosed
  {
    hide Count;
    assert s.workers[w] in s.workers && WORKING(s.workers[w]);
    CountNone(WORKING, s.workers);
  }

  lemma StepOrderly(workers: nat, s: State, x: Input)
    requires Orderly(workers, s) && Enabled(s, x)
    ensures Orderly(workers, Step(s, x))
  {
    hide Count;
    var t := Step(s, x);
    if x.Take? || x.Invoke? || x.SendResult? || x.Drained? || x.Done? {
      WorkingMeansOpen(workers, s, x.w);
      CountUpdate(WORKING, s.workers, x.w, t.workers[x.w]);
      forall w | w in t.workers && (w.Leaving? || w.Exited?) ensures t.jobsClosed && t.jobs == [] {
        assert w in s.workers || w == t.workers[x.w];
        assert s.workers[x.w] in s.workers;
      }
    }
  }

  lemma StepEachOnce(workers: nat, s: State, x: Input)
    requires Orderly(workers, s) && EachOnce(s) && Enabled(s, x)
    ensures EachOnce(Step(s, x))
  {
    hide Count;
    var u := Step(s, x);
    if x.Take? || x.Invoke? || x.SendResult? || x.Drained? || x.Done? {
      WorkingMeansOpen(workers, s, x.w);
      CountUpdate(BUSY, s.workers, x.w, u.workers[x.w]);
    }
    forall t: nat ensures Places(u, t) == One(t < u.dispatched) {
      assert Places(s, t) == One(t < s.dispatched);
      StepPlaces(workers, s, x, t);
    }
  }

  /** A step moves a token from one place to another; only `Offer` adds one. */
  lemma StepPlaces(workers: nat, s: State, x: Input, t: nat)
    requires Orderly(workers, s) && Enabled(s, x)
    ensures Places(Step(s, x), t) == Places(s, t) + One(x.Offer? && t == s.dispatched)
  {
    hide Count;
    var u := Step(s, x);
    match x
    case Offer => CountSnoc(IsToken(t), s.jobs, s.dispatched);
    case Take(w) =>
      CountHead(IsToken(t), s.jobs);
      CountUpdate(Has(t), s.workers, w, u.workers[w]);
    case SendResult(w) =>
      WorkingMeansOpen(workers, s, w);
      CountUpdate(Has(t), s.workers, w, Receiving);
      CountSnoc(IsResultOf(t), s.results, s.workers[w].result);
    case Invoke(w, _) => CountUpdate(Has(t), s.workers, w, u.workers[w]);
    case Drained(w) => CountUpdate(Has(t), s.workers, w, u.workers[w]);
    case Done(w) => CountUpdate(Has(t), s.workers, w, u.workers[w]);
    case Read =>
      CountHead(IsResultOf(t), s.results);
      CountSnoc(IsResultOf(t), s.emitted, s.results[0]);
    case _ =>
  }

  lemma InitIsFine(workers: nat)
    ensures Orderly(workers, Init(workers)) && EachOnce(Init(workers))
  {
    hide Count;
    var s := Init(workers);
    AllWorking(s.workers);
    CountNone(BUSY, s.workers);
    forall t: nat ensures Places(s, t) == 0 {
      CountNone(IsToken(t), s.jobs);
      CountNone(Has(t), s.workers);
      CountNone(IsResultOf(t), s.results);
    }
  }

  lemma {:induction false} AllWorking(ws: seq<Worker>)
    ensures Count(WORKING, ws) <= |ws|
    ensures Count(WORKING, ws) == |ws| <==> forall w :: w in ws ==> WORKING(w)
  {
    if ws != [] {
      var init, last := ws[..|ws| - 1], ws[|ws| - 1];
      AllWorking(init);
      assert forall w :: w in ws <==> w in init || w == last;
    }
  }

  lemma {:induction false} LeadsKeeps(workers: nat, p: State, xs: seq<Input>, s: State)
    requires Leads(p, xs, s) && Orderly(workers, p) && EachOnce(p)
    ensures Orderly(workers, s) && EachOnce(s)
  {
    hide Orderly, EachOnce, Enabled, Step;
    if xs != [] {
      var n := |xs| - 1;
      var q :| Leads(p, xs[..n], q) && Enabled(q, xs[n]) && s == Step(q, xs[n]);
      LeadsKeeps(workers, p, xs[..n], q);
      StepOrderly(workers, q, xs[n]);
      StepEachOnce(workers, q, xs[n]);
    }
  }

  // ---- Whole-run properties

  /**
   In every run nothing panics: no send on a closed channel, no channel closed twice, no negative wait group. The
   results channel is closed only after every worker has exited.
   */
  lemma NeverPanics(workers: nat, xs: seq<Input>, s: State)
    requires Reaches(workers, xs, s)
    ensures !s.panicked
    ensures s.resultsClosed ==> s.jobsClosed || workers == 0
    ensures s.resultsClosed ==> forall w :: w in s.workers ==> w.Exited?
  {
    hide Count;
    InitIsFine(workers);
    LeadsKeeps(workers, Init(workers), xs, s);
    CountNone(WORKING, s.workers);
    if s.resultsClosed && workers > 0 {
      assert s.workers[0] in s.workers;
    }
  }

  /** Step `i` of the run is the call for the result's token, and ended as the result says. */
  ghost predicate CallAt(workers: nat, xs: seq<Input>, r: Result, i: nat)
  {
    && i < |xs| && xs[i].Invoke? && xs[i].error == r.error
    && exists q :: Reaches(workers, xs[..i], q) && xs[i].w < |q.workers| && q.workers[xs[i].w] == Invoking(r.token)
  }

  ghost predicate Called(workers: nat, xs: seq<Input>, r: Result)
  {
    exists i: nat :: CallAt(workers, xs, r, i)
  }

  lemma CalledBefore(workers: nat, xs: seq<Input>, n: nat, r: Result)
    requires n <= |xs| && Called(workers, xs[..n], r)
    ensures Called(workers, xs, r)
  {
    hide Reaches;
    var i: nat :| CallAt(workers, xs[..n], r, i);
    assert xs[..n][..i] == xs[..i] && CallAt(workers, xs, r, i);
  }

  lemma CallIsCalled(workers: nat, xs: seq<Input>, r: Result, i: nat)
    requires CallAt(workers, xs, r, i)
    ensures Called(workers, xs, r)
  {
  }

  /** A result that is sent, queued or read tells how the call for its own token ended. */
  lemma {:induction false} ResultsAreOfCalls(workers: nat, xs: seq<Input>, s: State)
    requires Reaches(workers, xs, s)
    ensures forall r :: r in s.emitted || r in s.results || Sending(r) in s.workers ==> Called(workers, xs, r)
  {
    hide Called;
    if xs != [] {
      var n := |xs| - 1;
      var q :| Leads(Init(workers), xs[..n], q) && Enabled(q, xs[n]) && s == Step(q, xs[n]);
      ResultsAreOfCalls(workers, xs[..n], q);
      forall r | r in s.emitted || r in s.results || Sending(r) in s.workers ensures Called(workers, xs, r) {
        if r in q.emitted || r in q.results || Sending(r) in q.workers {
          CalledBefore(workers, xs, n, r);
        } else {
          NewResult(q, xs[n], r);
          assert CallAt(workers, xs, r, n);
          assert Called(workers, xs, r) by { CallIsCalled(workers, xs, r, n); }
        }
      }
    }
  }

  /** Only a call makes a new result. */
  lemma NewResult(q: State, x: Input, r: Result)
    requires Enabled(q, x)
    requires var s := Step(q, x); r in s.emitted || r in s.results || Sending(r) in s.workers
    requires r !in q.emitted && r !in q.results && Sending(r) !in q.workers
    ensures x.Invoke? && x.w < |q.workers| && q.workers[x.w].Invoking? && r == Result(q.workers[x.w].token, x.error)
  {
    if x.Invoke? {
      assert Sending(r) in Step(q, x).workers;
    }
  }

  /** When the reader sees the end, it has received exactly one result for every token dispatched, and nothing else. */
  lemma OneResultPerToken(workers: nat, xs: seq<Input>, s: State)
    requires Reaches(workers, xs, s)
    ensures forall t: nat :: Count(IsResultOf(t), s.emitted) <= One(t < s.dispatched)
    ensures s.readerDone ==> |s.emitted| == s.dispatched
    ensures s.readerDone ==> forall t: nat :: Count(IsResultOf(t), s.emitted) == One(t < s.dispatched)
  {
    hide Count;
    InitIsFine(workers);
    LeadsKeeps(workers, Init(workers), xs, s);
    if s.readerDone {
      NeverPanics(workers, xs, s);
      CountNone(BUSY, s.workers);
      assert s.jobs == [] by { if workers > 0 { assert s.workers[0] in s.workers; } }
    }
    hide Leads, Orderly;
    forall t: nat ensures Count(IsResultOf(t), s.emitted) <= One(t < s.dispatched)
      ensures s.readerDone ==> Count(IsResultOf(t), s.emitted) == One(t < s.dispatched)
    {
      CountNone(IsToken(t), s.jobs);
      CountNone(Has(t), s.workers);
      CountNone(IsResultOf(t), s.results);
      assert Places(s, t) == One(t < s.dispatched);
    }
  }

  /** No step but the end of the context is possible. */
  ghost predicate Stuck(s: State)
  {
    forall x :: Enabled(s, x) ==> x.Cancel?
  }

  /**
   Some step other than a cancellation is possible unless all is over, or no worker exists to take the token offered.
   */
  lemma StuckExactlyWhen(workers: nat, xs: seq<Input>, s: State)
    requires Reaches(workers, xs, s)
    ensures Stuck(s) <==>
            s.readerDone && (s.dispatcher.Ended? || (workers == 0 && s.dispatcher.Offering? && !s.cancelled))
  {
    hide Count;
    InitIsFine(workers);
    LeadsKeeps(workers, Init(workers), xs, s);
    NeverPanics(workers, xs, s);
    hide EachOnce, Leads;
    CountNone(WORKING, s.workers);
    if !s.readerDone {
      var x := SomeStep(workers, s);
      assert Enabled(s, x) && !x.Cancel?;
    } else {
      if s.dispatcher.Pacing? {
        assert Enabled(s, Tick);
      }
      if s.dispatcher.Offering? {
        assert Enabled(s, Offer) <==> workers > 0;
        assert Enabled(s, Stop) <==> s.cancelled;
      }
      forall w | 0 <= w < |s.workers| ensures s.workers[w].Exited? {
        assert s.workers[w] in s.workers;
      }
    }
  }

  /** As long as the reader waits for results, something can happen. */
  lemma SomeStep(workers: nat, s: State) returns (x: Input)
    requires Orderly(workers, s) && !s.readerDone
    ensures Enabled(s, x) && !x.Cancel?
  {
    hide Count;
    CountNone(WORKING, s.workers);
    if s.results != [] {
      x := Read;
    } else if s.resultsClosed {
      x := ReadEnd;
    } else if s.wg == 0 {
      x := CloseResults;
    } else if s.dispatcher.Pacing? {
      x := Tick;
    } else {
      var worker :| worker in s.workers && WORKING(worker);
      var w :| 0 <= w < |s.workers| && s.workers[w] == worker;
      if worker.Receiving? {
        x := if s.jobs != [] then Take(w) else if s.jobsClosed then Drained(w) else Offer;
      } else if worker.Invoking? {
        x := Invoke(w, false);
      } else {
        x := if worker.Sending? then SendResult(w) else Done(w);
      }
    }
  }

  // ---- Once the dispatcher has stopped, every run ends

  function Weight(w: Worker): nat
  {
    match w case Invoking(_) => 5 case Sending(_) => 4 case Receiving => 2 case Leaving => 1 case Exited => 0
  }

  function Weigh(ws: seq<Worker>): nat
  {
    if ws == [] then 0 else Weigh(ws[..|ws| - 1]) + Weight(ws[|ws| - 1])
  }

  lemma {:induction false} WeighUpdate(ws: seq<Worker>, i: nat, w: Worker)
    requires i < |ws|
    ensures Weigh(ws[i := w]) == Weigh(ws) - Weight(ws[i]) + Weight(w)
  {
    var n := |ws| - 1;
    if i < n {
      WeighUpdate(ws[..n], i, w);
      assert ws[i := w][..n] == ws[..n][i := w];
    } else {
      assert ws[i := w][..n] == ws[..n];
    }
  }

  function Remaining(s: State): nat
  {
    4 * |s.jobs| + Weigh(s.workers) + |s.results| + One(!s.closerDone) + One(!s.readerDone) + One(!s.cancelled)
  }

  lemma StepDecreases(workers: nat, s: State, x: Input)
    requires Orderly(workers, s) && s.dispatcher.Ended? && Enabled(s, x)
    ensures Step(s, x).dispatcher.Ended? && Remaining(Step(s, x)) < Remaining(s)
  {
    hide Weigh, Count;
    if x.Take? || x.Invoke? || x.SendResult? || x.Drained? || x.Done? {
      WorkingMeansOpen(workers, s, x.w);
      WeighUpdate(s.workers, x.w, Step(s, x).workers[x.w]);
    }
  }

  /**
   After the dispatcher has stopped, a run has at most `Remaining` more steps: with `StuckExactlyWhen`, it terminates.
   */
  lemma {:induction false} RunsEnd(workers: nat, xs: seq<Input>, p: State, ys: seq<Input>, s: State)
    requires Reaches(workers, xs, p) && p.dispatcher.Ended? && Leads(p, ys, s)
    ensures |ys| + Remaining(s) <= Remaining(p) && s.dispatcher.Ended?
  {
    if ys != [] {
      var n := |ys| - 1;
      var q :| Leads(p, ys[..n], q) && Enabled(q, ys[n]) && s == Step(q, ys[n]);
      RunsEnd(workers, xs, p, ys[..n], q);
      InitIsFine(workers);
      LeadsKeeps(workers, Init(workers), xs, p);
      LeadsKeeps(workers, p, ys[..n], q);
      hide Orderly, EachOnce, Enabled, Step, Remaining;
      StepDecreases(workers, q, ys[n]);
    }
  }
}
