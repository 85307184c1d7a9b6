/**
 Consumer, worker pool, flattening and column store together: what an acknowledgement says about the database, and
 exactly when it says nothing.
 */
module Pipeline {
  import opened Seqs
  import opened Columns
  import opened Storage
  import opened Process
  import opened Handler
  import D = Delivery
  import C = Consumer
  import W = WorkerPool

  // ---- Handler calls

  /** One call of the handler with a batch: how its jobs interleaved, where that led, and whether it returned nil. */
  datatype Call = Call(messages: seq<Timed>, xs: seq<W.Input>, end: W.State, ok: bool)

  /** The columns a call inserted. */
  const INSERTED: Call -> seq<Cols> := (call: Call) => if call.ok then [ColumnsOf(StoredAll(call.end.rows))] else []

  function Database(calls: seq<Call>): seq<Cols>
  {
    FlatMap(INSERTED, calls)
  }

  /** The messages of a batch with the times at which they were processed. */
  predicate TimedBatch(messages: seq<Timed>, batch: seq<D.Delivery>)
  {
    |messages| == |batch| && forall i :: 0 <= i < |batch| ==> messages[i].msg == batch[i].msg
  }

  /** The call that a flush made. */
  ghost predicate CallOf(c: Codecs, workers: nat, call: Call, h: D.Flushed)
    requires workers > 0
  {
    && TimedBatch(call.messages, D.HANDLED_IN(h)) && call.ok == h.ok
    && Schedule(c, workers, call.messages, call.xs, call.end) && call.end.flushes == [call.end.rows]
  }

  ghost predicate Explains(c: Codecs, workers: nat, handled: seq<D.Flushed>, calls: seq<Call>)
    requires workers > 0
  {
    |calls| == |handled| && forall i :: 0 <= i < |calls| ==> CallOf(c, workers, calls[i], handled[i])
  }

  // ---- The worker program: the consumer with the pool's handler

  /** The batch that a step hands to the handler; empty if it makes no call. */
  function BatchOf(c: D.Config, s: D.State, x: D.Input): seq<D.Delivery>
  {
    match x
    case Receive(_) =>
      if s.ch == [] || |s.batch| + 1 < c.maxBatch then [] else s.batch + [s.ch[0]]
    case HandOff(id, _) =>
      if id >= |s.published| || |s.batch| + 1 < c.maxBatch then [] else s.batch + [D.Next(s, id)]
    case Timer(_) => s.batch
    case Shutdown(_) => s.batch
    case _ => []
  }

  /** The same step with another answer of the handler. */
  function WithAnswer(x: D.Input, ok: bool): D.Input
  {
    match x
    case Receive(out) => D.Receive(out.(ok := ok))
    case HandOff(id, out) => D.HandOff(id, out.(ok := ok))
    case Timer(out) => D.Timer(out.(ok := ok))
    case Shutdown(out) => D.Shutdown(out.(ok := ok))
    case _ => x
  }

  /** What a step adds to the handled batches. */
  lemma StepHandles(c: D.Config, s: D.State, x: D.Input)
    requires D.Enabled(c, s, x)
    ensures D.Enabled(c, s, WithAnswer(x, true)) && D.Enabled(c, s, WithAnswer(x, false))
    ensures BatchOf(c, s, WithAnswer(x, true)) == BatchOf(c, s, x) == BatchOf(c, s, WithAnswer(x, false))
    ensures if BatchOf(c, s, x) == [] then D.Step(c, s, x).handled == s.handled
            else (x.Receive? || x.HandOff? || x.Timer? || x.Shutdown?) && D.HANDLED_IN(x.out) == BatchOf(c, s, x) &&
                 D.Step(c, s, x).handled == s.handled + [x.out]
  {
    hide D.FlushCalls, D.Deliveries;
  }

  class Worker {
    const consumer: C.NatsJSConsumer
    const store: ClickHouseStore
    const codecs: Codecs
    const workers: nat
    const estimatedRows: int
    ghost var steps: seq<D.Input>
    ghost var calls: seq<Call>

    /** The consumer is in a state of a run, and the store holds what the handler's calls inserted. */
    ghost predicate Valid()
      reads this, consumer, store, store.batchPool
    {
      && workers > 0 && store.batchPool.Valid()
      && D.Reaches(consumer.config, steps, consumer.Abs())
      && Explains(codecs, workers, consumer.Abs().handled, calls)
      && store.logs == Database(calls)
    }

    constructor (config: D.Config, poolSize: nat, rowLimit: int, codecs: Codecs, workers: nat, estimatedRows: int)
      requires workers > 0
      ensures Valid() && steps == [] && calls == [] && consumer.config == config
      ensures fresh(consumer) && fresh(store) && fresh(store.batchPool)
    {
      consumer := new C.NatsJSConsumer(config);
      store := new ClickHouseStore(poolSize, rowLimit);
      this.codecs, this.workers, this.estimatedRows := codecs, workers, estimatedRows;
      steps, calls := [], [];
    }

    /**
     One thing that happens. A step that flushes a batch calls the handler; `messages`, `xs` and `end` say when the
     messages were processed and how the jobs interleaved. The handler's answer decides what the step does.
     */
    method Select(x: D.Input, messages: seq<Timed>, xs: seq<W.Input>, ghost end: W.State) returns (y: D.Input)
      requires Valid() && D.Enabled(consumer.config, consumer.Abs(), x)
      requires TimedBatch(messages, BatchOf(consumer.config, consumer.Abs(), x))
      requires messages != [] ==> Schedule(codecs, workers, messages, xs, end)
      modifies this, consumer, store, store.batchPool, store.batchPool.Batches()
      ensures Valid() && (y == WithAnswer(x, true) || y == WithAnswer(x, false) || y == x)
      ensures D.Enabled(consumer.config, old(consumer.Abs()), y)
      ensures consumer.Abs() == D.Step(consumer.config, old(consumer.Abs()), y) && steps == old(steps) + [y]
    {
      hide Schedule, D.Enabled, D.Step, D.Reaches, Explains, CallOf, Database, BatchOf;
      ghost var s, config := consumer.Abs(), consumer.config;
      StepHandles(config, s, x);
      y := x;
      if |messages| > 0 {
        var ok := ConsumeCallback(store, estimatedRows, workers, codecs, messages, xs, end);
        y := WithAnswer(x, ok);
        ghost var call := Call(messages, xs, end, ok);
        OneMore(calls, call);
        calls := calls + [call];
      }
      StepHandles(config, s, y);
      MoreExplained(codecs, workers, config, s, y, old(calls), calls);
      D.ReachesMore(config, steps, s, y);
      consumer.Select(y);
      steps := steps + [y];
    }
  }

  lemma OneMore(calls: seq<Call>, call: Call)
    ensures Database(calls + [call]) == Database(calls) + INSERTED(call)
  {
    FlatMapSnoc(INSERTED, calls, call);
  }

  lemma MoreExplained(c: Codecs, workers: nat, config: D.Config, s: D.State, y: D.Input, was: seq<Call>,
    calls: seq<Call>)
    requires workers > 0 && Explains(c, workers, s.handled, was) && D.Enabled(config, s, y)
    requires var batch := BatchOf(config, s, y);
             if batch == [] then calls == was
             else |calls| == |was| + 1 && calls[..|was|] == was &&
                  var call := calls[|was|];
                  TimedBatch(call.messages, batch) && Schedule(c, workers, call.messages, call.xs, call.end) &&
                  call.end.flushes == [call.end.rows] && exists x :: y == WithAnswer(x, call.ok)
    ensures Explains(c, workers, D.Step(config, s, y).handled, calls)
  {
    hide Schedule, D.FlushCalls, D.Deliveries;
    StepHandles(config, s, y);
  }
}
