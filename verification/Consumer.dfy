/**
 The consumer object: its loop and flush as methods on mutable state, proved to take the steps of module
 Delivery.
 */
module Consumer {
  import opened Seqs
  import opened Delivery

  lemma {:induction false} DeliveriesAt(xs: seq<Item>)
    ensures |Deliveries(xs)| == |xs| && forall i :: 0 <= i < |xs| ==> Deliveries(xs)[i] == xs[i].d
  {
    if xs != [] {
      DeliveriesAt(xs[..|xs| - 1]);
    }
  }

  /** The state after a list of inputs, each enabled in turn. */
  ghost predicate Legal(c: Config, s: State, xs: seq<Input>)
    decreases |xs|
  {
    xs == [] || (Enabled(c, s, xs[0]) && Legal(c, Step(c, s, xs[0]), xs[1..]))
  }

  ghost function Run(c: Config, s: State, xs: seq<Input>): State
    requires Legal(c, s, xs)
    decreases |xs|
  {
    if xs == [] then s else Run(c, Step(c, s, xs[0]), xs[1..])
  }

  lemma RunStep(c: Config, s: State, xs: seq<Input>)
    requires Legal(c, s, xs) && xs != []
    ensures Enabled(c, s, xs[0]) && Legal(c, Step(c, s, xs[0]), xs[1..])
    ensures Run(c, s, xs) == Run(c, Step(c, s, xs[0]), xs[1..])
  {
    hide Enabled, Step;
  }

  /** Runs are what the whole-run theorems speak about. */
  lemma {:induction false} RunReaches(c: Config, before: seq<Input>, s: State, xs: seq<Input>)
    requires Reaches(c, before, s) && Legal(c, s, xs)
    ensures Reaches(c, before + xs, Run(c, s, xs))
    decreases |xs|
  {
    hide Reaches, Enabled, Step;
    if xs == [] {
      assert before + xs == before;
    } else {
      hide Legal, Run;
      RunStep(c, s, xs);
      ReachesMore(c, before, s, xs[0]);
      RunReaches(c, before + [xs[0]], Step(c, s, xs[0]), xs[1..]);
      assert before + [xs[0]] + xs[1..] == before + xs;
    }
  }

  class NatsJSConsumer {
    const config: Config
    var msgCh: seq<Delivery>
    var batch: seq<Delivery>
    var stopped: bool
    var log: seq<Event>
    var callbackLog: seq<Event>
    /** The broker's side and the histories; its other components are not used. */
    var world: State

    ghost function Abs(): State
      reads this
    {
      world.(ch := msgCh, batch := batch, stopped := stopped, log := log, callbackLog := callbackLog)
    }

    constructor (config: Config)
      ensures Abs() == INIT && this.config == config
    {
      this.config := config;
      msgCh, batch, stopped, log, callbackLog := [], [], false, [], [];
      world := INIT;
    }

    method Call(e: Event)
      modifies this`log
      ensures log == old(log) + [e]
    {
      log := log + [e];
    }

    method FlushBatch(out: Flushed)
      requires Deliveries(out.items) == batch
      modifies this
      ensures Abs() == Flush(config, old(Abs()), out)
    {
      hide FlatMap, Config.Threshold, Delay, Deliveries, Payloads;
      if |batch| == 0 { return; }
      var payloads := [];
      for i := 0 to |batch|
        invariant payloads == Payloads(batch)[..i]
      {
        payloads := payloads + [batch[i].msg];
      }
      assert payloads == Payloads(batch);
      Call(Handle(batch, payloads, out.ok));
      ghost var start := log;
      FlatMapNone(SettleOne(config, out.ok));
      DeliveriesAt(out.items);
      for i := 0 to |batch|
        invariant batch == Deliveries(out.items) && |batch| == |out.items|
        invariant log == start + FlatMap(SettleOne(config, out.ok), out.items[..i])
        invariant Abs() == old(Abs()).(log := log)
      {
        DeliveriesAt(out.items);
        var msg, readable, dlqOk := batch[i], out.items[i].readable, out.items[i].dlqOk;
        if out.ok {
          Call(Ack(msg));
        } else if !readable {
          Call(NakWithDelay(msg, UNREADABLE_DELAY));
        } else if msg.num >= config.Threshold() {
          Call(Dlq(msg, msg.msg.payload, msg.msg.headers, dlqOk));
          Call(Ack(msg));
        } else {
          Call(NakWithDelay(msg, Delay(config.backoff, msg.num)));
        }
        FlatMapSnoc(SettleOne(config, out.ok), out.items[..i], out.items[i]);
        assert out.items[..i + 1] == out.items[..i] + [out.items[i]];
      }
      assert out.items[..|batch|] == out.items;
      world := world.(handled := world.handled + [out]);
      batch := [];
    }

    /** Takes a delivery into the batch and flushes when it is full. */
    method Receive(msg: Delivery, out: Flushed)
      requires Deliveries(out.items) == batch + [msg]
      modifies this
      ensures Abs() == Take(config, old(Abs()), msg, out)
    {
      batch := batch + [msg];
      if |batch| >= config.maxBatch {
        FlushBatch(out);
      }
    }

    /** The callback given to the broker. */
    method OnMessage(msg: Delivery, refuse: bool)
      modifies this
      ensures Abs() == if refuse then old(Abs()).(rejected := old(Abs()).rejected + [msg],
                                                  callbackLog := old(Abs()).callbackLog + [Nak(msg)])
                       else old(Abs()).(ch := old(Abs()).ch + [msg], accepted := old(Abs()).accepted + [msg])
    {
      if refuse {
        callbackLog := callbackLog + [Nak(msg)];
        world := world.(rejected := world.rejected + [msg]);
      } else {
        msgCh := msgCh + [msg];
        world := world.(accepted := world.accepted + [msg]);
      }
    }

    /** One thing that happens: a case of the loop's select, or a step of the broker or the environment. */
    method Select(x: Input)
      requires Enabled(config, Abs(), x)
      modifies this
      ensures Abs() == Step(config, old(Abs()), x)
    {
      hide Flush;
      match x
      case Receive(out) =>
        var msg := msgCh[0];
        msgCh := msgCh[1..];
        Receive(msg, out);
      case Timer(out) =>
        FlushBatch(out);
      case Shutdown(out) =>
        FlushBatch(out);
        stopped := true;
      case Publish(m) =>
        world := world.(published := world.published + [m]);
      case Deliver(id, refuse) =>
        var msg := NextDelivery(id);
        OnMessage(msg, refuse);
      case HandOff(id, out) =>
        var msg := NextDelivery(id);
        world := world.(accepted := world.accepted + [msg]);
        Receive(msg, out);
      case Cancel =>
        world := world.(cancelled := true);
      case AckArrives(id) =>
        world := world.(acked := world.acked + {id});
    }

    /** The broker's next delivery of a message, counted. */
    method NextDelivery(id: nat) returns (msg: Delivery)
      requires id < |world.published|
      modifies this`world
      ensures msg == Next(old(Abs()), id) && Abs() == Counting(old(Abs()), msg)
    {
      msg := Next(world, id);
      world := Counting(world, msg);
    }

    /** The loop, driven by everything that happens around it. */
    method ConsumeLogs(xs: seq<Input>)
      requires Legal(config, Abs(), xs)
      modifies this
      ensures Abs() == Run(config, old(Abs()), xs)
    {
      for i := 0 to |xs|
        invariant Legal(config, Abs(), xs[i..]) && Run(config, Abs(), xs[i..]) == Run(config, old(Abs()), xs)
      {
        assert xs[i..][0] == xs[i] && xs[i..][1..] == xs[i + 1..];
        Select(xs[i]);
      }
    }
  }
}
