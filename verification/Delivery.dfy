/**
 The durable consumer: a broker that redelivers, the bounded channel between its callback and the
 batching loop, and the loop's flush, which acknowledges, negatively acknowledges or dead-letters every
 message of a batch. A run is any sequence of steps by broker, callback, loop and environment.
 */
module Delivery {
  import opened Bytes
  import opened Seqs

  type Headers = map<string, seq<string>>

  datatype Message = Message(payload: seq<byte>, headers: Headers)

  /** One delivery of message number `id`; `num` is its NumDelivered. */
  datatype Delivery = Delivery(id: nat, msg: Message, num: nat)

  /** The externally visible calls of the loop and the callback. `published` is the dead-letter callback's answer. */
  datatype Event =
    | Handle(batch: seq<Delivery>, payloads: seq<Message>, ok: bool)
    | Dlq(d: Delivery, payload: seq<byte>, headers: Headers, published: bool)
    | Ack(d: Delivery)
    | NakWithDelay(d: Delivery, delay: int)
    | Nak(d: Delivery)

  datatype Config = Config(maxBatch: nat, maxDeliver: int, backoff: seq<int>) {
    /** `maxDeliver`, a 64-bit integer, as the consumer stores it: cast to unsigned. */
    function Threshold(): int
    {
      if maxDeliver >= 0 then maxDeliver else maxDeliver + 0x1_0000_0000_0000_0000
    }
  }

  /**
   A delivery in a flush, whether its metadata can be read, and what the dead-letter callback answers if it is called
   for it.
   */
  datatype Item = Item(d: Delivery, readable: bool, dlqOk: bool)

  datatype Flushed = Flushed(items: seq<Item>, ok: bool)

  // ---- Delays

  const MAX_COUNT := 0x8000_0000_0000_0000

  /** A 64-bit unsigned count read as a signed number. */
  function Signed(num: nat): int
  {
    if num < MAX_COUNT then num else num - 2 * MAX_COUNT
  }

  /**
   The index the delay calculator uses. Subtracting one from the most negative signed number wraps around to
   the largest.
   */
  function DelayIndex(backoff: seq<int>, num: nat): int
    requires backoff != []
  {
    if Signed(num) >= |backoff| then |backoff| - 1
    else
      var i := if Signed(num) == -MAX_COUNT then MAX_COUNT - 1 else Signed(num) - 1;
      if i > 0 then i else 0
  }

  /** The delay for a delivery count; `DelayPanics` says for which counts the code has none to return. */
  function Delay(backoff: seq<int>, num: nat): int
  {
    if backoff == [] || !(0 <= DelayIndex(backoff, num) < |backoff|) then 0 else backoff[DelayIndex(backoff, num)]
  }

  /** Of all 64-bit delivery counts, only 2^63 makes the calculator panic, and only with a non-empty list. */
  lemma DelayPanics(backoff: seq<int>, num: nat)
    requires num < 0x1_0000_0000_0000_0000 && 0 < |backoff| < MAX_COUNT
    ensures !(0 <= DelayIndex(backoff, num) < |backoff|) <==> num == MAX_COUNT
  {
  }

  /** Delivery k waits for the k-th delay of the list, and for the last one when the list has run out. */
  lemma DelayOfDelivery(backoff: seq<int>, k: nat)
    requires backoff != [] && 1 <= k < MAX_COUNT
    ensures Delay(backoff, k) == backoff[if k <= |backoff| then k - 1 else |backoff| - 1]
  {
  }

  predicate Sorted(s: seq<int>)
  {
    forall i, j :: 0 <= i < j < |s| ==> s[i] <= s[j]
  }

  /** Delays never shrink from one delivery to a later one when the list is sorted. */
  lemma DelaysGrow(backoff: seq<int>, m: nat, n: nat)
    requires Sorted(backoff) && m <= n < MAX_COUNT
    ensures Delay(backoff, m) <= Delay(backoff, n)
  {
  }

  // ---- One flush

  const UNREADABLE_DELAY := 30_000_000_000

  /** The calls that settle one delivery after the handler failed. */
  function SettleFailed(c: Config, x: Item): seq<Event>
  {
    var d := x.d;
    if !x.readable then [NakWithDelay(d, UNREADABLE_DELAY)]
    else if d.num >= c.Threshold() then [Dlq(d, d.msg.payload, d.msg.headers, x.dlqOk), Ack(d)]
    else [NakWithDelay(d, Delay(c.backoff, d.num))]
  }

  function SettleOne(c: Config, ok: bool): Item -> seq<Event>
  {
    (x: Item) => if ok then [Ack(x.d)] else SettleFailed(c, x)
  }

  const DELIVERY_OF: Item -> seq<Delivery> := (x: Item) => [x.d]

  function Deliveries(xs: seq<Item>): seq<Delivery>
  {
    FlatMap(DELIVERY_OF, xs)
  }

  function Payloads(ds: seq<Delivery>): (ps: seq<Message>)
    ensures |ps| == |ds| && forall i :: 0 <= i < |ds| ==> ps[i] == ds[i].msg
  {
    seq(|ds|, i requires 0 <= i < |ds| => ds[i].msg)
  }

  /** The calls of one flush: the handler once on the whole batch, then each delivery in batch order. */
  function FlushCalls(c: Config): Flushed -> seq<Event>
  {
    (h: Flushed) => [Handle(Deliveries(h.items), Payloads(Deliveries(h.items)), h.ok)] +
      FlatMap(SettleOne(c, h.ok), h.items)
  }

  function LogOf(c: Config, hs: seq<Flushed>): seq<Event>
  {
    FlatMap(FlushCalls(c), hs)
  }

  const HANDLED_IN: Flushed -> seq<Delivery> := (h: Flushed) => Deliveries(h.items)

  function Handled(hs: seq<Flushed>): seq<Delivery>
  {
    FlatMap(HANDLED_IN, hs)
  }

  // ---- The machine

  datatype State = State(
    published: seq<Message>,        // the stream; a message's number is its position
    counts: map<nat, nat>,          // deliveries so far, per message
    acked: set<nat>,                // acknowledgements that reached the broker
    ch: seq<Delivery>,
    batch: seq<Delivery>,
    cancelled: bool,
    stopped: bool,
    accepted: seq<Delivery>,        // history: deliveries taken by the channel
    rejected: seq<Delivery>,        // history: deliveries refused by the callback
    handled: seq<Flushed>,          // history: flushes of a non-empty batch
    log: seq<Event>,                // history: the loop's calls
    callbackLog: seq<Event>)        // history: the callback's calls

  const INIT := State([], map[], {}, [], [], false, false, [], [], [], [], [])

  /** For steps that may flush, `ok` is the handler's answer and `items` the batch flushed. */
  datatype Input =
    | Publish(msg: Message)
    | Deliver(id: nat, refuse: bool)       // the callback stores the delivery, or refuses it after cancellation
    | HandOff(id: nat, out: Flushed)       // an unbuffered channel passes the delivery straight to the loop
    | Receive(out: Flushed)
    | Timer(out: Flushed)
    | Cancel
    | Shutdown(out: Flushed)
    | AckArrives(id: nat)

  function NumDelivered(s: State, id: nat): nat
  {
    if id in s.counts then s.counts[id] else 0
  }

  /** The broker may deliver a message that is not known to be acknowledged, up to its delivery limit. */
  predicate CanDeliver(c: Config, s: State, id: nat)
  {
    && id < |s.published| && id !in s.acked && NumDelivered(s, id) + 1 < MAX_COUNT
    && (c.maxDeliver > 0 ==> NumDelivered(s, id) < c.maxDeliver)
  }

  function Next(s: State, id: nat): Delivery
    requires id < |s.published|
  {
    Delivery(id, s.published[id], NumDelivered(s, id) + 1)
  }

  ghost predicate Enabled(c: Config, s: State, x: Input)
  {
    match x
    case Publish(_) => true
    case Deliver(id, refuse) => CanDeliver(c, s, id) && if refuse then s.cancelled else |s.ch| < 2 * c.maxBatch
    case HandOff(id, out) =>
      CanDeliver(c, s, id) && !s.stopped && c.maxBatch == 0 && Deliveries(out.items) == s.batch + [Next(s, id)]
    case Receive(out) => !s.stopped && s.ch != [] && Deliveries(out.items) == s.batch + [s.ch[0]]
    case Timer(out) => !s.stopped && Deliveries(out.items) == s.batch
    case Cancel => true
    case Shutdown(out) => !s.stopped && s.cancelled && Deliveries(out.items) == s.batch
    case AckArrives(id) => exists d: Delivery :: d.id == id && Ack(d) in s.log
  }

  /** An empty batch is left alone; otherwise the handler is called and every delivery settled. */
  function Flush(c: Config, s: State, out: Flushed): State
  {
    if s.batch == [] then s
    else s.(batch := [], handled := s.handled + [out], log := s.log + FlushCalls(c)(out))
  }

  /** The loop takes one delivery and flushes when the batch is full. */
  function Take(c: Config, s: State, d: Delivery, out: Flushed): State
  {
    var s' := s.(batch := s.batch + [d]);
    if |s'.batch| >= c.maxBatch then Flush(c, s', out) else s'
  }

  function Counting(s: State, d: Delivery): State
  {
    s.(counts := s.counts[d.id := d.num])
  }

  ghost function Step(c: Config, s: State, x: Input): State
    requires Enabled(c, s, x)
  {
    match x
    case Publish(m) => s.(published := s.published + [m])
    case Deliver(id, refuse) =>
      var d := Next(s, id);
      if refuse then Counting(s, d).(rejected := s.rejected + [d], callbackLog := s.callbackLog + [Nak(d)])
      else Counting(s, d).(ch := s.ch + [d], accepted := s.accepted + [d])
    case HandOff(id, out) =>
      var d := Next(s, id);
      Take(c, Counting(s, d).(accepted := s.accepted + [d]), d, out)
    case Receive(out) => Take(c, s.(ch := s.ch[1..]), s.ch[0], out)
    case Timer(out) => Flush(c, s, out)
    case Cancel => s.(cancelled := true)
    case Shutdown(out) => Flush(c, s, out).(stopped := true)
    case AckArrives(id) => s.(acked := s.acked + {id})
  }

  /** `s` is reached from the initial state by the inputs `xs`, each enabled when it happens. */
  ghost predicate Reaches(c: Config, xs: seq<Input>, s: State)
  {
    if xs == [] then s == INIT
    else
      var n := |xs| - 1;
      exists p :: Reaches(c, xs[..n], p) && Enabled(c, p, xs[n]) && s == Step(c, p, xs[n])
  }

  lemma ReachesMore(c: Config, xs: seq<Input>, s: State, x: Input)
    requires Reaches(c, xs, s) && Enabled(c, s, x)
    ensures Reaches(c, xs + [x], Step(c, s, x))
  {
    hide Enabled, Step;
    assert (xs + [x])[..|xs|] == xs;
  }

  // ---- Invariants

  const SETTLED_BY: Event -> seq<Delivery> := (e: Event) => if e.Ack? || e.NakWithDelay? || e.Nak? then [e.d] else []
  const ACKED_BY: Event -> seq<Delivery> := (e: Event) => if e.Ack? then [e.d] else []
  const NAKED_BY: Event -> seq<Delivery> := (e: Event) => if e.NakWithDelay? || e.Nak? then [e.d] else []

  /** The deliveries settled by a log, in order: every acknowledgement, positive or negative. */
  function Settled(log: seq<Event>): seq<Delivery>
  {
    FlatMap(SETTLED_BY, log)
  }

  /** Why the acknowledgement at position `i` was sent. */
  ghost predicate Justified(c: Config, log: seq<Event>, i: nat)
    requires i < |log| && log[i].Ack?
  {
    exists j ::
      && 0 <= j < i && log[j].Handle? && log[i].d in log[j].batch && log[j].payloads == Payloads(log[j].batch)
      && (forall k :: j < k < i ==> !log[k].Handle?)
      && (log[j].ok || DeadLettered(c, log, i))
  }

  predicate DeadLettered(c: Config, log: seq<Event>, i: nat)
    requires i < |log| && log[i].Ack?
  {
    var d := log[i].d;
    && d.num >= c.Threshold() && i > 0 && log[i - 1].Dlq?
    && log[i - 1].d == d && log[i - 1].payload == d.msg.payload && log[i - 1].headers == d.msg.headers
  }

  ghost predicate AcksJustified(c: Config, log: seq<Event>)
  {
    forall i :: 0 <= i < |log| && log[i].Ack? ==> Justified(c, log, i)
  }

  /** Deliveries of one message carry increasing counts, so all deliveries are different. */
  ghost predicate Increasing(ds: seq<Delivery>)
  {
    forall i, j :: 0 <= i < j < |ds| && ds[i].id == ds[j].id ==> ds[i].num < ds[j].num
  }

  ghost predicate Known(s: State, ds: seq<Delivery>)
  {
    forall d :: d in ds ==> d.id < |s.published| && d.msg == s.published[d.id] && 1 <= d.num <= NumDelivered(s, d.id)
  }

  /** The deliveries handed out so far are all different and carry their message's data. */
  ghost predicate Distinct(c: Config, s: State)
  {
    && Increasing(s.accepted) && Increasing(s.rejected) && (forall d :: d in s.rejected ==> d !in s.accepted)
    && Known(s, s.accepted) && Known(s, s.rejected)
    && forall id :: NumDelivered(s, id) < MAX_COUNT && (c.maxDeliver > 0 ==> NumDelivered(s, id) <= c.maxDeliver)
  }

  /** Handled batches, then the current batch, then the channel make up the accepted sequence. */
  ghost predicate InOrder(c: Config, s: State)
  {
    && Handled(s.handled) + s.batch + s.ch == s.accepted
    && s.log == LogOf(c, s.handled)
    && forall h :: h in s.handled ==> 1 <= |Deliveries(h.items)| <= Max(1, c.maxBatch)
  }

  ghost predicate Bounded(c: Config, s: State)
  {
    |s.ch| <= 2 * c.maxBatch && (|s.batch| < c.maxBatch || s.batch == [])
  }

  function Max(a: nat, b: nat): nat
  {
    if a < b then b else a
  }

  ghost predicate Invariant(c: Config, s: State)
  {
    InOrder(c, s) && Distinct(c, s) && Bounded(c, s) && Complete(s) && RefusalsNaked(s)
  }

  const NAK_OF: Delivery -> seq<Event> := (d: Delivery) => [Nak(d)]

  /** The callback's calls are one negative acknowledgement per refused delivery. */
  ghost predicate RefusalsNaked(s: State)
  {
    s.callbackLog == FlatMap(NAK_OF, s.rejected)
  }

  function OfMessage(id: nat): Delivery -> seq<Delivery>
  {
    (d: Delivery) => if d.id == id then [d] else []
  }

  function FirstDeliveries(id: nat, m: Message, k: nat): (ds: seq<Delivery>)
    ensures |ds| == k && forall i :: 0 <= i < k ==> ds[i] == Delivery(id, m, i + 1)
  {
    seq(k, i requires 0 <= i < k => Delivery(id, m, i + 1))
  }

  /** If no delivery of a message was refused, the channel took deliveries 1, 2, ... of it in that order. */
  ghost predicate Complete(s: State)
  {
    && (forall id: nat :: id >= |s.published| ==> NumDelivered(s, id) == 0)
    && forall id: nat :: id < |s.published| && (forall d :: d in s.rejected ==> d.id != id) ==>
         FlatMap(OfMessage(id), s.accepted) == FirstDeliveries(id, s.published[id], NumDelivered(s, id))
  }

  // ---- The invariant is kept

  lemma FlushKeeps(c: Config, s: State, out: Flushed)
    requires InOrder(c, s) && |s.batch| <= Max(1, c.maxBatch) && Deliveries(out.items) == s.batch
    ensures InOrder(c, Flush(c, s, out))
  {
    hide Deliveries;
    FlatMapSnoc(HANDLED_IN, s.handled, out);
    FlatMapSnoc(FlushCalls(c), s.handled, out);
    assert Handled(s.handled) + s.batch + s.ch == (Handled(s.handled) + s.batch) + [] + s.ch;
  }

  lemma TakeKeeps(c: Config, s: State, d: Delivery, out: Flushed)
    requires InOrder(c, s.(batch := s.batch + [d])) && (|s.batch| < c.maxBatch || s.batch == [])
    requires Deliveries(out.items) == s.batch + [d]
    ensures var t := Take(c, s, d, out); InOrder(c, t) && (|t.batch| < c.maxBatch || t.batch == [])
  {
    hide InOrder;
    var s' := s.(batch := s.batch + [d]);
    if |s'.batch| >= c.maxBatch {
      FlushKeeps(c, s', out);
    }
  }

  lemma Snoc(s: State, ds: seq<Delivery>, id: nat)
    requires Known(s, ds) && Increasing(ds) && id < |s.published|
    ensures var d := Next(s, id);
            d !in ds && Increasing(ds + [d]) && Known(Counting(s, d), ds + [d]) && Known(Counting(s, d), ds)
  {
    var d := Next(s, id);
    assert forall x :: x in ds ==> NumDelivered(s, x.id) <= NumDelivered(Counting(s, d), x.id);
  }

  lemma OfMessageSnoc(ds: seq<Delivery>, d: Delivery, id: nat)
    ensures FlatMap(OfMessage(id), ds + [d]) == FlatMap(OfMessage(id), ds) + if d.id == id then [d] else []
  {
    FlatMapSnoc(OfMessage(id), ds, d);
  }

  function Delivered(s: State, id: nat, refuse: bool): State
    requires id < |s.published|
  {
    var d := Next(s, id);
    if refuse then Counting(s, d).(rejected := s.rejected + [d]) else Counting(s, d).(accepted := s.accepted + [d])
  }

  /** A new delivery differs from all earlier ones. */
  lemma DeliverDistinct(c: Config, s: State, id: nat, refuse: bool)
    requires Distinct(c, s) && CanDeliver(c, s, id)
    ensures Distinct(c, Delivered(s, id, refuse))
  {
    hide Increasing, Known;
    var d, t := Next(s, id), Delivered(s, id, refuse);
    Snoc(s, s.accepted, id);
    Snoc(s, s.rejected, id);
    SameKnown(Counting(s, d), t);
    assert forall x :: NumDelivered(t, x) == if x == id then d.num else NumDelivered(s, x);
  }

  lemma SameKnown(s: State, t: State)
    requires s.published == t.published && s.counts == t.counts
    ensures forall ds :: Known(s, ds) ==> Known(t, ds)
  {
    assert forall x :: NumDelivered(s, x) == NumDelivered(t, x);
  }

  /** A new delivery is the next of its message. */
  lemma DeliverComplete(c: Config, s: State, id: nat, refuse: bool)
    requires Complete(s) && CanDeliver(c, s, id)
    ensures Complete(Delivered(s, id, refuse))
  {
    hide OfMessage, FlatMap;
    var d, t := Next(s, id), Delivered(s, id, refuse);
    assert forall x :: NumDelivered(t, x) == if x == id then d.num else NumDelivered(s, x);
    forall x: nat | x < |t.published| && forall r :: r in t.rejected ==> r.id != x
      ensures FlatMap(OfMessage(x), t.accepted) == FirstDeliveries(x, t.published[x], NumDelivered(t, x))
    {
      assert forall r :: r in s.rejected ==> r in t.rejected;
      assert refuse ==> d in t.rejected;
      OfMessageSnoc(s.accepted, d, x);
    }
  }

  lemma PublishKnown(s: State, m: Message, ds: seq<Delivery>)
    requires Known(s, ds)
    ensures Known(s.(published := s.published + [m]), ds)
  {
    var t := s.(published := s.published + [m]);
    assert forall x :: NumDelivered(t, x) == NumDelivered(s, x);
  }

  lemma PublishKeeps(c: Config, s: State, m: Message)
    requires Distinct(c, s) && Complete(s)
    ensures var t := s.(published := s.published + [m]); Distinct(c, t) && Complete(t)
  {
    hide FlatMap, OfMessage, Increasing;
    var t := s.(published := s.published + [m]);
    PublishKnown(s, m, s.accepted);
    PublishKnown(s, m, s.rejected);
    NoneOfMessage(s.accepted, |s.published|);
    hide Known;
    assert forall x :: NumDelivered(t, x) == NumDelivered(s, x);
    forall x: nat | x < |t.published| && forall r :: r in t.rejected ==> r.id != x
      ensures FlatMap(OfMessage(x), t.accepted) == FirstDeliveries(x, t.published[x], NumDelivered(t, x))
    {
      if x == |s.published| {
        assert FirstDeliveries(x, m, 0) == [];
      }
    }
  }

  lemma {:induction false} NoneOfMessage(ds: seq<Delivery>, id: nat)
    requires forall d :: d in ds ==> d.id != id
    ensures FlatMap(OfMessage(id), ds) == []
  {
    if ds != [] {
      NoneOfMessage(ds[..|ds| - 1], id);
    }
  }

  lemma SameSource(c: Config, s: State, t: State)
    requires Distinct(c, s) && Complete(s) && s.published == t.published && s.counts == t.counts
    requires s.accepted == t.accepted && s.rejected == t.rejected
    ensures Distinct(c, t) && Complete(t)
  {
    hide Increasing, FlatMap;
    assert forall x :: NumDelivered(s, x) == NumDelivered(t, x);
  }

  lemma Same(c: Config, s: State, t: State)
    requires InOrder(c, s) && s.handled == t.handled && s.log == t.log
    requires Handled(t.handled) + t.batch + t.ch == t.accepted
    ensures InOrder(c, t)
  {
  }

  lemma StepSource(c: Config, s: State, x: Input)
    requires Distinct(c, s) && Complete(s) && Enabled(c, s, x)
    ensures Distinct(c, Step(c, s, x)) && Complete(Step(c, s, x))
  {
    hide Distinct, Complete, FlushCalls;
    var t := Step(c, s, x);
    match x
    case Publish(m) => PublishKeeps(c, s, m);
    case Deliver(id, refuse) =>
      DeliverDistinct(c, s, id, refuse);
      DeliverComplete(c, s, id, refuse);
      SameSource(c, Delivered(s, id, refuse), t);
    case HandOff(id, _) =>
      DeliverDistinct(c, s, id, false);
      DeliverComplete(c, s, id, false);
      SameSource(c, Delivered(s, id, false), t);
    case _ => SameSource(c, s, t);
  }

  lemma StepOrder(c: Config, s: State, x: Input)
    requires InOrder(c, s) && Bounded(c, s) && Enabled(c, s, x)
    ensures InOrder(c, Step(c, s, x)) && Bounded(c, Step(c, s, x))
  {
    hide InOrder, FlushCalls, Deliveries, Handled, Next;
    var done, t := Handled(s.handled), Step(c, s, x);
    Parts(c, s);
    match x
    case Deliver(id, refuse) =>
      assert done + s.batch + (s.ch + [Next(s, id)]) == done + s.batch + s.ch + [Next(s, id)];
      Same(c, s, t);
    case HandOff(id, out) =>
      var d := Next(s, id);
      var s' := Counting(s, d).(accepted := s.accepted + [d]);
      assert done + (s.batch + [d]) + [] == done + s.batch + [] + [d];
      Same(c, s, s'.(batch := s.batch + [d]));
      TakeKeeps(c, s', d, out);
    case Receive(out) =>
      var s' := s.(ch := s.ch[1..]);
      assert done + (s.batch + [s.ch[0]]) + s.ch[1..] == done + s.batch + ([s.ch[0]] + s.ch[1..]);
      assert [s.ch[0]] + s.ch[1..] == s.ch;
      Same(c, s, s'.(batch := s.batch + [s.ch[0]]));
      TakeKeeps(c, s', s.ch[0], out);
    case Timer(out) => FlushKeeps(c, s, out);
    case Shutdown(out) =>
      FlushKeeps(c, s, out);
      Parts(c, Flush(c, s, out));
      Same(c, Flush(c, s, out), t);
    case _ => Same(c, s, t);
  }

  lemma StepKeeps(c: Config, s: State, x: Input)
    requires Invariant(c, s) && Enabled(c, s, x)
    ensures Invariant(c, Step(c, s, x))
  {
    hide Distinct, Complete, InOrder, Bounded, Step, Enabled, RefusalsNaked;
    StepSource(c, s, x);
    StepOrder(c, s, x);
    StepRefusals(c, s, x);
  }

  lemma StepRefusals(c: Config, s: State, x: Input)
    requires RefusalsNaked(s) && Enabled(c, s, x)
    ensures RefusalsNaked(Step(c, s, x))
  {
    hide FlatMap, FlushCalls, Deliveries;
    if x.Deliver? && x.refuse {
      FlatMapSnoc(NAK_OF, s.rejected, Next(s, x.id));
    }
  }

  lemma Parts(c: Config, s: State)
    requires InOrder(c, s)
    ensures Handled(s.handled) + s.batch + s.ch == s.accepted
  {
  }

  lemma {:induction false} RunKeeps(c: Config, xs: seq<Input>, s: State)
    requires Reaches(c, xs, s)
    ensures Invariant(c, s)
  {
    if xs != [] {
      hide Invariant, Enabled, Step;
      var n := |xs| - 1;
      var p :| Reaches(c, xs[..n], p) && Enabled(c, p, xs[n]) && s == Step(c, p, xs[n]);
      RunKeeps(c, xs[..n], p);
      StepKeeps(c, p, xs[n]);
    } else {
      assert forall id :: NumDelivered(s, id) == 0;
    }
  }

  // ---- What the log of a run says

  lemma SettleOneSettles(c: Config, ok: bool, x: Item)
    ensures Settled(SettleOne(c, ok)(x)) == [x.d]
    ensures forall e :: e in SettleOne(c, ok)(x) ==> !e.Handle? && e.d == x.d
  {
    hide Delay, FlatMap, Config.Threshold;
    var es := SettleOne(c, ok)(x);
    FlatMapShort(SETTLED_BY, es);
  }

  /** A flush settles every delivery of its batch once, in order, and nothing else. */
  lemma FlushSettles(c: Config, h: Flushed)
    ensures Settled(FlushCalls(c)(h)) == HANDLED_IN(h)
    ensures forall e :: e in FlatMap(SettleOne(c, h.ok), h.items) ==> !e.Handle? && e.d in Deliveries(h.items)
  {
    hide FlatMap;
    var tail := FlatMap(SettleOne(c, h.ok), h.items);
    var call := Handle(Deliveries(h.items), Payloads(Deliveries(h.items)), h.ok);
    forall x | x in h.items ensures FlatMap(SETTLED_BY, SettleOne(c, h.ok)(x)) == DELIVERY_OF(x) {
      SettleOneSettles(c, h.ok, x);
    }
    FlatMapTwice(SettleOne(c, h.ok), SETTLED_BY, DELIVERY_OF, h.items);
    FlatMapConcat(SETTLED_BY, [call], tail);
    FlatMapOne(SETTLED_BY, call);
    forall e | e in tail ensures !e.Handle? && e.d in Deliveries(h.items) {
      InFlatMap(SettleOne(c, h.ok), h.items, e);
      var x :| x in h.items && e in SettleOne(c, h.ok)(x);
      SettleOneSettles(c, h.ok, x);
      InFlatMap(DELIVERY_OF, h.items, x.d);
    }
  }

  lemma LogSettles(c: Config, hs: seq<Flushed>)
    ensures Settled(LogOf(c, hs)) == Handled(hs)
  {
    hide FlatMap;
    forall h | h in hs ensures FlatMap(SETTLED_BY, FlushCalls(c)(h)) == HANDLED_IN(h) {
      FlushSettles(c, h);
    }
    FlatMapTwice(FlushCalls(c), SETTLED_BY, HANDLED_IN, hs);
  }

  lemma {:induction false} SettleAllAcks(c: Config, ok: bool, xs: seq<Item>, i: nat)
    requires i < |FlatMap(SettleOne(c, ok), xs)| && FlatMap(SettleOne(c, ok), xs)[i].Ack?
    ensures ok || DeadLettered(c, FlatMap(SettleOne(c, ok), xs), i)
  {
    hide Delay;
    if xs != [] && i < |FlatMap(SettleOne(c, ok), xs[..|xs| - 1])| {
      SettleAllAcks(c, ok, xs[..|xs| - 1], i);
    }
  }

  lemma OldAckJustified(c: Config, log: seq<Event>, more: seq<Event>, i: nat)
    requires i < |log| && log[i].Ack? && Justified(c, log, i)
    ensures Justified(c, log + more, i)
  {
    var all := log + more;
    var j :| 0 <= j < i && log[j].Handle? && log[i].d in log[j].batch && log[j].payloads == Payloads(log[j].batch)
      && (forall k :: j < k < i ==> !log[k].Handle?) && (log[j].ok || DeadLettered(c, log, i));
    assert all[j] == log[j] && forall k :: j < k <= i ==> all[k] == log[k];
  }

  lemma NewAckJustified(c: Config, log: seq<Event>, h: Flushed, i: nat)
    requires |log| <= i < |log + FlushCalls(c)(h)| && (log + FlushCalls(c)(h))[i].Ack?
    ensures Justified(c, log + FlushCalls(c)(h), i)
  {
    var tail := FlatMap(SettleOne(c, h.ok), h.items);
    var all := log + FlushCalls(c)(h);
    hide FlatMap, Deliveries;
    assert forall k :: |log| < k < |all| ==> all[k] == tail[k - |log| - 1];
    assert all[|log|].Handle? && i > |log|;
    FlushSettles(c, h);
    SettleAllAcks(c, h.ok, h.items, i - |log| - 1);
    assert all[i] in tail && forall k :: |log| < k < |all| ==> all[k] in tail;
  }

  lemma {:induction false} LogJustified(c: Config, hs: seq<Flushed>)
    ensures AcksJustified(c, LogOf(c, hs))
  {
    hide Justified, FlushCalls;
    if hs != [] {
      var init, h := hs[..|hs| - 1], hs[|hs| - 1];
      LogJustified(c, init);
      var log, all := LogOf(c, init), LogOf(c, hs);
      assert all == log + FlushCalls(c)(h);
      forall i | 0 <= i < |all| && all[i].Ack? ensures Justified(c, all, i) {
        if i < |log| {
          OldAckJustified(c, log, FlushCalls(c)(h), i);
        } else {
          NewAckJustified(c, log, h, i);
        }
      }
    }
  }

  // ---- Whole-run properties

  /**
   In every run, a delivery is acknowledged only if the handler returned nil on a batch holding it, or it
   failed with the delivery count at the limit and the dead-letter callback was called with its own data just before.
   */
  lemma AckMeans(c: Config, xs: seq<Input>, s: State, i: nat)
    requires Reaches(c, xs, s) && i < |s.log| && s.log[i].Ack?
    ensures Justified(c, s.log, i)
  {
    RunKeeps(c, xs, s);
    LogJustified(c, s.handled);
  }

  /**
   Batching conserves order and every delivery that reaches the handler is settled exactly once; what is
   still in the batch or the channel is not settled, whatever happens at shutdown.
   */
  lemma SettledExactlyOnce(c: Config, xs: seq<Input>, s: State)
    requires Reaches(c, xs, s)
    ensures Settled(s.log) == Handled(s.handled) && Settled(s.log) + s.batch + s.ch == s.accepted
    ensures forall d :: multiset(s.accepted)[d] <= 1
    ensures forall d :: d in s.batch || d in s.ch ==> d !in Settled(s.log + s.callbackLog)
    ensures forall d :: d in Handled(s.handled) ==> multiset(Settled(s.log + s.callbackLog))[d] == 1
  {
    hide FlatMap, FlushCalls, Settled, Complete, RefusalsNaked;
    RunKeeps(c, xs, s);
    LogSettles(c, s.handled);
    AllSettled(s);
    IncreasingIsDistinct(s.accepted);
    assert Settled(s.log) + (s.batch + s.ch) == s.accepted;
    NoneTwice(Settled(s.log), s.batch + s.ch);
    forall d | d in Handled(s.handled) ensures multiset(Settled(s.log) + s.rejected)[d] == 1 {
      assert multiset(s.accepted)[d] == multiset(Settled(s.log))[d] + multiset(s.batch + s.ch)[d];
      assert d !in s.rejected;
    }
  }

  /** The callback's calls settle what was refused. */
  lemma AllSettled(s: State)
    requires RefusalsNaked(s)
    ensures Settled(s.log + s.callbackLog) == Settled(s.log) + s.rejected
    ensures FlatMap(ACKED_BY, s.log + s.callbackLog) == FlatMap(ACKED_BY, s.log)
    ensures FlatMap(NAKED_BY, s.log + s.callbackLog) == FlatMap(NAKED_BY, s.log) + s.rejected
  {
    hide FlatMap;
    var self: Delivery -> seq<Delivery> := (d: Delivery) => [d];
    var none: Delivery -> seq<Delivery> := (d: Delivery) => [];
    FlatMapConcat(SETTLED_BY, s.log, s.callbackLog);
    FlatMapConcat(ACKED_BY, s.log, s.callbackLog);
    FlatMapConcat(NAKED_BY, s.log, s.callbackLog);
    forall d ensures FlatMap(SETTLED_BY, NAK_OF(d)) == self(d) && FlatMap(NAKED_BY, NAK_OF(d)) == self(d)
      ensures FlatMap(ACKED_BY, NAK_OF(d)) == none(d)
    {
      FlatMapOne(SETTLED_BY, Nak(d));
      FlatMapOne(NAKED_BY, Nak(d));
      FlatMapOne(ACKED_BY, Nak(d));
    }
    FlatMapTwice(NAK_OF, SETTLED_BY, self, s.rejected);
    FlatMapTwice(NAK_OF, NAKED_BY, self, s.rejected);
    FlatMapTwice(NAK_OF, ACKED_BY, none, s.rejected);
    FlatMapSingles(self, s.rejected);
    FlatMapEmpty(none, s.rejected);
  }

  /**
   A refused delivery gets exactly one negative acknowledgement and no positive one; what stays in the batch or the
   channel gets neither.
   */
  lemma RefusedNakedOnce(c: Config, xs: seq<Input>, s: State)
    requires Reaches(c, xs, s)
    ensures forall d :: d in s.rejected ==>
              multiset(FlatMap(NAKED_BY, s.log + s.callbackLog))[d] == 1
                && d !in FlatMap(ACKED_BY, s.log + s.callbackLog)
    ensures forall d :: d in s.batch || d in s.ch ==>
              d !in FlatMap(NAKED_BY, s.log + s.callbackLog) && d !in FlatMap(ACKED_BY, s.log + s.callbackLog)
  {
    hide FlatMap, FlushCalls, Settled, Complete, RefusalsNaked;
    RunKeeps(c, xs, s);
    SettledExactlyOnce(c, xs, s);
    AllSettled(s);
    IncreasingIsDistinct(s.rejected);
    forall d | d in FlatMap(NAKED_BY, s.log) || d in FlatMap(ACKED_BY, s.log) ensures d in Settled(s.log) {
      SettledOne(s.log, d);
    }
    forall d | d in s.rejected ensures multiset(FlatMap(NAKED_BY, s.log) + s.rejected)[d] == 1 {
      assert d !in s.accepted && d !in FlatMap(NAKED_BY, s.log);
    }
  }

  lemma SettledOne(log: seq<Event>, d: Delivery)
    requires d in FlatMap(NAKED_BY, log) || d in FlatMap(ACKED_BY, log)
    ensures d in Settled(log)
  {
    hide FlatMap;
    InFlatMap(NAKED_BY, log, d);
    InFlatMap(ACKED_BY, log, d);
    var e :| e in log && (d in NAKED_BY(e) || d in ACKED_BY(e));
    InFlatMap(SETTLED_BY, log, d);
    assert d in SETTLED_BY(e);
  }

  lemma NoneTwice(a: seq<Delivery>, b: seq<Delivery>)
    requires forall d :: multiset(a + b)[d] <= 1
    ensures forall d :: d in b ==> d !in a
  {
    forall d | d in b ensures d !in a {
      assert multiset(a + b)[d] == multiset(a)[d] + multiset(b)[d];
    }
  }

  lemma {:induction false} IncreasingIsDistinct(ds: seq<Delivery>)
    requires Increasing(ds)
    ensures forall d :: multiset(ds)[d] <= 1
  {
    if ds != [] {
      var init, last := ds[..|ds| - 1], ds[|ds| - 1];
      IncreasingIsDistinct(init);
      assert ds == init + [last] && last !in init;
    }
  }

  /** The channel and the batches stay within their bounds. */
  lemma Bounds(c: Config, xs: seq<Input>, s: State)
    requires Reaches(c, xs, s)
    ensures |s.ch| <= 2 * c.maxBatch && (|s.batch| < c.maxBatch || s.batch == [])
    ensures forall h :: h in s.handled ==> 1 <= |HANDLED_IN(h)| <= Max(1, c.maxBatch)
  {
    RunKeeps(c, xs, s);
  }

  // ---- Bounded redelivery

  /** The call without what the dead-letter callback answers to it. */
  function Made(e: Event): Event
  {
    if e.Dlq? then e.(published := true) else e
  }

  function CallsOn(id: nat): Event -> seq<Event>
  {
    (e: Event) => if !e.Handle? && e.d.id == id then [Made(e)] else []
  }

  /** The calls of the log that concern one message, whatever the dead-letter callback answers. */
  function CallsFor(log: seq<Event>, id: nat): seq<Event>
  {
    FlatMap(CallsOn(id), log)
  }

  /** In these flushes the handler always fails on the message, and its metadata can be read. */
  ghost predicate AlwaysFails(hs: seq<Flushed>, id: nat)
  {
    forall h, x :: h in hs && x in h.items && x.d.id == id ==> !h.ok && x.readable
  }

  function FailureCalls(c: Config): Delivery -> seq<Event>
  {
    (d: Delivery) => SettleFailed(c, Item(d, true, true))
  }

  function FailureCallsOn(c: Config, id: nat): Item -> seq<Event>
  {
    (x: Item) => if x.d.id == id then SettleFailed(c, Item(x.d, true, true)) else []
  }

  lemma CallsForItem(c: Config, ok: bool, x: Item, id: nat)
    requires x.d.id == id ==> !ok && x.readable
    ensures CallsFor(SettleOne(c, ok)(x), id) == FailureCallsOn(c, id)(x)
    ensures FlatMap(FailureCalls(c), OfMessage(id)(x.d)) == FailureCallsOn(c, id)(x)
  {
    hide Delay, FlatMap, Config.Threshold;
    var es := SettleOne(c, ok)(x);
    FlatMapShort(CallsOn(id), es);
    FlatMapOne(FailureCalls(c), x.d);
    FlatMapNone(FailureCalls(c));
  }

  lemma CallsForFlush(c: Config, h: Flushed, id: nat)
    requires forall x :: x in h.items && x.d.id == id ==> !h.ok && x.readable
    ensures CallsFor(FlushCalls(c)(h), id) == FlatMap(FailureCalls(c), FlatMap(OfMessage(id), HANDLED_IN(h)))
  {
    hide FlatMap, SettleFailed, SettleOne, FailureCalls, OfMessage;
    forall x | x in h.items
      ensures FlatMap(CallsOn(id), SettleOne(c, h.ok)(x)) == FailureCallsOn(c, id)(x)
      ensures FlatMap(FailureCalls(c), FlatMap(OfMessage(id), DELIVERY_OF(x))) == FailureCallsOn(c, id)(x)
    {
      CallsForItem(c, h.ok, x, id);
      FlatMapOne(OfMessage(id), x.d);
    }
    var ofMessage: Item -> seq<Delivery> := (x: Item) => FlatMap(OfMessage(id), DELIVERY_OF(x));
    FlatMapTwice(DELIVERY_OF, OfMessage(id), ofMessage, h.items);
    FlatMapTwice(ofMessage, FailureCalls(c), FailureCallsOn(c, id), h.items);
    FlatMapTwice(SettleOne(c, h.ok), CallsOn(id), FailureCallsOn(c, id), h.items);
    var call := Handle(Deliveries(h.items), Payloads(Deliveries(h.items)), h.ok);
    FlatMapConcat(CallsOn(id), [call], FlatMap(SettleOne(c, h.ok), h.items));
    FlatMapOne(CallsOn(id), call);
  }

  lemma CallsForRun(c: Config, hs: seq<Flushed>, id: nat)
    requires AlwaysFails(hs, id)
    ensures CallsFor(LogOf(c, hs), id) == FlatMap(FailureCalls(c), FlatMap(OfMessage(id), Handled(hs)))
  {
    hide FlatMap, FlushCalls, FailureCalls, OfMessage, CallsOn;
    var ofMessage: Flushed -> seq<Delivery> := (h: Flushed) => FlatMap(OfMessage(id), HANDLED_IN(h));
    var calls: Flushed -> seq<Event> := (h: Flushed) => FlatMap(FailureCalls(c), FlatMap(OfMessage(id), HANDLED_IN(h)));
    forall h | h in hs ensures FlatMap(CallsOn(id), FlushCalls(c)(h)) == calls(h) {
      CallsForFlush(c, h, id);
    }
    FlatMapTwice(FlushCalls(c), CallsOn(id), calls, hs);
    FlatMapTwice(HANDLED_IN, OfMessage(id), ofMessage, hs);
    FlatMapTwice(ofMessage, FailureCalls(c), calls, hs);
  }

  function Script(c: Config, id: nat, m: Message, k: nat): seq<Event>
    requires k <= c.maxDeliver
  {
    if k == 0 then []
    else
      var d := Delivery(id, m, k);
      Script(c, id, m, k - 1) +
      if k < c.maxDeliver then [NakWithDelay(d, Delay(c.backoff, k))] else [Dlq(d, m.payload, m.headers, true), Ack(d)]
  }

  lemma {:induction false} ScriptIsFailureCalls(c: Config, id: nat, m: Message, k: nat)
    requires k <= c.maxDeliver < MAX_COUNT
    ensures FlatMap(FailureCalls(c), FirstDeliveries(id, m, k)) == Script(c, id, m, k)
  {
    hide Delay;
    if k > 0 {
      assert FirstDeliveries(id, m, k)[..k - 1] == FirstDeliveries(id, m, k - 1);
      ScriptIsFailureCalls(c, id, m, k - 1);
    }
  }

  lemma FirstOfFirst(ds: seq<Delivery>, more: seq<Delivery>, id: nat, m: Message, n: nat)
    requires ds + more == FirstDeliveries(id, m, n)
    ensures |ds| <= n && ds == FirstDeliveries(id, m, |ds|)
  {
    assert forall i :: 0 <= i < |ds| ==> ds[i] == (ds + more)[i];
  }

  /**
   A message whose handler always fails, none of whose deliveries was refused: with k of them settled, the
   loop's calls for it are negative acknowledgements with the delays of deliveries 1 to k, except that
   delivery maxDeliver is passed to the dead-letter callback and acknowledged. k never exceeds maxDeliver.
   */
  lemma FailingMessage(c: Config, xs: seq<Input>, s: State, id: nat)
    requires Reaches(c, xs, s) && 1 <= c.maxDeliver < MAX_COUNT && id < |s.published|
    requires AlwaysFails(s.handled, id) && forall d :: d in s.rejected ==> d.id != id
    ensures var k := |FlatMap(OfMessage(id), Settled(s.log))|;
            k <= c.maxDeliver && CallsFor(s.log, id) == Script(c, id, s.published[id], k)
  {
    hide Reaches, FlatMap, FlushCalls, CallsFor, Script, Settled, OfMessage, Increasing, Known;
    RunKeeps(c, xs, s);
    LogSettles(c, s.handled);
    CallsForRun(c, s.handled, id);
    var m := s.published[id];
    var ds := FlatMap(OfMessage(id), Settled(s.log));
    assert s.accepted == Settled(s.log) + (s.batch + s.ch);
    FlatMapConcat(OfMessage(id), Settled(s.log), s.batch + s.ch);
    FirstOfFirst(ds, FlatMap(OfMessage(id), s.batch + s.ch), id, m, NumDelivered(s, id));
    ScriptIsFailureCalls(c, id, m, |ds|);
  }

  /** The script is k calls long, plus the final acknowledgement; a sorted backoff list makes its delays grow. */
  lemma {:induction false} ScriptShape(c: Config, id: nat, m: Message, k: nat)
    requires k <= c.maxDeliver < MAX_COUNT
    ensures var es := Script(c, id, m, k);
            && |es| == (if 0 < k == c.maxDeliver then k + 1 else k)
            && (forall i :: 0 <= i < k && i + 1 < c.maxDeliver ==>
                  es[i] == NakWithDelay(Delivery(id, m, i + 1), Delay(c.backoff, i + 1)))
            && (0 < k == c.maxDeliver ==>
                  es[k - 1] == Dlq(Delivery(id, m, k), m.payload, m.headers, true) && es[k] == Ack(Delivery(id, m, k)))
    ensures Sorted(c.backoff) ==> forall i, j :: 0 <= i <= j < k && j + 1 < c.maxDeliver ==>
              Script(c, id, m, k)[i].delay <= Script(c, id, m, k)[j].delay
  {
    hide Delay, Sorted;
    if k > 0 {
      ScriptShape(c, id, m, k - 1);
    }
    if Sorted(c.backoff) {
      forall i, j | 0 <= i <= j < k && j + 1 < c.maxDeliver
        ensures Script(c, id, m, k)[i].delay <= Script(c, id, m, k)[j].delay
      {
        DelaysGrow(c.backoff, i + 1, j + 1);
      }
    }
  }

  // ---- In every run, whatever the handler does, a message is dead-lettered at most once

  const DEAD_BY: Event -> seq<Delivery> := (e: Event) => if e.Dlq? then [e.d] else []

  function DeadLetters(log: seq<Event>): seq<Delivery>
  {
    FlatMap(DEAD_BY, log)
  }

  function DeadItem(c: Config, ok: bool): Item -> seq<Delivery>
  {
    (x: Item) => if !ok && x.readable && x.d.num >= c.Threshold() then [x.d] else []
  }

  lemma DeadLettersOfItem(c: Config, ok: bool, x: Item)
    ensures DeadLetters(SettleOne(c, ok)(x)) == DeadItem(c, ok)(x)
  {
    hide Delay, FlatMap, Config.Threshold;
    var es := SettleOne(c, ok)(x);
    FlatMapShort(DEAD_BY, es);
  }

  lemma DeadLettersOfFlush(c: Config, h: Flushed)
    ensures DeadLetters(FlushCalls(c)(h)) == FlatMap(DeadItem(c, h.ok), h.items)
    ensures multiset(DeadLetters(FlushCalls(c)(h))) <= multiset(HANDLED_IN(h))
  {
    hide FlatMap, SettleOne;
    forall x | x in h.items ensures FlatMap(DEAD_BY, SettleOne(c, h.ok)(x)) == DeadItem(c, h.ok)(x) {
      DeadLettersOfItem(c, h.ok, x);
    }
    FlatMapTwice(SettleOne(c, h.ok), DEAD_BY, DeadItem(c, h.ok), h.items);
    FlatMapWithin(DeadItem(c, h.ok), DELIVERY_OF, h.items);
    var call := Handle(Deliveries(h.items), Payloads(Deliveries(h.items)), h.ok);
    FlatMapConcat(DEAD_BY, [call], FlatMap(SettleOne(c, h.ok), h.items));
    FlatMapOne(DEAD_BY, call);
  }

  lemma DeadLettersOfRun(c: Config, hs: seq<Flushed>)
    ensures multiset(DeadLetters(LogOf(c, hs))) <= multiset(Handled(hs))
    ensures forall d :: d in DeadLetters(LogOf(c, hs)) ==> d.num >= c.Threshold()
  {
    hide FlatMap, FlushCalls, DeadItem;
    var dead: Flushed -> seq<Delivery> := (h: Flushed) => DeadLetters(FlushCalls(c)(h));
    FlatMapTwice(FlushCalls(c), DEAD_BY, dead, hs);
    forall h | h in hs ensures multiset(dead(h)) <= multiset(HANDLED_IN(h)) {
      DeadLettersOfFlush(c, h);
    }
    FlatMapWithin(dead, HANDLED_IN, hs);
    forall d | d in DeadLetters(LogOf(c, hs)) ensures d.num >= c.Threshold() {
      InFlatMap(dead, hs, d);
      var h :| h in hs && d in dead(h);
      DeadLettersOfFlush(c, h);
      InFlatMap(DeadItem(c, h.ok), h.items, d);
      var x :| x in h.items && d in DeadItem(c, h.ok)(x);
      assert x.d.num >= c.Threshold() && x.d == d by { DeadItemMember(c, h.ok, x, d); }
    }
  }

  lemma DeadItemMember(c: Config, ok: bool, x: Item, d: Delivery)
    requires d in DeadItem(c, ok)(x)
    ensures x.d == d && d.num >= c.Threshold()
  {
  }

  lemma DeadLettersAccepted(c: Config, s: State)
    requires Invariant(c, s) && 1 <= c.maxDeliver < MAX_COUNT
    ensures multiset(DeadLetters(s.log)) <= multiset(s.accepted)
    ensures forall d :: d in DeadLetters(s.log) ==> d in s.accepted && d.num == c.maxDeliver
  {
    hide FlatMap, FlushCalls, DeadLetters, Complete;
    DeadLettersOfRun(c, s.handled);
    assert s.accepted == Handled(s.handled) + (s.batch + s.ch);
    Within(DeadLetters(s.log), Handled(s.handled), s.batch + s.ch);
  }

  lemma Within(ds: seq<Delivery>, a: seq<Delivery>, b: seq<Delivery>)
    requires multiset(ds) <= multiset(a)
    ensures multiset(ds) <= multiset(a + b) && forall d :: d in ds ==> d in a + b
  {
    forall d | d in ds ensures d in a + b {
      assert d in multiset(ds) && d in multiset(a);
    }
  }

  /** At most one dead-letter call is ever made for a message, and only for its delivery number maxDeliver. */
  lemma DeadLetteredOnce(c: Config, xs: seq<Input>, s: State, i: nat, j: nat)
    requires Reaches(c, xs, s) && 1 <= c.maxDeliver < MAX_COUNT
    requires var ds := DeadLetters(s.log); i < |ds| && j < |ds| && ds[i].id == ds[j].id
    ensures i == j && DeadLetters(s.log)[i].num == c.maxDeliver
  {
    hide FlatMap, DeadLetters, Complete, InOrder, Known;
    RunKeeps(c, xs, s);
    DeadLettersAccepted(c, s);
    IncreasingIsDistinct(s.accepted);
    var ds := DeadLetters(s.log);
    assert ds[i] in s.accepted && ds[j] in s.accepted && ds[i] == ds[j];
    if i != j {
      TwicePresent(ds, i, j);
      assert false;
    }
  }

  /**
   With an unlimited consumer, whose negative limit is stored as a huge unsigned number, no message is ever
   dead-lettered: it is negatively acknowledged for as long as the handler fails.
   */
  lemma UnlimitedNeverDeadLetters(c: Config, xs: seq<Input>, s: State)
    requires Reaches(c, xs, s) && -MAX_COUNT <= c.maxDeliver < 0
    ensures DeadLetters(s.log) == []
  {
    hide FlatMap, FlushCalls, DeadLetters, Complete, Increasing;
    RunKeeps(c, xs, s);
    DeadLettersOfRun(c, s.handled);
    assert s.accepted == Handled(s.handled) + (s.batch + s.ch);
    Within(DeadLetters(s.log), Handled(s.handled), s.batch + s.ch);
    assert forall d :: d !in DeadLetters(s.log);
    HeadIsIn(DeadLetters(s.log));
  }

  lemma HeadIsIn(ds: seq<Delivery>)
    ensures ds == [] || ds[0] in ds
  {
  }

  lemma TwicePresent(ds: seq<Delivery>, i: nat, j: nat)
    requires i < |ds| && j < |ds| && i != j && ds[i] == ds[j]
    ensures multiset(ds)[ds[i]] >= 2
  {
    var lo, hi := if i < j then i else j, if i < j then j else i;
    assert ds == ds[..hi] + ds[hi..];
    assert ds[lo] in ds[..hi] && ds[hi] in ds[hi..];
  }

  // ---- The end of the loop

  lemma StepStops(c: Config, s: State, x: Input)
    requires Enabled(c, s, x) && (s.stopped ==> s.batch == [])
    ensures Step(c, s, x).stopped ==> Step(c, s, x).batch == []
  {
    hide FlushCalls, Deliveries, Next;
  }

  /** When the loop has stopped, nothing is left in its batch. */
  lemma {:induction false} StoppedIsEmpty(c: Config, xs: seq<Input>, s: State)
    requires Reaches(c, xs, s)
    ensures s.stopped ==> s.batch == []
  {
    if xs != [] {
      hide Enabled, Step;
      var n := |xs| - 1;
      var p :| Reaches(c, xs[..n], p) && Enabled(c, p, xs[n]) && s == Step(c, p, xs[n]);
      StoppedIsEmpty(c, xs[..n], p);
      StepStops(c, p, xs[n]);
    }
  }

  // ---- How each delivery of a batch is answered

  lemma CallIsLogged(c: Config, hs: seq<Flushed>, h: Flushed, x: Item, e: Event)
    requires h in hs && x in h.items && e in SettleOne(c, h.ok)(x)
    ensures e in LogOf(c, hs)
  {
    hide FlatMap, SettleOne;
    InFlatMap(SettleOne(c, h.ok), h.items, e);
    InFlatMap(FlushCalls(c), hs, e);
    assert e in FlushCalls(c)(h);
  }

  /**
   In every run each delivery of a handled batch is acknowledged if the handler returned nil. If it failed, the delivery
   is asked for again after 30 seconds if its metadata cannot be read, dead-lettered and acknowledged once its count has
   reached the limit, and otherwise asked for again after the delay for its count.
   */
  lemma EachIsAnswered(c: Config, xs: seq<Input>, s: State, h: Flushed, x: Item)
    requires Reaches(c, xs, s) && h in s.handled && x in h.items && -MAX_COUNT <= c.maxDeliver < MAX_COUNT
    ensures h.ok ==> Ack(x.d) in s.log
    ensures !h.ok && !x.readable ==> NakWithDelay(x.d, 30_000_000_000) in s.log
    ensures !h.ok && x.readable && 0 <= c.maxDeliver <= x.d.num ==>
              Dlq(x.d, x.d.msg.payload, x.d.msg.headers, x.dlqOk) in s.log && Ack(x.d) in s.log
    ensures !h.ok && x.readable && x.d.num < (if c.maxDeliver < 0 then MAX_COUNT else c.maxDeliver) ==>
              NakWithDelay(x.d, Delay(c.backoff, x.d.num)) in s.log
  {
    hide Reaches, FlatMap, Delay, FlushCalls, LogOf;
    RunKeeps(c, xs, s);
    var es := SettleOne(c, h.ok)(x);
    forall e | e in es ensures e in s.log {
      CallIsLogged(c, s.handled, h, x, e);
    }
    assert es[0] in es && es[|es| - 1] in es;
  }
}
