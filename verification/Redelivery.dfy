/**
 What can still happen in a run of broker and consumer: a failing message can always be brought to its dead-letter
 call, and with a delivery limit of 0 it can be dead-lettered again and again.
 */
module Redelivery {
  import opened Seqs
  import opened Delivery

  /** A flush on which the handler fails and all metadata can be read. */
  function Failed(ds: seq<Delivery>): (out: Flushed)
    ensures |out.items| == |ds| && !out.ok
    ensures forall i :: 0 <= i < |ds| ==> out.items[i] == Item(ds[i], true, true)
  {
    Flushed(seq(|ds|, i requires 0 <= i < |ds| => Item(ds[i], true, true)), false)
  }

  lemma {:induction false} FailedDeliveries(ds: seq<Delivery>)
    ensures Deliveries(Failed(ds).items) == ds
  {
    if ds != [] {
      var n := |ds| - 1;
      FailedDeliveries(ds[..n]);
      assert Failed(ds).items == Failed(ds[..n]).items + [Item(ds[n], true, true)];
      FlatMapSnoc(DELIVERY_OF, Failed(ds[..n]).items, Item(ds[n], true, true));
    } else {
      assert Failed(ds).items == [];
    }
  }

  /** Nothing is on its way, and the loop is running. */
  predicate Quiet(s: State)
  {
    s.ch == [] && s.batch == [] && !s.stopped
  }

  predicate SameSource(s: State, t: State)
  {
    t.published == s.published && t.counts == s.counts && t.acked == s.acked && t.cancelled == s.cancelled
  }

  /** The loop can take everything that is on its way; here the handler fails on all of it. */
  lemma {:induction false} CanDrain(c: Config, xs: seq<Input>, s: State) returns (ys: seq<Input>, t: State)
    requires Reaches(c, xs, s) && !s.stopped
    ensures Reaches(c, xs + ys, t) && Quiet(t) && SameSource(s, t) && s.log <= t.log
    decreases |s.ch|
  {
    hide Deliveries, FlushCalls, Failed, Reaches;
    if s.ch == [] {
      FailedDeliveries(s.batch);
      var x := Timer(Failed(s.batch));
      ReachesMore(c, xs, s, x);
      ys, t := [x], Step(c, s, x);
    } else {
      FailedDeliveries(s.batch + [s.ch[0]]);
      var x := Receive(Failed(s.batch + [s.ch[0]]));
      ReachesMore(c, xs, s, x);
      ys, t := CanDrain(c, xs + [x], Step(c, s, x));
      assert xs + [x] + ys == xs + ([x] + ys);
      ys := [x] + ys;
    }
  }

  /** When nothing is on its way, the next delivery of a message can be brought to a flush of its own. */
  lemma CanDeliverAndFlush(c: Config, xs: seq<Input>, s: State, id: nat, out: Flushed)
      returns (ys: seq<Input>, t: State)
    requires Reaches(c, xs, s) && Quiet(s) && CanDeliver(c, s, id) && Deliveries(out.items) == [Next(s, id)]
    ensures Reaches(c, xs + ys, t) && Quiet(t)
    ensures var d := Next(s, id);
            t == Counting(s, d).(accepted := s.accepted + [d], handled := s.handled + [out],
              log := s.log + FlushCalls(c)(out))
  {
    hide Deliveries, FlushCalls, Reaches, Next;
    var d := Next(s, id);
    if c.maxBatch == 0 {
      var x := HandOff(id, out);
      assert Deliveries(out.items) == s.batch + [d];
      ReachesMore(c, xs, s, x);
      ys, t := [x], Step(c, s, x);
    } else {
      var x, y, z := Deliver(id, false), Receive(out), Timer(out);
      var s1 := Step(c, s, x);
      ReachesMore(c, xs, s, x);
      assert s1.ch == [d] && Deliveries(out.items) == s1.batch + [s1.ch[0]];
      var s2 := Step(c, s1, y);
      ReachesMore(c, xs + [x], s1, y);
      ys, t := [x, y], s2;
      assert xs + [x] + [y] == xs + [x, y];
      if c.maxBatch > 1 {
        assert s2.batch == [d];
        ReachesMore(c, xs + [x, y], s2, z);
        ys, t := [x, y, z], Step(c, s2, z);
        assert xs + [x, y] + [z] == xs + [x, y, z];
      }
    }
  }

  /** With the handler failing on it alone. */
  lemma CanFailOnce(c: Config, xs: seq<Input>, s: State, id: nat) returns (ys: seq<Input>, t: State)
    requires Reaches(c, xs, s) && Quiet(s) && CanDeliver(c, s, id)
    ensures Reaches(c, xs + ys, t) && Quiet(t) && t.published == s.published && t.acked == s.acked
    ensures NumDelivered(t, id) == NumDelivered(s, id) + 1
    ensures var d := Next(s, id);
            t.log == s.log + [Handle([d], Payloads([d]), false)] + SettleFailed(c, Item(d, true, true))
  {
    hide Reaches, SettleFailed;
    var d := Next(s, id);
    var out := Failed([d]);
    FailedDeliveries([d]);
    ys, t := CanDeliverAndFlush(c, xs, s, id, out);
    assert out.items == [Item(d, true, true)];
    FlatMapOne(SettleOne(c, false), Item(d, true, true));
    assert FlushCalls(c)(out) == [Handle([d], Payloads([d]), false)] + SettleFailed(c, Item(d, true, true));
  }

  /**
   As long as the loop runs and the broker may deliver a message again, a handler that keeps failing can bring it to
   its dead-letter call: no state of a run bars the way.
   */
  lemma {:induction false} CanReachDeadLetter(c: Config, xs: seq<Input>, s: State, id: nat)
      returns (ys: seq<Input>, t: State)
    requires Reaches(c, xs, s) && !s.stopped && 1 <= c.maxDeliver < MAX_COUNT
    requires id < |s.published| && id !in s.acked && NumDelivered(s, id) < c.maxDeliver
    ensures Reaches(c, xs + ys, t)
    ensures var d := Delivery(id, s.published[id], c.maxDeliver); Dlq(d, d.msg.payload, d.msg.headers, true) in t.log
  {
    hide Reaches;
    var y0, s0 := CanDrain(c, xs, s);
    var y1;
    y1, t := CanFailUntil(c, xs + y0, s0, id);
    ys := y0 + y1;
    assert xs + y0 + y1 == xs + ys;
  }

  lemma {:induction false} CanFailUntil(c: Config, xs: seq<Input>, s: State, id: nat) returns (ys: seq<Input>, t: State)
    requires Reaches(c, xs, s) && Quiet(s) && 1 <= c.maxDeliver < MAX_COUNT
    requires id < |s.published| && id !in s.acked && NumDelivered(s, id) < c.maxDeliver
    ensures Reaches(c, xs + ys, t)
    ensures var d := Delivery(id, s.published[id], c.maxDeliver); Dlq(d, d.msg.payload, d.msg.headers, true) in t.log
    decreases c.maxDeliver - NumDelivered(s, id)
  {
    hide Reaches;
    ys, t := CanFailOnce(c, xs, s, id);
    if NumDelivered(t, id) < c.maxDeliver {
      var more;
      var u := t;
      more, t := CanFailUntil(c, xs + ys, u, id);
      assert xs + ys + more == xs + (ys + more);
      ys := ys + more;
    }
  }

  lemma DeadLettersConcat(a: seq<Event>, b: seq<Event>)
    ensures DeadLetters(a + b) == DeadLetters(a) + DeadLetters(b)
  {
    FlatMapConcat(DEAD_BY, a, b);
  }

  /** With a limit of 0, one failing flush dead-letters the message whatever its count. */
  lemma FailureAtZero(c: Config, log: seq<Event>, d: Delivery)
    requires c.maxDeliver == 0
    ensures DeadLetters(log + [Handle([d], Payloads([d]), false)] + SettleFailed(c, Item(d, true, true))) ==
            DeadLetters(log) + [d]
  {
    hide FlatMap;
    DeadLettersConcat(log + [Handle([d], Payloads([d]), false)], SettleFailed(c, Item(d, true, true)));
    DeadLettersConcat(log, [Handle([d], Payloads([d]), false)]);
    FlatMapOne(DEAD_BY, Handle([d], Payloads([d]), false));
    FlatMapShort(DEAD_BY, SettleFailed(c, Item(d, true, true)));
  }

  lemma CanDeadLetterAtZero(c: Config, xs: seq<Input>, s: State, id: nat) returns (ys: seq<Input>, t: State)
    requires Reaches(c, xs, s) && Quiet(s) && CanDeliver(c, s, id) && c.maxDeliver == 0
    ensures Reaches(c, xs + ys, t) && Quiet(t) && t.published == s.published && t.acked == s.acked
    ensures NumDelivered(t, id) == NumDelivered(s, id) + 1 && DeadLetters(t.log) == DeadLetters(s.log) + [Next(s, id)]
  {
    hide Reaches, SettleFailed, DeadLetters, NumDelivered;
    ys, t := CanFailOnce(c, xs, s, id);
    FailureAtZero(c, s.log, Next(s, id));
  }

  /** A message redelivered before its acknowledgement arrives is dead-lettered a second time. */
  lemma DeadLetteredTwice(c: Config, m: Message) returns (xs: seq<Input>, s: State)
    requires c.maxDeliver == 0
    ensures Reaches(c, xs, s) && DeadLetters(s.log) == [Delivery(0, m, 1), Delivery(0, m, 2)]
  {
    var s0 := INIT.(published := [m]);
    PublishFirst(c, m);
    hide Reaches, DeadLetters, FlushCalls;
    var y1, s1 := CanDeadLetterAtZero(c, [Publish(m)], s0, 0);
    var y2, s2 := CanDeadLetterAtZero(c, [Publish(m)] + y1, s1, 0);
    xs, s := [Publish(m)] + y1 + y2, s2;
  }

  /** A run of one publication. */
  lemma PublishFirst(c: Config, m: Message)
    ensures Reaches(c, [Publish(m)], INIT.(published := [m])) && DeadLetters([]) == []
  {
    hide FlushCalls;
    assert Reaches(c, [], INIT);
    ReachesMore(c, [], INIT, Publish(m));
    assert [] + [Publish(m)] == [Publish(m)];
  }

  ghost predicate NeverTwice(c: Config)
  {
    forall xs, s, i, j :: Reaches(c, xs, s) && 0 <= i < j < |DeadLetters(s.log)| ==>
      DeadLetters(s.log)[i].id != DeadLetters(s.log)[j].id
  }

  /** That no run dead-letters a message twice holds for every delivery limit but 0. */
  lemma NeverTwiceExactlyWhen(c: Config)
    requires -MAX_COUNT <= c.maxDeliver < MAX_COUNT
    ensures NeverTwice(c) <==> c.maxDeliver != 0
  {
    hide Reaches, DeadLetters;
    if c.maxDeliver == 0 {
      var xs, s := DeadLetteredTwice(c, Message([], map[]));
      assert 0 <= 0 < 1 < |DeadLetters(s.log)| && DeadLetters(s.log)[0].id == DeadLetters(s.log)[1].id;
    } else if c.maxDeliver < 0 {
      forall xs, s | Reaches(c, xs, s) ensures DeadLetters(s.log) == [] {
        UnlimitedNeverDeadLetters(c, xs, s);
      }
    } else {
      forall xs, s, i, j | Reaches(c, xs, s) && 0 <= i < j < |DeadLetters(s.log)|
        ensures DeadLetters(s.log)[i].id != DeadLetters(s.log)[j].id
      {
        if DeadLetters(s.log)[i].id == DeadLetters(s.log)[j].id {
          DeadLetteredOnce(c, xs, s, i, j);
        }
      }
    }
  }
}
