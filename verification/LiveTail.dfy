/**
 The live-tail path from the broker subscription to the browser: a bounded channel that drops its oldest element, the
 websocket session that concatenates payloads between ticks, and the objects the browser decodes from its messages.
 */
module LiveTail {
  import opened Bytes
  import opened Options
  import opened Seqs
  import opened FlatLogCodec
  import opened Browser

  // ---- The drop-oldest channel, with the subscription callback and a reader interleaving

  type Payload = seq<byte>

  /** Where the callback is: between messages, having found no room, or at its final send. */
  datatype Callback = Idle | FoundFull(msg: Payload) | Sending(msg: Payload)

  datatype State = State(
    ch: seq<Payload>,
    readerWaits: bool,                 // the websocket loop is in its select, ready to receive
    callback: Callback,
    offered: seq<Payload>,             // history: messages the callback was called with
    gone: seq<(Payload, bool)>,        // history: messages that left the channel, and whether the reader got them
    fullArrivals: nat)                 // history: how many messages found no room

  datatype Input = Arrive(msg: Payload) | DropOldest | FinalSend | Read | Leave | Return

  const INIT := State([], false, Idle, [], [], 0)

  /**
   Go completes a send at once if the buffer has room or a receiver waits; a receiver waits on an empty channel only.
   */
  predicate CanSend(capacity: nat, s: State)
  {
    |s.ch| < capacity || (s.readerWaits && s.ch == [])
  }

  predicate Enabled(capacity: nat, s: State, x: Input)
  {
    match x
    case Arrive(_) => s.callback.Idle?
    case DropOldest => s.callback.FoundFull?
    case FinalSend => s.callback.Sending? && CanSend(capacity, s)
    case Read => s.readerWaits && s.ch != []
    case Leave => s.readerWaits        // the select takes another case
    case Return => !s.readerWaits
  }

  /** The message goes into the buffer, or straight to the reader if there is no buffer. */
  function Send(capacity: nat, s: State, msg: Payload): State
    requires CanSend(capacity, s)
  {
    if |s.ch| < capacity then s.(ch := s.ch + [msg])
    else s.(gone := s.gone + [(msg, true)], readerWaits := false)
  }

  function Step(capacity: nat, s: State, x: Input): State
    requires Enabled(capacity, s, x)
  {
    match x
    case Arrive(msg) =>
      if CanSend(capacity, s) then Send(capacity, s.(offered := s.offered + [msg]), msg)
      else s.(callback := FoundFull(msg), offered := s.offered + [msg], fullArrivals := s.fullArrivals + 1)
    case DropOldest =>
      var msg := s.callback.msg;
      if s.ch == [] then s.(callback := Sending(msg))
      else s.(callback := Sending(msg), ch := s.ch[1..], gone := s.gone + [(s.ch[0], false)])
    case FinalSend => Send(capacity, s.(callback := Idle), s.callback.msg)
    case Read => s.(ch := s.ch[1..], gone := s.gone + [(s.ch[0], true)], readerWaits := false)
    case Leave => s.(readerWaits := false)
    case Return => s.(readerWaits := true)
  }

  ghost predicate Reaches(capacity: nat, xs: seq<Input>, s: State)
  {
    if xs == [] then s == INIT
    else
      var n := |xs| - 1;
      exists p :: Reaches(capacity, xs[..n], p) && Enabled(capacity, p, xs[n]) && s == Step(capacity, p, xs[n])
  }

  const PAYLOAD_OF: ((Payload, bool)) -> seq<Payload> := (g: (Payload, bool)) => [g.0]
  const IF_READ: ((Payload, bool)) -> seq<Payload> := (g: (Payload, bool)) => if g.1 then [g.0] else []
  const WAS_DROPPED: ((Payload, bool)) -> bool := (g: (Payload, bool)) => !g.1

  /** What the reader received, in order. */
  function Received(s: State): seq<Payload>
  {
    FlatMap(IF_READ, s.gone)
  }

  /** How many messages were dropped. */
  function Drops(s: State): nat
  {
    Count(WAS_DROPPED, s.gone)
  }

  function Pending(s: State): seq<Payload>
  {
    if s.callback.Idle? then [] else [s.callback.msg]
  }

  ghost predicate Invariant(capacity: nat, s: State)
  {
    && FlatMap(PAYLOAD_OF, s.gone) + s.ch + Pending(s) == s.offered
    && |s.ch| <= capacity && (s.callback.Sending? ==> |s.ch| < capacity || capacity == 0)
    && Drops(s) + One(s.callback.FoundFull?) <= s.fullArrivals <= |s.offered|
  }

  /** Sending the message that is last in `offered` and not yet in the channel. */
  lemma SendKeeps(capacity: nat, s: State, msg: Payload)
    requires CanSend(capacity, s) && s.callback.Idle? && |s.ch| <= capacity
    requires FlatMap(PAYLOAD_OF, s.gone) + s.ch + [msg] == s.offered
    requires Drops(s) <= s.fullArrivals <= |s.offered|
    ensures Invariant(capacity, Send(capacity, s, msg))
  {
    hide FlatMap, Count;
    var done := FlatMap(PAYLOAD_OF, s.gone);
    assert done + (s.ch + [msg]) + [] == done + s.ch + [msg];
    FlatMapSnoc(PAYLOAD_OF, s.gone, (msg, true));
    CountSnoc(WAS_DROPPED, s.gone, (msg, true));
    assert s.ch == [] ==> done + [msg] + [] + [] == done + s.ch + [msg];
  }

  /** The oldest message leaves the channel, read or dropped. */
  lemma LeaveKeeps(capacity: nat, s: State, t: State, read: bool)
    requires Invariant(capacity, s) && s.ch != [] && t.offered == s.offered && Pending(t) == Pending(s)
    requires t.ch == s.ch[1..] && t.gone == s.gone + [(s.ch[0], read)] && t.fullArrivals == s.fullArrivals
    requires if read then t.callback == s.callback else s.callback.FoundFull? && t.callback.Sending?
    ensures Invariant(capacity, t)
  {
    hide FlatMap, Count;
    var done := FlatMap(PAYLOAD_OF, s.gone);
    FlatMapSnoc(PAYLOAD_OF, s.gone, (s.ch[0], read));
    CountSnoc(WAS_DROPPED, s.gone, (s.ch[0], read));
    assert s.ch == [s.ch[0]] + s.ch[1..];
    assert done + [s.ch[0]] + s.ch[1..] + Pending(s) == done + ([s.ch[0]] + s.ch[1..]) + Pending(s);
  }

  lemma StepKeeps(capacity: nat, s: State, x: Input)
    requires Invariant(capacity, s) && Enabled(capacity, s, x)
    ensures Invariant(capacity, Step(capacity, s, x))
  {
    hide FlatMap, Count;
    var done, t := FlatMap(PAYLOAD_OF, s.gone), Step(capacity, s, x);
    match x
    case Arrive(msg) =>
      assert done + s.ch + [] + [msg] == done + s.ch + [msg];
      if CanSend(capacity, s) {
        SendKeeps(capacity, s.(offered := s.offered + [msg]), msg);
      }
    case FinalSend => SendKeeps(capacity, s.(callback := Idle), s.callback.msg);
    case DropOldest =>
      if s.ch != [] {
        LeaveKeeps(capacity, s, t, false);
      }
    case Read => LeaveKeeps(capacity, s, t, true);
    case _ =>
  }

  lemma {:induction false} RunKeeps(capacity: nat, xs: seq<Input>, s: State)
    requires Reaches(capacity, xs, s)
    ensures Invariant(capacity, s)
  {
    if xs != [] {
      hide Invariant, Enabled, Step;
      var n := |xs| - 1;
      var p :| Reaches(capacity, xs[..n], p) && Enabled(capacity, p, xs[n]) && s == Step(capacity, p, xs[n]);
      RunKeeps(capacity, xs[..n], p);
      StepKeeps(capacity, p, xs[n]);
    }
  }

  /** In every run the callback's final send waits exactly if the channel has no buffer and the reader is elsewhere. */
  lemma FinalSendWaitsExactly(capacity: nat, xs: seq<Input>, s: State)
    requires Reaches(capacity, xs, s) && s.callback.Sending?
    ensures !Enabled(capacity, s, FinalSend) <==> capacity == 0 && !s.readerWaits
  {
    hide FlatMap, Count;
    RunKeeps(capacity, xs, s);
  }

  /** A message is dropped only to make room for another, so without a buffer none ever is. */
  lemma NothingDroppedWithoutBuffer(xs: seq<Input>, s: State)
    requires Reaches(0, xs, s)
    ensures Received(s) + Pending(s) == s.offered
  {
    hide Invariant;
    NoneDropped(xs, s);
    RunKeeps(0, xs, s);
    AllRead(s.gone);
    assert s.ch == [] && FlatMap(PAYLOAD_OF, s.gone) + s.ch + Pending(s) == s.offered by { Parts(0, s); }
    assert FlatMap(PAYLOAD_OF, s.gone) + [] == FlatMap(PAYLOAD_OF, s.gone);
  }

  lemma Parts(capacity: nat, s: State)
    requires Invariant(capacity, s)
    ensures |s.ch| <= capacity && FlatMap(PAYLOAD_OF, s.gone) + s.ch + Pending(s) == s.offered
  {
  }

  lemma {:induction false} NoneDropped(xs: seq<Input>, s: State)
    requires Reaches(0, xs, s)
    ensures s.ch == [] && forall g :: g in s.gone ==> g.1
  {
    if xs != [] {
      var n := |xs| - 1;
      var p :| Reaches(0, xs[..n], p) && Enabled(0, p, xs[n]) && s == Step(0, p, xs[n]);
      NoneDropped(xs[..n], p);
    }
  }

  lemma {:induction false} AllRead(gone: seq<(Payload, bool)>)
    requires forall g :: g in gone ==> g.1
    ensures FlatMap(IF_READ, gone) == FlatMap(PAYLOAD_OF, gone)
  {
    FlatMapSame(IF_READ, PAYLOAD_OF, gone);
  }

  /** The channel always holds a contiguous stretch of what was published, right after everything that left it. */
  lemma ContiguousContents(capacity: nat, xs: seq<Input>, s: State)
    requires Reaches(capacity, xs, s)
    ensures |s.gone| + |s.ch| <= |s.offered| && s.ch == s.offered[|s.gone|..|s.gone| + |s.ch|] && |s.ch| <= capacity
  {
    RunKeeps(capacity, xs, s);
    OnePayloadEach(s.gone);
  }

  lemma {:induction false} OnePayloadEach(gone: seq<(Payload, bool)>)
    ensures |FlatMap(PAYLOAD_OF, gone)| == |gone|
    ensures forall i :: 0 <= i < |gone| ==> FlatMap(PAYLOAD_OF, gone)[i] == gone[i].0
  {
    if gone != [] {
      OnePayloadEach(gone[..|gone| - 1]);
    }
  }

  /**
   The reader sees published messages in publish order; at most one is dropped per message that finds the channel
   full.
   */
  lemma ReaderSeesSubsequence(capacity: nat, xs: seq<Input>, s: State)
    requires Reaches(capacity, xs, s)
    ensures Subsequence(Received(s), s.offered)
    ensures Drops(s) <= s.fullArrivals <= |s.offered|
    ensures |Received(s)| + Drops(s) + |s.ch| + |Pending(s)| == |s.offered|
  {
    RunKeeps(capacity, xs, s);
    ReadIsSubsequence(s.gone);
    OnePayloadEach(s.gone);
    var rest := s.ch + Pending(s);
    assert FlatMap(PAYLOAD_OF, s.gone) + rest == s.offered;
    NothingIsSubsequence(rest);
    SubsequenceConcat(Received(s), FlatMap(PAYLOAD_OF, s.gone), [], rest);
    assert Received(s) + [] == Received(s);
  }

  /** What `ys` does from state `s`. */
  ghost predicate Continues(capacity: nat, s: State, ys: seq<Input>, t: State)
  {
    if ys == [] then t == s
    else
      var n := |ys| - 1;
      exists p :: Continues(capacity, s, ys[..n], p) && Enabled(capacity, p, ys[n]) && t == Step(capacity, p, ys[n])
  }

  /** A step other than an arrival adds to what has left, and drops only for the message that found no room. */
  lemma StepDrops(capacity: nat, s: State, x: Input)
    requires Enabled(capacity, s, x) && !x.Arrive?
    ensures s.gone <= Step(capacity, s, x).gone
    ensures var t := Step(capacity, s, x);
            Drops(t) + One(t.callback.FoundFull?) <= Drops(s) + One(s.callback.FoundFull?)
  {
    hide Count;
    if s.ch != [] {
      CountSnoc(WAS_DROPPED, s.gone, (s.ch[0], true));
      CountSnoc(WAS_DROPPED, s.gone, (s.ch[0], false));
    }
    if x.FinalSend? {
      CountSnoc(WAS_DROPPED, s.gone, (s.callback.msg, true));
    }
  }

  /**
   Until the next message arrives, a message costs at most one older one, and that only if there was neither room nor a
   waiting reader when it arrived.
   */
  lemma {:induction false} OneDropPerMessage(capacity: nat, s: State, msg: Payload, ys: seq<Input>, t: State)
    requires Enabled(capacity, s, Arrive(msg)) && Continues(capacity, Step(capacity, s, Arrive(msg)), ys, t)
    requires forall y :: y in ys ==> !y.Arrive?
    ensures s.gone <= t.gone && Drops(t) + One(t.callback.FoundFull?) <= Drops(s) + One(!CanSend(capacity, s))
  {
    hide Count;
    if ys == [] {
      if CanSend(capacity, s) {
        CountSnoc(WAS_DROPPED, s.gone, (msg, true));
      }
    } else {
      var n := |ys| - 1;
      var p :| Continues(capacity, Step(capacity, s, Arrive(msg)), ys[..n], p) && Enabled(capacity, p, ys[n])
               && t == Step(capacity, p, ys[n]);
      hide Enabled, Step, CanSend, Drops;
      OneDropPerMessage(capacity, s, msg, ys[..n], p);
      StepDrops(capacity, p, ys[n]);
    }
  }

  lemma {:induction false} ReadIsSubsequence(gone: seq<(Payload, bool)>)
    ensures Subsequence(FlatMap(IF_READ, gone), FlatMap(PAYLOAD_OF, gone))
    ensures |FlatMap(IF_READ, gone)| + Count(WAS_DROPPED, gone) == |gone|
  {
    if gone != [] {
      var n := |gone| - 1;
      ReadIsSubsequence(gone[..n]);
      SubsequenceSnoc(FlatMap(IF_READ, gone[..n]), FlatMap(PAYLOAD_OF, gone[..n]), gone[n].0);
      assert FlatMap(IF_READ, gone[..n]) + [] == FlatMap(IF_READ, gone[..n]);
    }
  }

  // ---- The websocket session

  /**
   The session of one websocket. `pending` and `groups` say which records the accumulated bytes and the messages
   written so far are made of.
   */
  class Session {
    var batch: seq<byte>
    var sent: seq<seq<byte>>
    ghost var pending: seq<FlatLog>
    ghost var groups: seq<seq<FlatLog>>
    /** The messages handed to the websocket, and whether the write succeeded. */
    ghost var writes: seq<(seq<byte>, bool)>

    ghost predicate Valid()
      reads this
    {
      && batch == EncodeMany(pending) && |sent| == |groups|
      && forall i :: 0 <= i < |sent| ==> sent[i] == EncodeMany(groups[i]) && groups[i] != []
    }

    constructor ()
      ensures Valid() && pending == [] && groups == [] && writes == []
    {
      batch, sent, pending, groups, writes := [], [], [], [], [];
    }

    method OnPayload(payload: seq<byte>, ghost z: FlatLog)
      requires Valid() && payload == EncodeLog(z)
      modifies this
      ensures Valid() && pending == old(pending) + [z] && groups == old(groups) && writes == old(writes)
    {
      hide EncodeLog;
      EncodeManySnoc(pending, z);
      batch := batch + payload;
      pending := pending + [z];
    }

    /** Writes what has accumulated, if anything, once; a write that fails ends the session, and nothing else does. */
    method OnTick() returns (open: bool)
      requires Valid()
      modifies this
      ensures Valid()
      ensures writes == if old(pending) == [] then old(writes) else old(writes) + [(EncodeMany(old(pending)), open)]
      ensures old(pending) == [] ==> open
      ensures open ==> pending == []
      ensures open ==> groups == if old(pending) == [] then old(groups) else old(groups) + [old(pending)]
      ensures !open ==> pending == old(pending) && groups == old(groups)
    {
      hide EncodeLog;
      NotEmpty(pending);
      if |batch| == 0 { return true; }
      open := *;
      writes := writes + [(batch, open)];
      if open {
        sent, groups := sent + [batch], groups + [pending];
        batch, pending := [], [];
      }
    }
  }

  lemma {:induction false} EncodeManySnoc(zs: seq<FlatLog>, z: FlatLog)
    ensures EncodeMany(zs + [z]) == EncodeMany(zs) + EncodeLog(z)
  {
    hide EncodeLog;
    if zs == [] {
      assert [z][1..] == [];
    } else {
      assert (zs + [z])[1..] == zs[1..] + [z];
      EncodeManySnoc(zs[1..], z);
    }
  }

  lemma NotEmpty(zs: seq<FlatLog>)
    ensures EncodeMany(zs) == [] <==> zs == []
  {
    if zs != [] {
      assert |EncodeLog(zs[0])| >= 3 by { hide EncodeFields; }
    }
  }

  /** What the browser decodes from one websocket message. */
  const DECODED_IN: seq<byte> -> seq<Js> := (message: seq<byte>) => DecodeMulti(message).0

  const SEEN_IN: seq<FlatLog> -> seq<Js> := (zs: seq<FlatLog>) => SeenAll(zs)

  const WHOLE: seq<FlatLog> -> seq<FlatLog> := (zs: seq<FlatLog>) => zs

  /** The records sent in all messages of a session. */
  function Sent(groups: seq<seq<FlatLog>>): seq<FlatLog>
  {
    FlatMap(WHOLE, groups)
  }

  /**
   Over all messages of a session the browser decodes the objects of the records sent, in order, and every message
   decodes fully. Browser.FifteenFieldsSeen says what the pages read from such an object.
   */
  lemma SessionDecodes(sent: seq<seq<byte>>, groups: seq<seq<FlatLog>>)
    requires |sent| == |groups| && forall i :: 0 <= i < |sent| ==> sent[i] == EncodeMany(groups[i])
    requires forall zs, z :: zs in groups && z in zs ==> WithinLimits(z)
    ensures FlatMap(DECODED_IN, sent) == SeenAll(Sent(groups))
    ensures forall m :: m in sent ==> DecodeMulti(m).1
    ensures forall o :: o in FlatMap(DECODED_IN, sent) ==> ReadField(o, ResAttrKeys) == None
  {
    hide WithinLimits, EncodeMany, DecodeMulti, FlatMap, SeenAll, ReadField, Seen;
    MessagesDecode(sent, groups);
    assert forall zs :: zs in groups ==> FlatMap(SEEN, WHOLE(zs)) == SEEN_IN(zs) by { SeenAllIsFlatMap(groups); }
    FlatMapTwice(WHOLE, SEEN, SEEN_IN, groups);
    assert SeenAll(Sent(groups)) == FlatMap(SEEN, FlatMap(WHOLE, groups)) by { SeenAllIs(Sent(groups)); }
    NoResAttrKeys(Sent(groups));
  }

  lemma SeenAllIs(zs: seq<FlatLog>)
    ensures SeenAll(zs) == FlatMap(SEEN, zs)
  {
  }

  lemma SeenAllIsFlatMap(groups: seq<seq<FlatLog>>)
    ensures forall zs :: zs in groups ==> FlatMap(SEEN, WHOLE(zs)) == SEEN_IN(zs)
  {
  }

  lemma NoResAttrKeys(zs: seq<FlatLog>)
    ensures forall o :: o in SeenAll(zs) ==> ReadField(o, ResAttrKeys) == None
  {
    hide FlatMap, Seen, ReadField;
    forall o | o in SeenAll(zs) ensures ReadField(o, ResAttrKeys) == None {
      InFlatMap(SEEN, zs, o);
      var z :| z in zs && o in SEEN(z);
      FifteenFieldsSeen(z, ResAttrKeys);
    }
  }

  lemma {:induction false} MessagesDecode(sent: seq<seq<byte>>, groups: seq<seq<FlatLog>>)
    requires |sent| == |groups| && forall i :: 0 <= i < |sent| ==> sent[i] == EncodeMany(groups[i])
    requires forall zs, z :: zs in groups && z in zs ==> WithinLimits(z)
    ensures FlatMap(DECODED_IN, sent) == FlatMap(SEEN_IN, groups)
    ensures forall m :: m in sent ==> DecodeMulti(m).1
  {
    hide WithinLimits, EncodeMany, DecodeMulti, FlatMap, SeenAll;
    if sent == [] {
      FlatMapNone(DECODED_IN);
      FlatMapNone(SEEN_IN);
    } else {
      var n := |sent| - 1;
      MessagesDecode(sent[..n], groups[..n]);
      assert groups[n] in groups;
      MessageDecodes(groups[n]);
      assert sent == sent[..n] + [sent[n]] && groups == groups[..n] + [groups[n]];
      FlatMapSnoc(DECODED_IN, sent[..n], sent[n]);
      FlatMapSnoc(SEEN_IN, groups[..n], groups[n]);
    }
  }

  const ENCODED: FlatLog -> seq<Payload> := (z: FlatLog) => [EncodeLog(z)]

  /**
   From subscription to browser: if the messages published are encodings of records and the payloads the session read
   from the channel were put into messages in the order read, then what the browser decodes, followed by what it will
   decode from the next message, is a subsequence of the objects of the published records, in publish order.
   */
  lemma EndToEnd(capacity: nat, xs: seq<Input>, s: State, published: seq<FlatLog>, sent: seq<seq<byte>>,
                 groups: seq<seq<FlatLog>>, pending: seq<FlatLog>)
    requires Reaches(capacity, xs, s) && s.offered == FlatMap(ENCODED, published)
    requires forall z :: z in published ==> WithinLimits(z)
    requires |sent| == |groups| && forall i :: 0 <= i < |sent| ==> sent[i] == EncodeMany(groups[i])
    requires Received(s) == FlatMap(ENCODED, Sent(groups) + pending)
    requires forall z :: z in Sent(groups) + pending ==> WithinLimits(z)
    ensures Subsequence(Sent(groups) + pending, published)
    ensures Subsequence(FlatMap(DECODED_IN, sent) + SeenAll(pending), SeenAll(published))
  {
    hide WithinLimits, EncodeLog, FlatMap, Subsequence, SeenAll, Sent;
    var got := Sent(groups) + pending;
    ReaderSeesSubsequence(capacity, xs, s);
    DecodeSubsequence(got, published);
    forall zs, z | zs in groups && z in zs ensures WithinLimits(z) {
      InSent(groups, zs, z);
      assert z in got;
    }
    SessionDecodes(sent, groups);
    SeenSubsequence(got, published);
    SeenAllConcat(Sent(groups), pending);
  }

  lemma InSent(groups: seq<seq<FlatLog>>, zs: seq<FlatLog>, z: FlatLog)
    requires zs in groups && z in zs
    ensures z in Sent(groups)
  {
    hide FlatMap;
    InFlatMap(WHOLE, groups, z);
    assert z in WHOLE(zs);
  }

  lemma SeenAllConcat(a: seq<FlatLog>, b: seq<FlatLog>)
    ensures SeenAll(a + b) == SeenAll(a) + SeenAll(b)
  {
    FlatMapConcat(SEEN, a, b);
  }

  lemma {:induction false} SeenSubsequence(a: seq<FlatLog>, b: seq<FlatLog>)
    requires Subsequence(a, b)
    ensures Subsequence(SeenAll(a), SeenAll(b))
  {
    hide FlatMap, Seen;
    if b == [] {
      FlatMapNone(SEEN);
    } else {
      hide SeenAll;
      var m, n := |a| - 1, |b| - 1;
      SeenAllSnoc(b);
      if Subsequence(a, b[..n]) {
        SeenSubsequence(a, b[..n]);
      } else {
        SeenAllSnoc(a);
        SeenSubsequence(a[..m], b[..n]);
      }
      SubsequenceSnoc(SeenAll(if Subsequence(a, b[..n]) then a else a[..m]), SeenAll(b[..n]), Seen(b[n]));
    }
  }

  lemma SeenAllSnoc(a: seq<FlatLog>)
    requires a != []
    ensures SeenAll(a) == SeenAll(a[..|a| - 1]) + [Seen(a[|a| - 1])]
  {
    hide Seen;
  }

  lemma {:induction false} OneEncodingEach(zs: seq<FlatLog>)
    ensures |FlatMap(ENCODED, zs)| == |zs| && forall i :: 0 <= i < |zs| ==> FlatMap(ENCODED, zs)[i] == EncodeLog(zs[i])
  {
    hide EncodeLog;
    if zs != [] {
      OneEncodingEach(zs[..|zs| - 1]);
    }
  }

  /** Encodings determine records, so a subsequence of encodings is a subsequence of records. */
  lemma {:induction false} DecodeSubsequence(a: seq<FlatLog>, b: seq<FlatLog>)
    requires Subsequence(FlatMap(ENCODED, a), FlatMap(ENCODED, b))
    requires (forall z :: z in a ==> WithinLimits(z)) && forall z :: z in b ==> WithinLimits(z)
    ensures Subsequence(a, b)
  {
    hide WithinLimits, EncodeLog;
    OneEncodingEach(a);
    OneEncodingEach(b);
    if b != [] {
      var m, n := |a| - 1, |b| - 1;
      if Subsequence(FlatMap(ENCODED, a), FlatMap(ENCODED, b[..n])) {
        DecodeSubsequence(a, b[..n]);
      } else {
        DecodeSubsequence(a[..m], b[..n]);
        SameEncoding(a[m], b[n]);
      }
    }
  }

  lemma SameEncoding(y: FlatLog, z: FlatLog)
    requires EncodeLog(y) == EncodeLog(z) && WithinLimits(y) && WithinLimits(z)
    ensures y == z
  {
    hide EncodeLog, DecodeLog, WithinLimits;
    RoundTrip(y, [], EMPTY);
    RoundTrip(z, [], EMPTY);
  }
}
