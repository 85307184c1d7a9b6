/**
 The browser's ring of recent logs and its display order, and the worker that feeds it. The ring holds decoded
 objects, as the worker does not check what it decodes.
 */
module LogRing {
  import opened Bytes
  import opened Seqs
  import opened FlatLogCodec
  import opened Browser

  // ---- Stable sorting by descending timestamp

  /** The timestamp is a number, as the comparison of the sort expects. */
  predicate Stamped(v: Js)
  {
    var t := Property(v, Ascii("timestamp"));
    t.Some? && t.value.Number?
  }

  /** The timestamp of an object; what an object without a number is given here does not matter. */
  function Stamp(v: Js): int
  {
    match Property(v, Ascii("timestamp"))
    case Some(Number(n)) => n
    case _ => 0
  }

  predicate AllStamped(s: seq<Js>)
  {
    forall v :: v in s ==> Stamped(v)
  }

  /** A record's object is ordered by its microseconds. */
  lemma StampOfRecord(z: FlatLog)
    ensures Stamped(Seen(z)) && Stamp(Seen(z)) == Micros(z.timestamp)
  {
    hide Seen;
    FifteenFieldsSeen(z, Timestamp);
  }

  lemma RecordsStamped(zs: seq<FlatLog>)
    ensures AllStamped(SeenAll(zs))
  {
    hide Seen, Stamped;
    forall v | v in SeenAll(zs) ensures Stamped(v) {
      InFlatMap(SEEN, zs, v);
      var z :| z in zs && v in SEEN(z);
      StampOfRecord(z);
    }
  }

  predicate Descending(s: seq<Js>)
  {
    forall i, j :: 0 <= i < j < |s| ==> Stamp(s[i]) >= Stamp(s[j])
  }

  /** The items with a given timestamp, in order. */
  function At(k: int): Js -> seq<Js>
  {
    (z: Js) => if Stamp(z) == k then [z] else []
  }

  /** `r` is `s` sorted by descending timestamp, items of equal timestamp in their original order. */
  ghost predicate StablySorted(s: seq<Js>, r: seq<Js>)
  {
    Descending(r) && forall k :: FlatMap(At(k), r) == FlatMap(At(k), s)
  }

  function Insert(z: Js, s: seq<Js>): seq<Js>
  {
    if s == [] || Stamp(z) >= Stamp(s[0]) then [z] + s else [s[0]] + Insert(z, s[1..])
  }

  function SortDescending(s: seq<Js>): seq<Js>
  {
    if s == [] then [] else Insert(s[0], SortDescending(s[1..]))
  }

  /** Items of different timestamps pass each other without changing what is at any timestamp. */
  lemma Pass(k: int, y: Js, z: Js, r: seq<Js>)
    requires Stamp(y) != Stamp(z)
    ensures At(k)(y) + (At(k)(z) + r) == At(k)(z) + (At(k)(y) + r)
  {
    hide Stamp;
  }

  lemma {:induction false} InsertSorts(z: Js, s: seq<Js>)
    requires Descending(s)
    ensures Descending(Insert(z, s)) && forall y :: y in Insert(z, s) <==> y == z || y in s
    ensures forall k :: FlatMap(At(k), Insert(z, s)) == At(k)(z) + FlatMap(At(k), s)
  {
    hide FlatMap, Stamp, At;
    if s == [] || Stamp(z) >= Stamp(s[0]) {
      forall k ensures FlatMap(At(k), [z] + s) == At(k)(z) + FlatMap(At(k), s) {
        FlatMapConcat(At(k), [z], s);
        FlatMapOne(At(k), z);
      }
    } else {
      var tail := s[1..];
      InsertSorts(z, tail);
      assert s == [s[0]] + tail;
      forall k ensures FlatMap(At(k), [s[0]] + Insert(z, tail)) == At(k)(z) + FlatMap(At(k), s) {
        FlatMapConcat(At(k), [s[0]], Insert(z, tail));
        FlatMapConcat(At(k), [s[0]], tail);
        FlatMapOne(At(k), s[0]);
        Pass(k, s[0], z, FlatMap(At(k), tail));
      }
      assert forall y :: y in Insert(z, tail) ==> Stamp(y) <= Stamp(s[0]);
    }
  }

  lemma {:induction false} SortSorts(s: seq<Js>)
    ensures StablySorted(s, SortDescending(s)) && forall y :: y in SortDescending(s) <==> y in s
  {
    hide FlatMap, Insert, Descending;
    if s == [] {
      assert Descending([]) by { NothingDescends(); }
    } else {
      SortSorts(s[1..]);
      InsertSorts(s[0], SortDescending(s[1..]));
      assert s == [s[0]] + s[1..];
      forall k ensures FlatMap(At(k), SortDescending(s)) == FlatMap(At(k), s) {
        FlatMapConcat(At(k), [s[0]], s[1..]);
        FlatMapOne(At(k), s[0]);
      }
    }
  }

  lemma NothingDescends()
    ensures Descending([])
  {
  }

  lemma {:induction false} FirstOfAt(r: seq<Js>)
    requires r != []
    ensures FlatMap(At(Stamp(r[0])), r) == [r[0]] + FlatMap(At(Stamp(r[0])), r[1..])
  {
    assert r == [r[0]] + r[1..];
    FlatMapConcat(At(Stamp(r[0])), [r[0]], r[1..]);
    FlatMapOne(At(Stamp(r[0])), r[0]);
  }

  lemma InAt(k: int, s: seq<Js>, y: Js)
    ensures y in FlatMap(At(k), s) <==> y in s && Stamp(y) == k
  {
    hide FlatMap, Stamp;
    InFlatMap(At(k), s, y);
    assert y in s && Stamp(y) == k ==> y in At(k)(y);
  }

  /** Sequences in descending order with the same items at every timestamp start with the same item. */
  lemma SameHead(a: seq<Js>, b: seq<Js>)
    requires a != [] && Descending(a) && Descending(b) && forall k :: FlatMap(At(k), a) == FlatMap(At(k), b)
    ensures b != [] && a[0] == b[0]
  {
    hide FlatMap, Stamp;
    var k := Stamp(a[0]);
    InAt(k, a, a[0]);
    InAt(k, b, a[0]);
    InAt(Stamp(b[0]), a, b[0]);
    InAt(Stamp(b[0]), b, b[0]);
    assert Stamp(b[0]) == k;
    FirstOfAt(a);
    FirstOfAt(b);
    assert FlatMap(At(k), a)[0] == a[0] && FlatMap(At(k), b)[0] == b[0];
  }

  /** There is only one stable sort, so any stable sorting routine returns the same sequence. */
  lemma {:induction false} StableSortUnique(a: seq<Js>, b: seq<Js>)
    requires Descending(a) && Descending(b) && forall k :: FlatMap(At(k), a) == FlatMap(At(k), b)
    ensures a == b
  {
    hide FlatMap, Stamp;
    if a != [] {
      SameHead(a, b);
      var c, d := a[1..], b[1..];
      assert a == [a[0]] + c && b == [a[0]] + d;
      forall j ensures FlatMap(At(j), c) == FlatMap(At(j), d) {
        FlatMapConcat(At(j), [a[0]], c);
        FlatMapConcat(At(j), [a[0]], d);
        var n := |FlatMap(At(j), [a[0]])|;
        assert FlatMap(At(j), a)[n..] == FlatMap(At(j), c) && FlatMap(At(j), b)[n..] == FlatMap(At(j), d);
      }
      StableSortUnique(c, d);
    } else if b != [] {
      SameHead(b, a);
    }
  }

  // ---- The ring

  /** The last `n` elements. */
  function Last<T>(s: seq<T>, n: nat): seq<T>
  {
    if |s| <= n then s else s[|s| - n..]
  }

  function Reversed<T>(s: seq<T>): (r: seq<T>)
    ensures |r| == |s| && forall i :: 0 <= i < |s| ==> r[i] == s[|s| - 1 - i]
  {
    seq(|s|, i requires 0 <= i < |s| => s[|s| - 1 - i])
  }

  /** What a ring holds, oldest first, when `head` is written next. */
  function Held<T>(ring: seq<T>, head: nat, size: nat): (s: seq<T>)
    requires head < |ring| && size <= |ring| && (size < |ring| ==> head == size)
    ensures |s| == size
  {
    if size < |ring| then ring[..head] else ring[head..] + ring[..head]
  }

  lemma SetAt<T>(s: seq<T>, i: nat, x: T)
    requires i < |s|
    ensures s[i := x][..i + 1] == s[..i] + [x] && s[i := x][i + 1..] == s[i + 1..]
  {
  }

  lemma DropFirst<T>(a: seq<T>, b: seq<T>, x: T)
    requires a != []
    ensures (a + b + [x])[1..] == a[1..] + (b + [x]) && |a + b + [x]| == |a| + |b| + 1
  {
  }

  lemma Ends<T>(s: seq<T>)
    ensures s[..|s|] == s && s[0..] + s[..0] == s && s[|s|..] + s == s
  {
  }

  lemma LastIs<T>(s: seq<T>, n: nat)
    ensures |s| <= n ==> Last(s, n) == s
    ensures |s| == n + 1 ==> Last(s, n) == s[1..]
  {
  }

  /** Overwriting at the head and moving it on, across the end of the array too, keeps the latest items. */
  lemma HeldAfterAdd<T>(ring: seq<T>, head: nat, size: nat, x: T)
    requires head < |ring| && size <= |ring| && (size < |ring| ==> head == size)
    ensures var next := if head + 1 == |ring| then 0 else head + 1;
            var grown := if size < |ring| then size + 1 else size;
            && (grown < |ring| ==> next == grown)
            && Held(ring[head := x], next, grown) == Last(Held(ring, head, size) + [x], |ring|)
  {
    hide Last;
    var n, after := |ring|, ring[head := x];
    SetAt(ring, head, x);
    LastIs(Held(ring, head, size) + [x], n);
    if size == n {
      DropFirst(ring[head..], ring[..head], x);
      assert ring[head..][1..] == ring[head + 1..];
    }
    if head + 1 == n {
      Ends(after);
    }
  }

  /** Where the `i`th newest item is. */
  lemma NewestAt<T>(ring: seq<T>, head: nat, size: nat, i: nat)
    requires head < |ring| && i < size <= |ring| && (size < |ring| ==> head == size)
    ensures Reversed(Held(ring, head, size))[i] == ring[if i < head then head - 1 - i else |ring| + head - 1 - i]
  {
  }

  /** What the browser shows for a history of arrivals: the latest, sorted; equal times show latest arrivals first. */
  function Display(history: seq<Js>, maxSize: nat): seq<Js>
  {
    SortDescending(Reversed(Last(history, maxSize)))
  }

  /**
   What an array shown is for the items it is made of, given newest first: the same items in some order; if all of them
   have numbers for timestamps, sorted stably.
   */
  ghost predicate Shows(items: seq<Js>, shown: seq<Js>)
  {
    && multiset(shown) == multiset(items)
    && (AllStamped(items) ==> shown == SortDescending(items) && StablySorted(items, shown))
  }

  lemma {:induction false} InsertItems(z: Js, s: seq<Js>)
    ensures multiset(Insert(z, s)) == multiset(s) + multiset{z}
  {
    hide Stamp;
    if s != [] && Stamp(z) < Stamp(s[0]) {
      InsertItems(z, s[1..]);
      assert s == [s[0]] + s[1..];
    }
  }

  lemma {:induction false} SortItems(s: seq<Js>)
    ensures multiset(SortDescending(s)) == multiset(s)
  {
    hide Insert;
    if s != [] {
      SortItems(s[1..]);
      InsertItems(s[0], SortDescending(s[1..]));
      assert s == [s[0]] + s[1..];
    }
  }

  lemma SwapItems(s: seq<Js>, i: nat, j: nat)
    requires i < |s| && j < |s|
    ensures multiset(s[i := s[j]][j := s[i]]) == multiset(s)
  {
  }

  /**
   The sort of the language. A timestamp that is not a number makes the comparison inconsistent, and then the order is
   any.
   */
  method Sort(items: seq<Js>) returns (r: seq<Js>)
    ensures Shows(items, r)
  {
    hide SortDescending, StablySorted, Stamped;
    SortSorts(items);
    SortItems(items);
    r := SortDescending(items);
    assert |multiset(r)| == |multiset(items)|;
    if exists v :: v in items && !Stamped(v) {
      var swaps :| swaps >= 0;
      for _ := 0 to swaps
        invariant multiset(r) == multiset(items) && |r| == |items|
      {
        var i, j :| 0 <= i < |r| && 0 <= j < |r|;
        SwapItems(r, i, j);
        r := r[i := r[j]][j := r[i]];
      }
    }
  }

  class CircularLogBuffer {
    const buffer: array<Js>
    const maxSize: nat
    var head: nat
    var size: nat

    ghost predicate Valid()
      reads this
    {
      && maxSize >= 1 && buffer.Length == maxSize && head < maxSize && size <= maxSize
      && (size < maxSize ==> head == size)
    }

    /** The items held, oldest first. */
    ghost function Contents(): (s: seq<Js>)
      requires Valid()
      reads this, buffer
      ensures |s| == size
    {
      Held(buffer[..], head, size)
    }

    constructor (maxSize: nat)
      requires maxSize >= 1
      ensures Valid() && Contents() == [] && this.maxSize == maxSize && fresh(buffer)
    {
      this.maxSize := maxSize;
      buffer := new Js[maxSize](_ => List([]));
      head, size := 0, 0;
    }

    method Add(item: Js)
      requires Valid()
      modifies this, buffer
      ensures Valid() && Contents() == Last(old(Contents()) + [item], maxSize)
    {
      hide Held, Last;
      HeldAfterAdd(buffer[..], head, size, item);
      ghost var was := buffer[..];
      buffer[head] := item;
      assert buffer[..] == was[head := item];
      Wrap(head, maxSize);
      head := (head + 1) % maxSize;
      size := if size + 1 < maxSize then size + 1 else maxSize;
    }

    method ToArrayNewestFirst() returns (r: seq<Js>)
      requires Valid()
      ensures Shows(Reversed(Contents()), r)
    {
      hide Shows, Held;
      var result := [];
      var currentIndex: int := head - 1;
      for i := 0 to size
        invariant |result| == i && result == Reversed(Contents())[..i]
        invariant currentIndex == if i <= head - 1 then head - 1 - i else if i == head then -1
                  else maxSize + head - 1 - i
      {
        if currentIndex < 0 {
          currentIndex := maxSize - 1;
        }
        NewestAt(buffer[..], head, size, i);
        result := result + [buffer[currentIndex]];
        currentIndex := currentIndex - 1;
      }
      assert Reversed(Contents())[..size] == Reversed(Contents());
      r := Sort(result);
    }
  }

  lemma Wrap(i: nat, n: nat)
    requires i < n
    ensures (i + 1) % n == if i + 1 == n then 0 else i + 1
  {
  }

  lemma LastOfLast<T>(s: seq<T>, x: T, n: nat)
    requires n >= 1
    ensures Last(Last(s, n) + [x], n) == Last(s + [x], n)
  {
  }

  /** The ring after any sequence of adds. */
  method DisplayAfter(history: seq<Js>, maxSize: nat) returns (shown: seq<Js>)
    requires maxSize >= 1
    ensures Shows(Reversed(Last(history, maxSize)), shown)
    ensures AllStamped(Last(history, maxSize)) ==> shown == Display(history, maxSize)
  {
    hide Last, SortDescending, StablySorted, Stamped;
    var ring := new CircularLogBuffer(maxSize);
    assert Last(history[..0], maxSize) == [] by { LastOfNothing<Js>(maxSize); }
    for i := 0 to |history|
      invariant ring.Valid() && ring.Contents() == Last(history[..i], maxSize) && ring.maxSize == maxSize
      invariant fresh(ring) && fresh(ring.buffer)
    {
      LastOfLast(history[..i], history[i], maxSize);
      assert history[..i + 1] == history[..i] + [history[i]];
      ring.Add(history[i]);
    }
    assert history[..|history|] == history;
    shown := ring.ToArrayNewestFirst();
  }

  lemma LastOfNothing<T>(n: nat)
    ensures Last<T>([], n) == []
  {
  }

  // ---- The worker

  const MAX_GLOBAL_LOGS := 300

  /** What the worker posts to the page. */
  datatype Posted = LogUpdate(logs: seq<Js>) | BufferSize(count: nat)

  /** The browser worker: it decodes websocket messages into the ring, paused or not. */
  class LogWorker {
    const logBuffer: CircularLogBuffer
    var isPaused: bool
    var pausedLogCount: nat
    ghost var history: seq<Js>

    ghost predicate Valid()
      reads this, logBuffer, logBuffer.buffer
    {
      logBuffer.Valid() && logBuffer.maxSize == MAX_GLOBAL_LOGS
        && logBuffer.Contents() == Last(history, MAX_GLOBAL_LOGS)
    }

    constructor ()
      ensures Valid() && history == [] && !isPaused && pausedLogCount == 0 && fresh(logBuffer)
              && logBuffer.maxSize == 300
              && fresh(logBuffer.buffer)
    {
      logBuffer := new CircularLogBuffer(MAX_GLOBAL_LOGS);
      isPaused, pausedLogCount, history := false, 0, [];
    }

    /** `records` are the objects the library decodes from the message before it is used up or an error occurs. */
    method OnMessage(message: seq<byte>, records: seq<Js>)
      requires Valid() && records == DecodeMulti(message).0
      modifies this, logBuffer, logBuffer.buffer
      ensures Valid() && history == old(history) + DecodeMulti(message).0 && isPaused == old(isPaused)
      ensures pausedLogCount == old(pausedLogCount) + if isPaused then |DecodeMulti(message).0| else 0
    {
      hide DecodeMulti, Last;
      for i := 0 to |records|
        invariant Valid() && history == old(history) + records[..i] && isPaused == old(isPaused)
        invariant pausedLogCount == old(pausedLogCount) + if isPaused then i else 0
      {
        LastOfLast(history, records[i], MAX_GLOBAL_LOGS);
        assert records[..i + 1] == records[..i] + [records[i]];
        logBuffer.Add(records[i]);
        history := history + [records[i]];
        if isPaused {
          pausedLogCount := pausedLogCount + 1;
        }
      }
    }

    /** PAUSE restarts the count of logs that arrive meanwhile; no log is lost. */
    method Pause()
      requires Valid()
      modifies `isPaused, `pausedLogCount
      ensures Valid() && history == old(history) && isPaused && pausedLogCount == 0
    {
      isPaused, pausedLogCount := true, 0;
    }

    /** RESUME shows at once everything that arrived while paused. */
    method Resume() returns (posted: Posted)
      requires Valid()
      modifies `isPaused, `pausedLogCount
      ensures Valid() && history == old(history) && !isPaused && pausedLogCount == 0
      ensures posted.LogUpdate? && Shows(Reversed(Last(history, MAX_GLOBAL_LOGS)), posted.logs)
    {
      hide Shows, Last;
      isPaused, pausedLogCount := false, 0;
      var shown := logBuffer.ToArrayNewestFirst();
      posted := LogUpdate(shown);
    }

    /** The render timer. */
    method OnTick() returns (posted: Posted)
      requires Valid()
      ensures if isPaused then posted == BufferSize(pausedLogCount)
              else posted.LogUpdate? && Shows(Reversed(Last(history, MAX_GLOBAL_LOGS)), posted.logs)
    {
      hide Shows, Last;
      if isPaused { return BufferSize(pausedLogCount); }
      var shown := logBuffer.ToArrayNewestFirst();
      posted := LogUpdate(shown);
    }
  }

  /** A message with encodings of records adds their objects to the history; all of them can be sorted. */
  method OnRecords(worker: LogWorker, zs: seq<FlatLog>)
    requires worker.Valid() && forall z :: z in zs ==> WithinLimits(z)
    modifies worker, worker.logBuffer, worker.logBuffer.buffer
    ensures worker.Valid() && worker.history == old(worker.history) + SeenAll(zs)
    ensures AllStamped(old(worker.history)) ==> AllStamped(worker.history)
  {
    hide WithinLimits, EncodeLog, SeenAll, DecodeMulti, Last, Stamped;
    MessageDecodes(zs);
    RecordsStamped(zs);
    worker.OnMessage(EncodeMany(zs), SeenAll(zs));
  }

  /** If everything held can be sorted, what is shown is the display of the history. */
  lemma ShownIsDisplay(history: seq<Js>, shown: seq<Js>)
    requires AllStamped(Last(history, MAX_GLOBAL_LOGS)) && Shows(Reversed(Last(history, MAX_GLOBAL_LOGS)), shown)
    ensures shown == Display(history, MAX_GLOBAL_LOGS)
  {
    hide Stamped, SortDescending, StablySorted;
    assert forall v :: v in Reversed(Last(history, MAX_GLOBAL_LOGS)) ==> v in Last(history, MAX_GLOBAL_LOGS);
  }

  /** Of two items shown with the same timestamp, the one that arrived later is shown first. */
  lemma TiesNewestFirst(history: seq<Js>, maxSize: nat, k: int)
    ensures FlatMap(At(k), Display(history, maxSize)) == FlatMap(At(k), Reversed(Last(history, maxSize)))
    ensures Descending(Display(history, maxSize)) && |Display(history, maxSize)| == |Last(history, maxSize)|
  {
    hide FlatMap;
    SortSorts(Reversed(Last(history, maxSize)));
    SortLength(Reversed(Last(history, maxSize)));
  }

  lemma {:induction false} SortLength(s: seq<Js>)
    ensures |SortDescending(s)| == |s|
  {
    if s != [] {
      SortLength(s[1..]);
      InsertLength(s[0], SortDescending(s[1..]));
    }
  }

  lemma {:induction false} InsertLength(z: Js, s: seq<Js>)
    ensures |Insert(z, s)| == |s| + 1
  {
    if s != [] {
      InsertLength(z, s[1..]);
    }
  }
}
