/**
 The live-tail publisher: enqueuers encode records into pooled buffers and pass the buffers through a bounded queue
 to workers, which publish and recycle them. Any number of enqueuers and workers interleave; every step below is one
 atomic action of one of them.
 */
module LiveTailPublisher {
  import opened Buffers
  import opened Bytes
  import opened MsgPack
  import opened Seqs
  import opened FlatLogCodec
  import opened FlatLogRecords

  /** `bytes` records what was encoded for the job; the buffer holds what will actually be published. */
  datatype Job = Job(subject: Str, buf: nat, bytes: seq<byte>)

  datatype Enqueuer = Idle | HasBuffer(buf: nat) | HasJob(job: Job)

  datatype Worker = Waiting | HasTaken(taken: Job) | HasPublished(done: Job)

  datatype State = State(
    heap: map<nat, seq<byte>>,         // contents of every buffer ever allocated
    pool: set<nat>,
    enqueuers: seq<Enqueuer>,
    queue: seq<Job>,
    workers: seq<Worker>,
    accepted: seq<(Str, seq<byte>)>,   // history: jobs for which Enqueue returned true, as encoded
    published: seq<(Str, seq<byte>)>)  // history: calls of PublishLiveTail

  function Init(enqueuers: nat, workers: nat): State
  {
    State(map[], {}, seq(enqueuers, _ => Idle), [], seq(workers, _ => Waiting), [], [])
  }

  datatype Input =
    | Get(e: nat, buf: nat)                 // Enqueue takes a buffer from the pool, or a new one
    | Marshal(e: nat, subject: Str, z: FlatLog)
    | MarshalFails(e: nat, junk: seq<byte>)
    | Send(e: nat)                          // queued, or dropped when the queue is full
    | HandOff(e: nat, w: nat)               // without a queue, a waiting worker takes the job directly
    | Take(w: nat)
    | Publish(w: nat)
    | Recycle(w: nat)
    | PoolDrops(buf: nat)                   // the pool may forget a buffer at any time

  predicate Enabled(size: nat, s: State, x: Input)
  {
    match x
    case Get(e, buf) => e < |s.enqueuers| && s.enqueuers[e].Idle? && (buf in s.pool || buf !in s.heap)
    case Marshal(e, _, _) => e < |s.enqueuers| && s.enqueuers[e].HasBuffer?
    case MarshalFails(e, _) => e < |s.enqueuers| && s.enqueuers[e].HasBuffer?
    case Send(e) => e < |s.enqueuers| && s.enqueuers[e].HasJob?
    case HandOff(e, w) =>
      && e < |s.enqueuers| && s.enqueuers[e].HasJob? && w < |s.workers| && s.workers[w].Waiting? && size == 0
    case Take(w) => w < |s.workers| && s.workers[w].Waiting? && s.queue != []
    case Publish(w) => w < |s.workers| && s.workers[w].HasTaken? && s.workers[w].taken.buf in s.heap
    case Recycle(w) => w < |s.workers| && s.workers[w].HasPublished?
    case PoolDrops(buf) => buf in s.pool
  }

  function Step(size: nat, s: State, x: Input): State
    requires Enabled(size, s, x)
  {
    match x
    case Get(e, buf) =>
      s.(enqueuers := s.enqueuers[e := HasBuffer(buf)], pool := s.pool - {buf},
         heap := if buf in s.heap then s.heap else s.heap[buf := []])
    case Marshal(e, subject, z) =>
      var b := s.enqueuers[e].buf;
      s.(heap := s.heap[b := EncodeLog(z)], enqueuers := s.enqueuers[e := HasJob(Job(subject, b, EncodeLog(z)))])
    case MarshalFails(e, junk) =>
      var b := s.enqueuers[e].buf;
      s.(heap := s.heap[b := junk], enqueuers := s.enqueuers[e := Idle], pool := s.pool + {b})
    case Send(e) =>
      var job := s.enqueuers[e].job;
      if |s.queue| < size then
        s.(enqueuers := s.enqueuers[e := Idle], queue := s.queue + [job],
          accepted := s.accepted + [(job.subject, job.bytes)])
      else
        s.(enqueuers := s.enqueuers[e := Idle], pool := s.pool + {job.buf})
    case HandOff(e, w) =>
      var job := s.enqueuers[e].job;
      s.(enqueuers := s.enqueuers[e := Idle], workers := s.workers[w := HasTaken(job)],
         accepted := s.accepted + [(job.subject, job.bytes)])
    case Take(w) =>
      s.(workers := s.workers[w := HasTaken(s.queue[0])], queue := s.queue[1..])
    case Publish(w) =>
      var job := s.workers[w].taken;
      s.(workers := s.workers[w := HasPublished(job)], published := s.published + [(job.subject, s.heap[job.buf])])
    case Recycle(w) =>
      s.(workers := s.workers[w := Waiting], pool := s.pool + {s.workers[w].done.buf})
    case PoolDrops(buf) => s.(pool := s.pool - {buf})
  }

  ghost predicate Reaches(size: nat, enqueuers: nat, workers: nat, xs: seq<Input>, s: State)
  {
    if xs == [] then s == Init(enqueuers, workers)
    else
      var n := |xs| - 1;
      exists p :: Reaches(size, enqueuers, workers, xs[..n], p) && Enabled(size, p, xs[n]) && s == Step(size, p, xs[n])
  }

  // ---- Ownership

  function InEnqueuer(b: nat): Enqueuer -> bool
  {
    (e: Enqueuer) => match e case Idle => false case HasBuffer(c) => c == b case HasJob(job) => job.buf == b
  }

  function InJob(b: nat): Job -> bool
  {
    (j: Job) => j.buf == b
  }

  function InWorker(b: nat): Worker -> bool
  {
    (w: Worker) => (w.HasTaken? && w.taken.buf == b) || (w.HasPublished? && w.done.buf == b)
  }

  /** How many owners a buffer has: the pool, enqueuers, places in the queue, workers. */
  function Owners(s: State, b: nat): nat
  {
    One(b in s.pool) + Count(InEnqueuer(b), s.enqueuers) + Count(InJob(b), s.queue) + Count(InWorker(b), s.workers)
  }

  ghost predicate OneOwner(s: State)
  {
    forall b :: Owners(s, b) <= 1 && (Owners(s, b) == 1 ==> b in s.heap)
  }

  ghost predicate Intact(s: State, j: Job)
  {
    j.buf in s.heap && s.heap[j.buf] == j.bytes
  }

  /** Every buffer on its way holds the bytes encoded for its job. */
  ghost predicate AllIntact(s: State)
  {
    && (forall e :: e in s.enqueuers && e.HasJob? ==> Intact(s, e.job))
    && (forall j :: j in s.queue ==> Intact(s, j))
    && (forall w :: w in s.workers && w.HasTaken? ==> Intact(s, w.taken))
  }

  function JobIs(v: (Str, seq<byte>)): Job -> bool
  {
    (j: Job) => (j.subject, j.bytes) == v
  }

  function WorkerHas(v: (Str, seq<byte>)): Worker -> bool
  {
    (w: Worker) => w.HasTaken? && (w.taken.subject, w.taken.bytes) == v
  }

  function Is(v: (Str, seq<byte>)): ((Str, seq<byte>)) -> bool
  {
    (u: (Str, seq<byte>)) => u == v
  }

  const IN_HAND: Worker -> bool := (w: Worker) => w.HasTaken?

  /** Accepted is queued, in hand or published, counting every publication and all of them together. */
  ghost predicate Conserved(s: State)
  {
    && (forall v :: Count(Is(v), s.accepted) ==
                    Count(JobIs(v), s.queue) + Count(WorkerHas(v), s.workers) + Count(Is(v), s.published))
    && |s.accepted| == |s.queue| + Count(IN_HAND, s.workers) + |s.published|
  }

  /** A step moves a buffer from one owner to another; only a new buffer or a forgotten one changes the count. */
  lemma StepOwners(size: nat, s: State, x: Input, b: nat)
    requires Enabled(size, s, x) && OneOwner(s)
    ensures Owners(Step(size, s, x), b) ==
            if x.Get? && x.buf !in s.pool && b == x.buf then Owners(s, b) + 1
            else if x.PoolDrops? && b == x.buf then Owners(s, b) - 1
            else Owners(s, b)
  {
    hide Count;
    var t := Step(size, s, x);
    match x
    case Get(e, _) => CountUpdate(InEnqueuer(b), s.enqueuers, e, t.enqueuers[e]);
    case Marshal(e, _, _) => CountUpdate(InEnqueuer(b), s.enqueuers, e, t.enqueuers[e]);
    case MarshalFails(e, _) =>
      CountUpdate(InEnqueuer(b), s.enqueuers, e, Idle);
      HeldByEnqueuer(s, e);
    case Send(e) =>
      CountUpdate(InEnqueuer(b), s.enqueuers, e, Idle);
      CountSnoc(InJob(b), s.queue, s.enqueuers[e].job);
      HeldByEnqueuer(s, e);
    case HandOff(e, w) =>
      CountUpdate(InEnqueuer(b), s.enqueuers, e, Idle);
      CountUpdate(InWorker(b), s.workers, w, t.workers[w]);
    case Take(w) =>
      CountUpdate(InWorker(b), s.workers, w, t.workers[w]);
      CountHead(InJob(b), s.queue);
    case Publish(w) => CountUpdate(InWorker(b), s.workers, w, t.workers[w]);
    case Recycle(w) =>
      CountUpdate(InWorker(b), s.workers, w, Waiting);
      HeldByWorker(s, w);
    case PoolDrops(_) =>
  }

  /** What an enqueuer holds is nowhere else. */
  lemma HeldByEnqueuer(s: State, e: nat)
    requires OneOwner(s) && e < |s.enqueuers| && !s.enqueuers[e].Idle?
    ensures var b := if s.enqueuers[e].HasBuffer? then s.enqueuers[e].buf else s.enqueuers[e].job.buf;
            && b in s.heap && b !in s.pool
            && (forall j :: j in s.queue ==> !InJob(b)(j))
            && (forall w :: w in s.workers ==> !InWorker(b)(w))
            && (forall k :: 0 <= k < |s.enqueuers| && k != e ==> !InEnqueuer(b)(s.enqueuers[k]))
  {
    hide Count;
    var b := if s.enqueuers[e].HasBuffer? then s.enqueuers[e].buf else s.enqueuers[e].job.buf;
    CountNone(InEnqueuer(b), s.enqueuers);
    CountNone(InJob(b), s.queue);
    CountNone(InWorker(b), s.workers);
    assert InEnqueuer(b)(s.enqueuers[e]) && s.enqueuers[e] in s.enqueuers;
    assert Owners(s, b) == 1;
    forall k | 0 <= k < |s.enqueuers| && k != e ensures !InEnqueuer(b)(s.enqueuers[k]) {
      if InEnqueuer(b)(s.enqueuers[k]) {
        CountTwo(InEnqueuer(b), s.enqueuers, if k < e then k else e, if k < e then e else k);
      }
    }
  }

  lemma HeldByWorker(s: State, w: nat)
    requires OneOwner(s) && w < |s.workers| && s.workers[w].HasPublished?
    ensures s.workers[w].done.buf !in s.pool
  {
    hide Count;
    var b := s.workers[w].done.buf;
    CountNone(InWorker(b), s.workers);
    assert InWorker(b)(s.workers[w]) && s.workers[w] in s.workers;
    assert Owners(s, b) <= 1;
  }

  lemma StepOneOwner(size: nat, s: State, x: Input)
    requires Enabled(size, s, x) && OneOwner(s)
    ensures OneOwner(Step(size, s, x))
  {
    var t := Step(size, s, x);
    forall b ensures Owners(t, b) <= 1 && (Owners(t, b) == 1 ==> b in t.heap) {
      StepOwners(size, s, x, b);
      hide Owners;
      assert Owners(s, b) <= 1 && (Owners(s, b) == 1 ==> b in s.heap);
      assert b in s.heap ==> b in t.heap;
    }
  }

  lemma StepIntact(size: nat, s: State, x: Input)
    requires Enabled(size, s, x) && OneOwner(s) && AllIntact(s)
    ensures AllIntact(Step(size, s, x))
  {
    hide Owners, EncodeLog;
    var t := Step(size, s, x);
    if x.Marshal? || x.MarshalFails? {
      HeldByEnqueuer(s, x.e);
      forall e | e in t.enqueuers && e.HasJob? ensures Intact(t, e.job) {
        var k :| 0 <= k < |t.enqueuers| && t.enqueuers[k] == e;
        if k != x.e {
          assert s.enqueuers[k] in s.enqueuers && !InEnqueuer(s.enqueuers[x.e].buf)(s.enqueuers[k]);
        }
      }
      forall w | w in t.workers && w.HasTaken? ensures Intact(t, w.taken) {
        assert !InWorker(s.enqueuers[x.e].buf)(w);
      }
      forall j | j in t.queue ensures Intact(t, j) {
        assert !InJob(s.enqueuers[x.e].buf)(j);
      }
    } else {
      OthersIntact(size, s, x);
    }
  }

  lemma OthersIntact(size: nat, s: State, x: Input)
    requires Enabled(size, s, x) && AllIntact(s) && !x.Marshal? && !x.MarshalFails?
    ensures AllIntact(Step(size, s, x))
  {
    hide EncodeLog;
    var t := Step(size, s, x);
    assert forall j :: Intact(s, j) ==> Intact(t, j);
    assert x.Send? || x.HandOff? ==> s.enqueuers[x.e] in s.enqueuers;
    assert x.Take? ==> s.queue[0] in s.queue;
    forall e | e in t.enqueuers && e.HasJob? ensures Intact(t, e.job) {
      assert e in s.enqueuers;
    }
    forall j | j in t.queue ensures Intact(t, j) {
      assert j in s.queue || (x.Send? && j == s.enqueuers[x.e].job);
    }
    forall w | w in t.workers && w.HasTaken? ensures Intact(t, w.taken) {
      assert w in s.workers || (x.Take? && w.taken == s.queue[0]) || (x.HandOff? && w.taken == s.enqueuers[x.e].job);
    }
  }

  lemma StepConserves(size: nat, s: State, x: Input)
    requires Enabled(size, s, x) && AllIntact(s) && Conserved(s)
    ensures Conserved(Step(size, s, x))
  {
    hide Count, EncodeLog;
    var t := Step(size, s, x);
    if x.HandOff? || x.Take? || x.Publish? || x.Recycle? {
      CountUpdate(IN_HAND, s.workers, x.w, t.workers[x.w]);
      assert s.workers[x.w] in s.workers;
    }
    forall v ensures
      Count(Is(v), t.accepted) == Count(JobIs(v), t.queue) + Count(WorkerHas(v), t.workers) + Count(Is(v), t.published)
    {
      assert Count(Is(v), s.accepted) ==
        Count(JobIs(v), s.queue) + Count(WorkerHas(v), s.workers) + Count(Is(v), s.published);
      match x
      case Send(e) =>
        var job := s.enqueuers[e].job;
        CountSnoc(JobIs(v), s.queue, job);
        CountSnoc(Is(v), s.accepted, (job.subject, job.bytes));
      case HandOff(e, w) =>
        var job := s.enqueuers[e].job;
        CountUpdate(WorkerHas(v), s.workers, w, t.workers[w]);
        CountSnoc(Is(v), s.accepted, (job.subject, job.bytes));
      case Take(w) =>
        CountHead(JobIs(v), s.queue);
        CountUpdate(WorkerHas(v), s.workers, w, t.workers[w]);
      case Publish(w) =>
        CountUpdate(WorkerHas(v), s.workers, w, t.workers[w]);
        CountSnoc(Is(v), s.published, (s.workers[w].taken.subject, s.heap[s.workers[w].taken.buf]));
      case Recycle(w) => CountUpdate(WorkerHas(v), s.workers, w, Waiting);
      case _ =>
    }
  }

  lemma InitIsFine(enqueuers: nat, workers: nat)
    ensures var s := Init(enqueuers, workers); OneOwner(s) && AllIntact(s) && Conserved(s)
  {
    hide Count;
    var s := Init(enqueuers, workers);
    forall b ensures Owners(s, b) == 0 {
      CountNone(InEnqueuer(b), s.enqueuers);
      CountNone(InJob(b), s.queue);
      CountNone(InWorker(b), s.workers);
    }
    CountNone(IN_HAND, s.workers);
    forall v ensures
      Count(Is(v), s.accepted) == Count(JobIs(v), s.queue) + Count(WorkerHas(v), s.workers) + Count(Is(v), s.published)
    {
      CountNone(Is(v), s.accepted);
      CountNone(JobIs(v), s.queue);
      CountNone(WorkerHas(v), s.workers);
    }
  }

  lemma StepQueue(size: nat, s: State, x: Input)
    requires Enabled(size, s, x) && |s.queue| <= size
    ensures |Step(size, s, x).queue| <= size
  {
    hide EncodeLog;
  }

  lemma {:induction false} RunKeeps(size: nat, enqueuers: nat, workers: nat, xs: seq<Input>, s: State)
    requires Reaches(size, enqueuers, workers, xs, s)
    ensures OneOwner(s) && AllIntact(s) && Conserved(s) && |s.queue| <= size
  {
    hide OneOwner, AllIntact, Conserved;
    if xs == [] {
      InitIsFine(enqueuers, workers);
    } else {
      hide Enabled, Init, Step;
      var n := |xs| - 1;
      var p :| Reaches(size, enqueuers, workers, xs[..n], p) && Enabled(size, p, xs[n]) && s == Step(size, p, xs[n]);
      RunKeeps(size, enqueuers, workers, xs[..n], p);
      StepOneOwner(size, p, xs[n]);
      StepIntact(size, p, xs[n]);
      StepConserves(size, p, xs[n]);
      StepQueue(size, p, xs[n]);
    }
  }

  // ---- Whole-run properties

  /**
   In every run each buffer is in one place at most, and every record accepted is queued, in a worker's hand or
   published, with exactly the bytes encoded for it when it was enqueued, whatever was encoded since.
   */
  lemma PublishedAsEncoded(size: nat, enqueuers: nat, workers: nat, xs: seq<Input>, s: State)
    requires Reaches(size, enqueuers, workers, xs, s)
    ensures forall b :: Owners(s, b) <= 1
    ensures forall v :: Count(Is(v), s.accepted) ==
              Count(JobIs(v), s.queue) + Count(WorkerHas(v), s.workers) + Count(Is(v), s.published)
    ensures |s.accepted| == |s.queue| + Count(IN_HAND, s.workers) + |s.published| && |s.queue| <= size
  {
    RunKeeps(size, enqueuers, workers, xs, s);
  }

  /** Every publication is the encoding of a record that was enqueued under its subject. */
  lemma PublishedWasEnqueued(size: nat, enqueuers: nat, workers: nat, xs: seq<Input>, s: State, i: nat)
    requires Reaches(size, enqueuers, workers, xs, s) && i < |s.published|
    ensures Marshalled(xs, s.published[i].0, s.published[i].1)
  {
    hide Count, Marshalled;
    PublishedAsEncoded(size, enqueuers, workers, xs, s);
    var v := s.published[i];
    CountNone(Is(v), s.published);
    CountNone(Is(v), s.accepted);
    assert Is(v)(v) && Count(Is(v), s.accepted) > 0;
    AcceptedWasMarshalled(size, enqueuers, workers, xs, s);
  }

  ghost predicate Marshalled(xs: seq<Input>, subject: Str, bytes: seq<byte>)
  {
    exists e, z :: Marshal(e, subject, z) in xs && bytes == EncodeLog(z)
  }

  lemma {:induction false} AcceptedWasMarshalled(size: nat, enqueuers: nat, workers: nat, xs: seq<Input>, s: State)
    requires Reaches(size, enqueuers, workers, xs, s)
    ensures forall a :: a in s.accepted ==> Marshalled(xs, a.0, a.1)
    ensures forall e :: e in s.enqueuers && e.HasJob? ==> Marshalled(xs, e.job.subject, e.job.bytes)
  {
    hide EncodeLog;
    if xs != [] {
      var n := |xs| - 1;
      var p :| Reaches(size, enqueuers, workers, xs[..n], p) && Enabled(size, p, xs[n]) && s == Step(size, p, xs[n]);
      AcceptedWasMarshalled(size, enqueuers, workers, xs[..n], p);
      forall subject, bytes | Marshalled(xs[..n], subject, bytes) ensures Marshalled(xs, subject, bytes) {
        var e, z :| Marshal(e, subject, z) in xs[..n] && bytes == EncodeLog(z);
        assert Marshal(e, subject, z) in xs;
      }
      if xs[n].Marshal? {
        assert xs[n] in xs;
        assert Marshalled(xs, xs[n].subject, EncodeLog(xs[n].z));
      }
      if xs[n].Send? || xs[n].HandOff? {
        assert p.enqueuers[xs[n].e] in p.enqueuers;
      }
    }
  }

  // ---- The methods, run one at a time

  datatype TailJob = TailJob(subject: Str, payload: Buffer)

  class LiveTailPublisher {
    const queueSize: nat
    var bufPool: set<Buffer>
    var jobChan: seq<TailJob>
    /** Jobs that waiting workers took directly, as there is no queue. */
    var handed: seq<TailJob>
    var published: seq<(Str, seq<byte>)>

    /** The jobs accepted and not yet published, oldest first. */
    function Jobs(): seq<TailJob>
      reads this
    {
      handed + jobChan
    }

    /** Every buffer is in the pool or with one job. */
    ghost predicate Valid()
      reads this
    {
      && |jobChan| <= queueSize && (handed != [] ==> queueSize == 0)
      && (forall i :: 0 <= i < |Jobs()| ==> Jobs()[i].payload !in bufPool)
      && forall i, j :: 0 <= i < j < |Jobs()| ==> Jobs()[i].payload != Jobs()[j].payload
    }

    ghost function Payloads(): set<Buffer>
      reads this
    {
      set i | 0 <= i < |Jobs()| :: Jobs()[i].payload
    }

    /** What those jobs will publish. */
    ghost function Queued(): (q: seq<(Str, seq<byte>)>)
      reads this, Payloads()
      ensures |q| == |Jobs()|
    {
      seq(|Jobs()|, i requires 0 <= i < |Jobs()| reads this, Payloads() => (Jobs()[i].subject, Jobs()[i].payload.data))
    }

    constructor (queueSize: nat)
      ensures Valid() && Queued() == [] && published == [] && this.queueSize == queueSize
    {
      this.queueSize, bufPool, jobChan, handed, published := queueSize, {}, [], [], [];
    }

    /** A pooled buffer with whatever it holds, or a new one. */
    method TakeBuffer() returns (b: Buffer)
      requires Valid()
      modifies `bufPool
      ensures Valid() && b !in bufPool && b !in Payloads() && (b in old(bufPool) || fresh(b))
      ensures bufPool == old(bufPool) - {b}
    {
      ghost var jobs := Jobs();
      var pooled := *;
      if pooled && bufPool != {} {
        b :| b in bufPool;
        bufPool := bufPool - {b};
      } else {
        b := new Buffer();
        assert forall i :: 0 <= i < |jobs| ==> jobs[i].payload != b;
      }
    }

    /** A buffer of its own for the record's encoding. */
    method Marshal(m: FlatLogRecord) returns (buf: Buffer)
      requires Valid() && m.Valid()
      modifies `bufPool, bufPool
      ensures Valid() && buf !in bufPool && buf !in Payloads() && (buf in old(bufPool) || fresh(buf))
      ensures buf.data == EncodeLog(m.Value()) && Queued() == old(Queued()) && bufPool == old(bufPool) - {buf}
    {
      hide EncodeLog;
      buf := TakeBuffer();
      var data := m.MarshalMsg([]);
      assert data == EncodeLog(m.Value());
      buf.data := data;
    }

    /** The non-blocking send. A job that finds no room gives its buffer back. */
    method Send(job: TailJob, workerWaits: bool) returns (ok: bool)
      requires Valid() && job.payload !in bufPool && job.payload !in Payloads()
      modifies `bufPool, `jobChan, `handed
      ensures Valid() && (ok <==> |old(jobChan)| < queueSize || (queueSize == 0 && workerWaits))
      ensures Queued() == if ok then old(Queued()) + [(job.subject, job.payload.data)] else old(Queued())
      ensures bufPool == if ok then old(bufPool) else old(bufPool) + {job.payload}
    {
      ghost var before := Jobs();
      if |jobChan| < queueSize {
        jobChan := jobChan + [job];
        ok := true;
      } else if queueSize == 0 && workerWaits {
        handed := handed + [job];
        ok := true;
      } else {
        bufPool := bufPool + {job.payload};
        ok := false;
      }
      assert Jobs() == if ok then before + [job] else before;
    }

    /**
     Queues the record's encoding as it is now; the record may be changed at once. When the queue is full the record
     is dropped and its buffer goes back. Without a queue a record is accepted exactly if a worker is waiting for it.
     */
    method Enqueue(subject: Str, m: FlatLogRecord, workerWaits: bool) returns (ok: bool)
      requires Valid() && m.Valid()
      modifies `bufPool, `jobChan, `handed, bufPool
      ensures Valid() && (ok <==> |old(jobChan)| < queueSize || (queueSize == 0 && workerWaits))
      ensures Queued() == if ok then old(Queued()) + [(subject, EncodeLog(m.Value()))] else old(Queued())
      ensures if ok then bufPool <= old(bufPool) else old(bufPool) <= bufPool
    {
      hide EncodeLog;
      var buf := Marshal(m);
      ok := Send(TailJob(subject, buf), workerWaits);
    }

    /** One round of a worker: the oldest job is published, whether or not that fails, and its buffer goes back. */
    method Work()
      requires Valid() && Jobs() != []
      modifies `bufPool, `jobChan, `handed, `published
      ensures Valid() && published == old(published) + [old(Queued())[0]] && Queued() == old(Queued())[1..]
      ensures bufPool == old(bufPool) + {old(Jobs())[0].payload}
    {
      ghost var before := Jobs();
      var job;
      if handed != [] {
        job, handed := handed[0], handed[1..];
      } else {
        job, jobChan := jobChan[0], jobChan[1..];
      }
      assert job == before[0] && Jobs() == before[1..];
      published := published + [(job.subject, job.payload.data)];
      bufPool := bufPool + {job.payload};
    }
  }
}
