/**
 A worker's job: decompress each message into a pooled buffer, decode it, give the buffer back, and flatten the
 result into the shared batch. The codecs are arbitrary partial functions.
 */
module Process {
  import opened Buffers
  import opened Bytes
  import opened Options
  import opened Seqs
  import opened LogData
  import opened Columns
  import opened Delivery
  import opened Storage
  import opened Flatten

  /** Decompression and decoding of requests; `None` is an error. */
  datatype Codecs = Codecs(
    zstd: seq<byte> -> Option<seq<byte>>,
    gzip: seq<byte> -> Option<seq<byte>>,
    decode: (seq<byte>, Headers) -> Option<seq<ResourceLogs>>)

  function EncodingOf(headers: Headers): string
  {
    if "Content-Encoding" in headers && headers["Content-Encoding"] != [] then headers["Content-Encoding"][0] else ""
  }

  function Decompressed(c: Codecs, m: Message): Option<seq<byte>>
  {
    var e := EncodingOf(m.headers);
    if e == "" || e == "none" || e == "identity" then Some(m.payload)
    else if e == "zstd" then c.zstd(m.payload)
    else if e == "gzip" then c.gzip(m.payload)
    else None
  }

  /** The first value of the Content-Encoding header is `e`. */
  predicate HasEncoding(h: Headers, e: string)
  {
    "Content-Encoding" in h && h["Content-Encoding"] != [] && h["Content-Encoding"][0] == e
  }

  /** The header has no value, or one that asks for nothing. */
  predicate IsPlain(h: Headers)
  {
    || "Content-Encoding" !in h || h["Content-Encoding"] == []
    || HasEncoding(h, "") || HasEncoding(h, "none") || HasEncoding(h, "identity")
  }

  /** `bytes` are what the codec named by the header makes of the payload; there are none if it fails or is unknown. */
  predicate Unpacked(c: Codecs, m: Message, bytes: Option<seq<byte>>)
  {
    && (IsPlain(m.headers) ==> bytes == Some(m.payload))
    && (HasEncoding(m.headers, "gzip") ==> bytes == c.gzip(m.payload))
    && (HasEncoding(m.headers, "zstd") ==> bytes == c.zstd(m.payload))
    && (!IsPlain(m.headers) && !HasEncoding(m.headers, "gzip") && !HasEncoding(m.headers, "zstd") ==> bytes == None)
  }

  lemma DecompressedIs(c: Codecs, m: Message)
    ensures Unpacked(c, m, Decompressed(c, m))
    ensures EncodingOf(m.headers) == "gzip" <==> HasEncoding(m.headers, "gzip")
  {
  }

  /** The resource logs of a message; none when it does not decompress or decode. */
  function LogsOf(c: Codecs, m: Message): seq<ResourceLogs>
  {
    match Decompressed(c, m)
    case None => []
    case Some(bytes) => match c.decode(bytes, m.headers) case None => [] case Some(ls) => ls
  }

  /** `ls` are what the decoder makes of the unpacked payload and the headers, and nothing if either step fails. */
  ghost predicate Decoded(c: Codecs, m: Message, ls: seq<ResourceLogs>)
  {
    exists bytes :: Unpacked(c, m, bytes) &&
      if bytes.None? || c.decode(bytes.value, m.headers).None? then ls == []
      else c.decode(bytes.value, m.headers) == Some(ls)
  }

  /** A message and the clock readings taken while it is processed, one per resource logs. */
  datatype Timed = Timed(msg: Message, nows: seq<nat>) {
    function Now(k: nat): nat
    {
      if k < |nows| then nows[k] else 0
    }
  }

  function RowsUpTo(c: Codecs, m: Timed, k: nat): seq<Row>
    requires k <= |LogsOf(c, m.msg)|
  {
    if k == 0 then [] else RowsUpTo(c, m, k - 1) + RowsFor(LogsOf(c, m.msg)[k - 1], m.Now(k - 1))
  }

  /** All rows of a message. */
  function RowsOfMessage(c: Codecs): Timed -> seq<Row>
  {
    (m: Timed) => RowsUpTo(c, m, |LogsOf(c, m.msg)|)
  }

  /** How many records there are in some resource logs. */
  function Records(ls: seq<ResourceLogs>): nat
  {
    if ls == [] then 0 else Records(ls[..|ls| - 1]) + Size(ls[|ls| - 1].scopes)
  }

  /** The stretch of the rows of resource logs `k`, each row at the place of its record. */
  ghost predicate StretchAt(rows: seq<Row>, ls: seq<ResourceLogs>, m: Timed, k: nat)
    requires k < |ls|
  {
    var start := Records(ls[..k]);
    start + Size(ls[k].scopes) <= |rows| &&
    RecordsInOrder(rows[start..start + Size(ls[k].scopes)], ls[k].attrs, ls[k].scopes, m.Now(k))
  }

  /** The rows are those of the records of what the message decodes to, in order. */
  ghost predicate RowsOfDecoded(c: Codecs, m: Timed, rows: seq<Row>)
  {
    exists ls :: Decoded(c, m.msg, ls) && |rows| == Records(ls) &&
      forall k :: 0 <= k < |ls| ==> StretchAt(rows, ls, m, k)
  }

  /** Rows appended behind leave a stretch as it is. */
  lemma StretchKept(init: seq<Row>, more: seq<Row>, ls: seq<ResourceLogs>, m: Timed, k: nat)
    requires k < |ls| && StretchAt(init, ls, m, k)
    ensures StretchAt(init + more, ls, m, k)
  {
    hide RecordsInOrder, Size, Records;
    var start, size := Records(ls[..k]), Size(ls[k].scopes);
    assert (init + more)[start..start + size] == init[start..start + size];
  }

  lemma LastStretch(init: seq<Row>, more: seq<Row>, ls: seq<ResourceLogs>, m: Timed, k: nat)
    requires k < |ls| && |init| == Records(ls[..k])
    requires RecordsInOrder(more, ls[k].attrs, ls[k].scopes, m.Now(k))
    ensures StretchAt(init + more, ls, m, k) && |init + more| == Records(ls[..k + 1])
  {
    InOrderSize(more, ls[k].attrs, ls[k].scopes, m.Now(k));
    assert ls[..k + 1][..k] == ls[..k];
    hide RecordsInOrder, Size;
    assert (init + more)[|init|..|init| + |more|] == more;
  }

  lemma {:induction false} RowsUpToInOrder(c: Codecs, m: Timed, n: nat)
    requires n <= |LogsOf(c, m.msg)|
    ensures |RowsUpTo(c, m, n)| == Records(LogsOf(c, m.msg)[..n])
    ensures forall k :: 0 <= k < n ==> StretchAt(RowsUpTo(c, m, n), LogsOf(c, m.msg), m, k)
  {
    hide LogsOf, RowsFor, RecordsInOrder, Size;
    var ls := LogsOf(c, m.msg);
    if n > 0 {
      hide StretchAt, Records;
      var init, more := RowsUpTo(c, m, n - 1), RowsFor(ls[n - 1], m.Now(n - 1));
      RowsUpToInOrder(c, m, n - 1);
      RowsInOrder(ls[n - 1], m.Now(n - 1));
      LastStretch(init, more, ls, m, n - 1);
      forall k | 0 <= k < n - 1 ensures StretchAt(init + more, ls, m, k) {
        StretchKept(init, more, ls, m, k);
      }
    }
  }

  lemma InOrderSize(rows: seq<Row>, resAttrs: seq<Attr>, scopes: seq<ScopeLogs>, now: nat)
    requires RecordsInOrder(rows, resAttrs, scopes, now)
    ensures |rows| == Size(scopes)
  {
  }

  /** The rows of a message, record by record. */
  lemma MessageInOrder(c: Codecs, m: Timed)
    ensures RowsOfDecoded(c, m, RowsOfMessage(c)(m))
  {
    hide RowsUpTo, StretchAt, Decompressed, Unpacked;
    var ls := LogsOf(c, m.msg);
    assert ls[..|ls|] == ls;
    RowsUpToInOrder(c, m, |ls|);
    DecompressedIs(c, m.msg);
    assert Decoded(c, m.msg, ls);
  }

  // ---- Pooled buffers

  /** The bytes handed to the decoder: the payload itself, or a view of a pooled buffer. */
  datatype View = Direct(bytes: seq<byte>) | Pooled(buf: Buffer) {
    ghost function Bytes(): seq<byte>
      reads if Pooled? then {buf} else {}
    {
      if Pooled? then buf.data else bytes
    }
  }

  datatype Cleanup = Nothing | GiveBack(gzip: bool, buf: Buffer)

  class LogDecompressor {
    const codecs: Codecs
    var bufPool: set<Buffer>
    var gzipPool: set<Buffer>

    ghost predicate Valid()
      reads this
    {
      bufPool !! gzipPool
    }

    /** A buffer outside the pools belongs to whoever holds it. */
    ghost predicate Owned(b: Buffer)
      reads this
    {
      b !in bufPool && b !in gzipPool
    }

    constructor (codecs: Codecs)
      ensures Valid() && this.codecs == codecs && bufPool == gzipPool == {}
    {
      this.codecs, bufPool, gzipPool := codecs, {}, {};
    }

    method Take(gzip: bool) returns (b: Buffer)
      requires Valid()
      modifies this
      ensures Valid() && Owned(b) && (fresh(b) || b in old(bufPool + gzipPool))
      ensures bufPool + gzipPool == old(bufPool + gzipPool) - {b}
    {
      var reuse := *;
      if gzip && gzipPool != {} && reuse {
        b :| b in gzipPool;
        gzipPool := gzipPool - {b};
      } else if !gzip && bufPool != {} && reuse {
        b :| b in bufPool;
        bufPool := bufPool - {b};
      } else {
        b := new Buffer();
      }
    }

    /** Returning a buffer ends its ownership: it must not be in a pool already. */
    method Put(gzip: bool, b: Buffer)
      requires Valid() && Owned(b)
      modifies this
      ensures Valid() && gzipPool == old(gzipPool) + (if gzip then {b} else {})
      ensures bufPool == old(bufPool) + (if gzip then {} else {b})
    {
      if gzip {
        gzipPool := gzipPool + {b};
      } else {
        bufPool := bufPool + {b};
      }
    }

    /**
     On success the view shows the decompressed bytes; if it shows a pooled buffer, the caller owns that buffer and
     the cleanup gives it back. On failure every buffer is back in its pool.
     */
    method Decompress(m: Message) returns (ok: bool, view: View, cleanup: Cleanup)
      requires Valid()
      modifies this, bufPool, gzipPool
      ensures Valid() && fresh(bufPool + gzipPool - old(bufPool + gzipPool))
      ensures Decompressed(codecs, m) == if ok then Some(view.Bytes()) else None
      ensures Unpacked(codecs, m, if ok then Some(view.Bytes()) else None)
      ensures cleanup.GiveBack? <==> ok && view.Pooled?
      ensures cleanup.GiveBack? ==>
        && cleanup.buf == view.buf && (cleanup.gzip <==> HasEncoding(m.headers, "gzip")) && Owned(view.buf)
        && (fresh(view.buf) || view.buf in old(bufPool + gzipPool))
        && old(bufPool + gzipPool) <= bufPool + gzipPool + {view.buf}
      ensures !cleanup.GiveBack? ==> old(bufPool + gzipPool) <= bufPool + gzipPool
    {
      DecompressedIs(codecs, m);
      var e := EncodingOf(m.headers);
      if e == "" || e == "none" || e == "identity" {
        return true, Direct(m.payload), Nothing;
      }
      if e != "zstd" && e != "gzip" {
        return false, Direct(m.payload), Nothing;
      }
      var gzip := e == "gzip";
      var b := Take(gzip);
      var result := if gzip then codecs.gzip(m.payload) else codecs.zstd(m.payload);
      match result
      case None =>
        b.data := *;  // a failed run may have overwritten the buffer
        Put(gzip, b);
        return false, Direct([]), Nothing;
      case Some(bytes) =>
        b.data := bytes;
        return true, Pooled(b), GiveBack(gzip, b);
    }

    /** The decoder reads the view, so the buffer behind it must still be owned. */
    method Decode(view: View, headers: Headers) returns (req: Option<seq<ResourceLogs>>)
      requires view.Pooled? ==> Owned(view.buf)
      ensures req == codecs.decode(view.Bytes(), headers)
    {
      var bytes := match view case Direct(bytes) => bytes case Pooled(b) => b.data;
      req := codecs.decode(bytes, headers);
    }

    method Run(cleanup: Cleanup)
      requires Valid() && (cleanup.GiveBack? ==> Owned(cleanup.buf))
      modifies this
      ensures Valid() && gzipPool == old(gzipPool) + if cleanup.GiveBack? && cleanup.gzip then {cleanup.buf} else {}
      ensures bufPool == old(bufPool) + if cleanup.GiveBack? && !cleanup.gzip then {cleanup.buf} else {}
    {
      if cleanup.GiveBack? {
        Put(cleanup.gzip, cleanup.buf);
      }
    }

    /** Decompress, decode, clean up: the buffer is read before it is given back, and given back on every path. */
    method Receive(m: Message) returns (ls: seq<ResourceLogs>)
      requires Valid()
      modifies this, bufPool, gzipPool
      ensures Valid() && fresh(bufPool + gzipPool - old(bufPool + gzipPool))
      ensures ls == LogsOf(codecs, m) && old(bufPool + gzipPool) <= bufPool + gzipPool
      ensures Decoded(codecs, m, ls)
    {
      var ok, view, cleanup := Decompress(m);
      if !ok { return []; }
      var req := Decode(view, m.headers);
      Run(cleanup);
      ls := match req case None => [] case Some(ls) => ls;
    }
  }

  /** The job: every message that decompresses and decodes adds its rows, in order; the others add nothing. */
  method ProcessMessages(dec: LogDecompressor, messages: seq<Timed>, transformer: LogTransformer, publisher: Publisher,
                         appender: JobAppender)
    requires dec.Valid() && transformer.Valid() && appender.Valid() && publisher.Valid()
    requires dec !in transformer.Repr  // the transformer's objects are its own
    modifies dec, dec.bufPool, dec.gzipPool, transformer, transformer.Repr, publisher, appender, appender.appender.batch
    ensures dec.Valid() && transformer.Valid() && appender.Valid() && publisher.Valid()
    ensures old(dec.bufPool + dec.gzipPool) <= dec.bufPool + dec.gzipPool
    ensures Emitted(old(appender.mine), appender.mine, old(publisher.told), publisher.told,
                    FlatMap(RowsOfMessage(dec.codecs), messages))
    ensures Announced(old(publisher.told), publisher.told, FlatMap(RowsOfMessage(dec.codecs), messages))
  {
    hide Announced, Emitted, RowsFor, LogsOf, RowsUpTo, JobAppender.Valid, Publisher.Valid;
    ghost var r0, p0 := appender.mine, publisher.told;
    ghost var f := RowsOfMessage(dec.codecs);
    EmittedNothing(r0, p0);
    FlatMapNone(f);
    for i := 0 to |messages|
      invariant dec.Valid() && transformer.Valid() && appender.Valid() && publisher.Valid()
      invariant old(dec.bufPool + dec.gzipPool) <= dec.bufPool + dec.gzipPool
      invariant fresh(dec.bufPool + dec.gzipPool - old(dec.bufPool + dec.gzipPool))
      invariant fresh(transformer.Repr - old(transformer.Repr)) && dec !in transformer.Repr
      invariant Emitted(r0, appender.mine, p0, publisher.told, FlatMap(f, messages[..i]))
    {
      ghost var r1, p1 := appender.mine, publisher.told;
      var ls := dec.Receive(messages[i].msg);
      FlattenAll(dec.codecs, messages[i], ls, transformer, publisher, appender);
      EmittedConcat(r0, r1, appender.mine, p0, p1, publisher.told, FlatMap(f, messages[..i]),
        f(messages[i]));
      FlatMapSnoc(f, messages[..i], messages[i]);
      assert messages[..i + 1] == messages[..i] + [messages[i]];
    }
    assert messages[..|messages|] == messages;
    EmittedAnnounces(r0, appender.mine, p0, publisher.told, FlatMap(f, messages));
  }

  /** The loop over the resource logs of one request. */
  method FlattenAll(ghost c: Codecs, m: Timed, ls: seq<ResourceLogs>, transformer: LogTransformer, publisher: Publisher,
                    appender: JobAppender)
    requires ls == LogsOf(c, m.msg) && transformer.Valid() && appender.Valid() && publisher.Valid()
    modifies transformer, transformer.Repr, publisher, appender, appender.appender.batch
    ensures transformer.Valid() && fresh(transformer.Repr - old(transformer.Repr))
    ensures appender.Valid() && publisher.Valid()
    ensures Emitted(old(appender.mine), appender.mine, old(publisher.told), publisher.told, RowsOfMessage(c)(m))
  {
    hide Emitted, RowsFor, LogsOf, JobAppender.Valid, Publisher.Valid;
    ghost var r0, p0 := appender.mine, publisher.told;
    EmittedNothing(r0, p0);
    for k := 0 to |ls|
      invariant transformer.Valid() && fresh(transformer.Repr - old(transformer.Repr))
      invariant appender.Valid() && publisher.Valid()
      invariant Emitted(r0, appender.mine, p0, publisher.told, RowsUpTo(c, m, k))
    {
      ghost var r1, p1 := appender.mine, publisher.told;
      transformer.Flatten(ls[k], publisher, appender, m.Now(k));
      EmittedConcat(r0, r1, appender.mine, p0, p1, publisher.told, RowsUpTo(c, m, k),
        RowsFor(ls[k], m.Now(k)));
    }
  }
}
