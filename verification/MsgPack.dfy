/** Big-endian integers of k bytes. */
module Bytes {

  type byte = x: int | 0 <= x < 256

  function Pow256(k: nat): (p: nat)
    ensures p >= 1
  {
    if k == 0 then 1 else 256 * Pow256(k - 1)
  }

  function BigEndian(k: nat, n: nat): (s: seq<byte>)
    ensures |s| == k
  {
    if k == 0 then [] else BigEndian(k - 1, n / 256) + [n % 256]
  }

  function Value(s: seq<byte>): nat
  {
    if s == [] then 0 else 256 * Value(s[..|s| - 1]) + s[|s| - 1]
  }

  lemma {:induction false} ValueOfBigEndian(k: nat, n: nat)
    requires n < Pow256(k)
    ensures Value(BigEndian(k, n)) == n
  {
    if k > 0 {
      ValueOfBigEndian(k - 1, n / 256);
      assert BigEndian(k, n)[..k - 1] == BigEndian(k - 1, n / 256);
    }
  }

  lemma {:induction false} ValueBound(s: seq<byte>)
    ensures Value(s) < Pow256(|s|)
  {
    if s != [] {
      ValueBound(s[..|s| - 1]);
    }
  }

  /** The bytes of a number are determined by its value: BigEndian undoes Value too. */
  lemma {:induction false} BigEndianOfValue(s: seq<byte>)
    ensures BigEndian(|s|, Value(s)) == s
  {
    if s != [] {
      var init, last := s[..|s| - 1], s[|s| - 1];
      BigEndianOfValue(init);
      LastDigit(Value(init), last);
      assert BigEndian(|s|, Value(s)) == BigEndian(|init|, Value(s) / 256) + [Value(s) % 256];
      assert s == init + [last];
    }
  }

  lemma LastDigit(n: nat, d: byte)
    ensures (256 * n + d) / 256 == n && (256 * n + d) % 256 == d
  {
  }

  lemma Powers()
    ensures Pow256(0) == 1 && Pow256(1) == 0x100 && Pow256(2) == 0x1_0000
    ensures Pow256(4) == 0x1_0000_0000 && Pow256(8) == 0x1_0000_0000_0000_0000
  {
    assert Pow256(3) == 0x100_0000;
    assert Pow256(5) == 0x100_0000_0000;
    assert Pow256(6) == 0x1_0000_0000_0000;
    assert Pow256(7) == 0x100_0000_0000_0000;
  }
}

/**
 The MessagePack primitives the generated codec is built from, with the header choices of the
 encoder (shortest form) and the header forms the decoder accepts. Section names refer to the MessagePack
 specification.
 */
module MsgPack {
  import opened Bytes

  type Str = seq<byte>

  const LIMIT: nat := 0x1_0000_0000

  /** The outcome of reading a prefix of the input. */
  datatype Read<+T> = Ok(value: T, rest: seq<byte>) | Fail {
    predicate IsFailure() {
      Fail?
    }

    function PropagateFailure<U>(): Read<U>
      requires Fail?
    {
      Fail
    }

    function Extract(): (T, seq<byte>)
      requires Ok?
    {
      (value, rest)
    }
  }

  // ---- Headers written by the encoder: "str format family", "array format family", "int format family"

  function StrHeader(n: nat): (h: seq<byte>)
  {
    if n <= 31 then [0xa0 + n]
    else if n <= 0xff then [0xd9] + BigEndian(1, n)
    else if n <= 0xffff then [0xda] + BigEndian(2, n)
    else [0xdb] + BigEndian(4, n % LIMIT)
  }

  function ArrayHeader(n: nat): (h: seq<byte>)
  {
    var m := n % LIMIT;  // the length is cast to 32 bits before the header form is chosen
    if m <= 15 then [0x90 + m]
    else if m <= 0xffff then [0xdc] + BigEndian(2, m)
    else [0xdd] + BigEndian(4, m)
  }

  function AppendString(s: Str): seq<byte>
  {
    StrHeader(|s|) + s
  }

  function AppendUint8(n: byte): seq<byte>
  {
    if n < 128 then [n] else [0xcc, n]
  }

  // ---- Times: "ext format family", ext 8 of 12 data bytes with application type 5

  datatype RawTime = Time(sec: int, nsec: int)

  /** An instant: whole seconds in 64 bits and nanoseconds below one second. */
  type Time = t: RawTime
    | -0x8000_0000_0000_0000 <= t.sec < 0x8000_0000_0000_0000 && 0 <= t.nsec < 1_000_000_000
    witness Time(0, 0)

  /** Go's zero time, midnight of 1 January of year 1. */
  const ZERO_TIME: Time := Time(-62135596800, 0)

  const NANOS := 1_000_000_000

  function Unsigned64(n: int): nat
    requires -0x8000_0000_0000_0000 <= n < 0x8000_0000_0000_0000
  {
    if n >= 0 then n else n + 0x1_0000_0000_0000_0000
  }

  function Wrap64(n: int): (r: int)
    ensures -0x8000_0000_0000_0000 <= r < 0x8000_0000_0000_0000
  {
    (n + 0x8000_0000_0000_0000) % 0x1_0000_0000_0000_0000 - 0x8000_0000_0000_0000
  }

  function AppendTime(t: Time): seq<byte>
  {
    [0xc7, 12, 5] + BigEndian(8, Unsigned64(t.sec)) + BigEndian(4, t.nsec)
  }

  /** The instant `sec` seconds and `nsec` nanoseconds, any `nsec`, carried into the seconds. */
  function UnixTime(sec: int, nsec: int): Time
  {
    Time(Wrap64(sec + nsec / NANOS), nsec % NANOS)
  }

  // ---- Readers

  function ReadUint(k: nat, b: seq<byte>): (r: Read<nat>)
    ensures r.Ok? ==> |r.rest| <= |b|
  {
    if |b| < k then Fail else Ok(Value(b[..k]), b[k..])
  }

  function Take(n: nat, b: seq<byte>): (r: Read<seq<byte>>)
    ensures r.Ok? ==> |r.rest| <= |b|
  {
    if |b| < n then Fail else Ok(b[..n], b[n..])
  }

  function ReadBlob(k: nat, b: seq<byte>): (r: Read<seq<byte>>)
    ensures r.Ok? ==> |r.rest| <= |b|
  {
    var (n, r) :- ReadUint(k, b);
    Take(n, r)
  }

  function ReadString(b: seq<byte>): (r: Read<Str>)
    ensures r.Ok? ==> |r.rest| < |b|
  {
    if b == [] then Fail
    else if 0xa0 <= b[0] <= 0xbf then Take(b[0] - 0xa0, b[1..])
    else if b[0] == 0xd9 then ReadBlob(1, b[1..])
    else if b[0] == 0xda then ReadBlob(2, b[1..])
    else if b[0] == 0xdb then ReadBlob(4, b[1..])
    else Fail
  }

  /** A map key may be a string or, failing that, a binary object ("bin format family"). */
  function ReadMapKey(b: seq<byte>): (r: Read<Str>)
    ensures r.Ok? ==> |r.rest| < |b|
  {
    if b == [] then Fail
    else if b[0] == 0xc4 then ReadBlob(1, b[1..])
    else if b[0] == 0xc5 then ReadBlob(2, b[1..])
    else if b[0] == 0xc6 then ReadBlob(4, b[1..])
    else ReadString(b)
  }

  function ReadArrayHeader(b: seq<byte>): (r: Read<nat>)
    ensures r.Ok? ==> |r.rest| < |b|
  {
    if b == [] then Fail
    else if 0x90 <= b[0] <= 0x9f then Ok(b[0] - 0x90, b[1..])
    else if b[0] == 0xdc then ReadUint(2, b[1..])
    else if b[0] == 0xdd then ReadUint(4, b[1..])
    else Fail
  }

  function ReadMapHeader(b: seq<byte>): (r: Read<nat>)
    ensures r.Ok? ==> |r.rest| < |b|
  {
    if b == [] then Fail
    else if 0x80 <= b[0] <= 0x8f then Ok(b[0] - 0x80, b[1..])
    else if b[0] == 0xde then ReadUint(2, b[1..])
    else if b[0] == 0xdf then ReadUint(4, b[1..])
    else Fail
  }

  /** Any integer form whose value fits in eight bits; signed forms only when not negative. */
  function ReadUint8(b: seq<byte>): (r: Read<byte>)
    ensures r.Ok? ==> |r.rest| < |b|
  {
    if b == [] then Fail
    else if b[0] < 128 then Ok(b[0], b[1..])
    else
      var width := match b[0]
        case 0xcc => 1 case 0xcd => 2 case 0xce => 4 case 0xcf => 8
        case 0xd0 => 1 case 0xd1 => 2 case 0xd2 => 4 case 0xd3 => 8
        case _ => 0;
      if width == 0 then Fail
      else
        var (n, r) :- ReadUint(width, b[1..]);
        if n > (if b[0] == 0xd0 then 127 else 255) then Fail else Ok(n, r)
  }

  function ReadTime(b: seq<byte>): (r: Read<Time>)
    ensures r.Ok? ==> |r.rest| < |b|
  {
    if |b| < 15 || b[0] != 0xc7 || b[1] != 12 || b[2] != 5 then Fail
    else
      var sec := Wrap64(Value(b[3..11]));
      var raw := Value(b[11..15]);
      Ok(UnixTime(sec, if raw < 0x8000_0000 then raw else raw - LIMIT), b[15..])
  }

  function ReadStrings(n: nat, b: seq<byte>): (r: Read<seq<Str>>)
    ensures r.Ok? ==> |r.rest| <= |b|
  {
    if n == 0 then Ok([], b)
    else
      var (s, r) :- ReadString(b);
      var (ss, r') :- ReadStrings(n - 1, r);
      Ok([s] + ss, r')
  }

  function ReadStringArray(b: seq<byte>): (r: Read<seq<Str>>)
    ensures r.Ok? ==> |r.rest| < |b|
  {
    var (n, r) :- ReadArrayHeader(b);
    ReadStrings(n, r)
  }

  function AppendStrings(ss: seq<Str>): seq<byte>
  {
    if ss == [] then [] else AppendString(ss[0]) + AppendStrings(ss[1..])
  }

  // ---- Reading undoes writing

  lemma ReadUintOfBigEndian(k: nat, n: nat, rest: seq<byte>)
    requires n < Pow256(k)
    ensures ReadUint(k, BigEndian(k, n) + rest) == Ok(n, rest)
  {
    ValueOfBigEndian(k, n);
    assert (BigEndian(k, n) + rest)[..k] == BigEndian(k, n);
    assert (BigEndian(k, n) + rest)[k..] == rest;
  }

  lemma TakeAll(s: seq<byte>, rest: seq<byte>)
    ensures Take(|s|, s + rest) == Ok(s, rest)
  {
    assert (s + rest)[..|s|] == s;
    assert (s + rest)[|s|..] == rest;
  }

  lemma ReadBlobOf(k: nat, s: seq<byte>, rest: seq<byte>)
    requires |s| < Pow256(k)
    ensures ReadBlob(k, BigEndian(k, |s|) + s + rest) == Ok(s, rest)
  {
    assert BigEndian(k, |s|) + s + rest == BigEndian(k, |s|) + (s + rest);
    ReadUintOfBigEndian(k, |s|, s + rest);
    TakeAll(s, rest);
  }

  lemma ReadStringOf(s: Str, rest: seq<byte>)
    requires |s| < LIMIT
    ensures ReadString(AppendString(s) + rest) == Ok(s, rest)
  {
    hide BigEndian, Take, ReadBlob, Pow256;
    assert Pow256(1) == 0x100 && Pow256(2) == 0x1_0000 && Pow256(4) == LIMIT by { Powers(); }
    var b := AppendString(s) + rest;
    if |s| <= 31 {
      assert b[1..] == s + rest;
      TakeAll(s, rest);
    } else {
      var k := if |s| <= 0xff then 1 else if |s| <= 0xffff then 2 else 4;
      assert b[1..] == BigEndian(k, |s|) + s + rest;
      ReadBlobOf(k, s, rest);
    }
  }

  lemma ReadArrayHeaderOf(n: nat, rest: seq<byte>)
    requires n < LIMIT
    ensures ReadArrayHeader(ArrayHeader(n) + rest) == Ok(n, rest)
  {
    Powers();
    var b := ArrayHeader(n) + rest;
    if n <= 15 {
      assert b[1..] == rest;
    } else {
      var k := if n <= 0xffff then 2 else 4;
      assert b[1..] == BigEndian(k, n) + rest;
      ReadUintOfBigEndian(k, n, rest);
    }
  }

  lemma ReadUint8Of(n: byte, rest: seq<byte>)
    ensures ReadUint8(AppendUint8(n) + rest) == Ok(n, rest)
  {
    var b := AppendUint8(n) + rest;
    if n < 128 {
      assert b[1..] == rest;
    } else {
      assert b[1..] == [n] + rest;
      assert ([n] + rest)[..1] == [n] && ([n] + rest)[1..] == rest;
      assert Value([n]) == n;
    }
  }

  lemma ReadTimeOf(t: Time, rest: seq<byte>)
    ensures ReadTime(AppendTime(t) + rest) == Ok(t, rest)
  {
    hide BigEndian, Value;
    assert Pow256(4) == LIMIT && Pow256(8) == 0x1_0000_0000_0000_0000 by { Powers(); }
    hide Pow256;
    var b := AppendTime(t) + rest;
    assert b[3..11] == BigEndian(8, Unsigned64(t.sec));
    assert b[11..15] == BigEndian(4, t.nsec);
    assert b[15..] == rest;
    ValueOfBigEndian(8, Unsigned64(t.sec));
    ValueOfBigEndian(4, t.nsec);
  }

  lemma StringsHead(ss: seq<Str>, rest: seq<byte>)
    requires ss != []
    ensures AppendStrings(ss) + rest == AppendString(ss[0]) + (AppendStrings(ss[1..]) + rest)
  {
    hide AppendString;
  }

  lemma {:induction false} ReadStringsOf(ss: seq<Str>, rest: seq<byte>)
    requires forall s :: s in ss ==> |s| < LIMIT
    ensures ReadStrings(|ss|, AppendStrings(ss) + rest) == Ok(ss, rest)
  {
    hide AppendString, ReadString;
    if ss == [] {
      assert AppendStrings(ss) + rest == rest;
    } else {
      hide AppendStrings;
      var tail := ss[1..];
      var more := AppendStrings(tail) + rest;
      StringsHead(ss, rest);
      assert forall s :: s in tail ==> s in ss;
      ReadStringOf(ss[0], more);
      ReadStringsOf(tail, rest);
      assert [ss[0]] + tail == ss;
    }
  }

  lemma ReadStringArrayOf(ss: seq<Str>, rest: seq<byte>)
    requires |ss| < LIMIT && forall s :: s in ss ==> |s| < LIMIT
    ensures ReadStringArray(ArrayHeader(|ss|) + AppendStrings(ss) + rest) == Ok(ss, rest)
  {
    hide ReadArrayHeader, ArrayHeader, AppendStrings, ReadStrings;
    assert ArrayHeader(|ss|) + AppendStrings(ss) + rest == ArrayHeader(|ss|) + (AppendStrings(ss) + rest);
    ReadArrayHeaderOf(|ss|, AppendStrings(ss) + rest);
    ReadStringsOf(ss, rest);
  }

  // ---- What a reader returns is within the 32-bit length limit

  lemma ReadBlobLimit(k: nat, b: seq<byte>)
    requires k <= 4
    ensures ReadBlob(k, b).Ok? ==> |ReadBlob(k, b).value| < LIMIT
  {
    Powers();
    if |b| >= k {
      ValueBound(b[..k]);
      assert Pow256(3) == 0x100_0000;
    }
  }

  lemma ReadStringLimit(b: seq<byte>)
    ensures ReadString(b).Ok? ==> |ReadString(b).value| < LIMIT
  {
    hide ReadBlob;
    if b != [] {
      ReadBlobLimit(1, b[1..]);
      ReadBlobLimit(2, b[1..]);
      ReadBlobLimit(4, b[1..]);
    }
  }

  lemma {:induction false} ReadStringsLimit(n: nat, b: seq<byte>)
    ensures ReadStrings(n, b).Ok? ==>
              var ss := ReadStrings(n, b).value;
              |ss| == n && forall s :: s in ss ==> |s| < LIMIT
  {
    hide ReadString;
    if n > 0 && ReadString(b).Ok? {
      ReadStringLimit(b);
      ReadStringsLimit(n - 1, ReadString(b).rest);
    }
  }

  lemma ReadStringArrayLimit(b: seq<byte>)
    ensures ReadStringArray(b).Ok? ==>
              var ss := ReadStringArray(b).value;
              |ss| < LIMIT && forall s :: s in ss ==> |s| < LIMIT
  {
    hide ReadStrings;
    Powers();
    var h := ReadArrayHeader(b);
    if h.Ok? {
      if b[0] == 0xdc { ValueBound(b[1..][..2]); }
      if b[0] == 0xdd { ValueBound(b[1..][..4]); }
      ReadStringsLimit(h.value, h.rest);
    }
  }

  // ---- Readers look no further than what they consume

  /** Reading `b` succeeded and reading `b + q` gives the same value, leaving `q` unread behind the rest. */
  ghost predicate Stable<T(!new)>(read: seq<byte> -> Read<T>, b: seq<byte>, q: seq<byte>)
  {
    read(b).Ok? ==> read(b + q) == Ok(read(b).value, read(b).rest + q)
  }

  lemma TailOfSum(b: seq<byte>, q: seq<byte>, k: nat)
    requires k <= |b|
    ensures (b + q)[..k] == b[..k] && (b + q)[k..] == b[k..] + q
  {
  }

  lemma ReadUintStable(k: nat, b: seq<byte>, q: seq<byte>)
    ensures Stable(x => ReadUint(k, x), b, q)
  {
    if k <= |b| { TailOfSum(b, q, k); }
  }

  lemma ReadBlobStable(k: nat, b: seq<byte>, q: seq<byte>)
    ensures Stable(x => ReadBlob(k, x), b, q)
  {
    if ReadBlob(k, b).Ok? {
      TailOfSum(b, q, k);
      TailOfSum(b[k..], q, Value(b[..k]));
    }
  }

  lemma ReadStringStable(b: seq<byte>, q: seq<byte>)
    ensures Stable(ReadString, b, q)
  {
    if ReadString(b).Ok? {
      TailOfSum(b, q, 1);
      if b[0] <= 0xbf {
        TailOfSum(b[1..], q, b[0] - 0xa0);
      } else {
        ReadBlobStable(if b[0] == 0xd9 then 1 else if b[0] == 0xda then 2 else 4, b[1..], q);
      }
    }
  }

  lemma ReadMapKeyStable(b: seq<byte>, q: seq<byte>)
    ensures Stable(ReadMapKey, b, q)
  {
    if ReadMapKey(b).Ok? {
      TailOfSum(b, q, 1);
      ReadStringStable(b, q);
      ReadBlobStable(1, b[1..], q);
      ReadBlobStable(2, b[1..], q);
      ReadBlobStable(4, b[1..], q);
    }
  }

  lemma ReadHeadersStable(b: seq<byte>, q: seq<byte>)
    ensures Stable(ReadArrayHeader, b, q) && Stable(ReadMapHeader, b, q)
  {
    if b != [] {
      TailOfSum(b, q, 1);
      ReadUintStable(2, b[1..], q);
      ReadUintStable(4, b[1..], q);
    }
  }

  lemma ReadUint8Stable(b: seq<byte>, q: seq<byte>)
    ensures Stable(ReadUint8, b, q)
  {
    hide ReadUint;
    if ReadUint8(b).Ok? && b[0] >= 128 {
      TailOfSum(b, q, 1);
      var width := if b[0] == 0xcc || b[0] == 0xd0 then 1 else if b[0] == 0xcd || b[0] == 0xd1 then 2
                   else if b[0] == 0xce || b[0] == 0xd2 then 4 else 8;
      ReadUintStable(width, b[1..], q);
      assert ReadUint(width, (b + q)[1..]).value == ReadUint(width, b[1..]).value;
    } else if b != [] {
      TailOfSum(b, q, 1);
    }
  }

  lemma ReadTimeStable(b: seq<byte>, q: seq<byte>)
    ensures Stable(ReadTime, b, q)
  {
    if |b| >= 15 {
      TailOfSum(b, q, 15);
      assert (b + q)[3..11] == b[3..11] && (b + q)[11..15] == b[11..15];
    }
  }

  lemma {:induction false} ReadStringsStable(n: nat, b: seq<byte>, q: seq<byte>)
    ensures Stable(x => ReadStrings(n, x), b, q)
  {
    if n > 0 && ReadString(b).Ok? {
      ReadStringStable(b, q);
      ReadStringsStable(n - 1, ReadString(b).rest, q);
    }
  }

  lemma ReadStringArrayStable(b: seq<byte>, q: seq<byte>)
    ensures Stable(ReadStringArray, b, q)
  {
    ReadHeadersStable(b, q);
    if ReadArrayHeader(b).Ok? {
      var (n, r) := (ReadArrayHeader(b).value, ReadArrayHeader(b).rest);
      ReadStringsStable(n, r, q);
    }
  }
}
