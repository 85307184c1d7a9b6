/**
 Objects of every MessagePack type as syntax trees, and `Skip`, which the decoder uses for values of
 unknown keys. `Skip` accepts exactly the encodings of trees that are not nested too deeply and discards
 exactly one of them.
 */
module MsgPackSkip {
  import opened Bytes
  import opened MsgPack

  /**
   What a lead byte announces ("Overview" of the formats). A leaf carries `extra` bytes plus as many as
   its length says; a node has as many children as its length says, twice that for a map. The length is
   `fixed` when `width` is 0, otherwise it is written in `width` bytes after the lead byte.
   */
  datatype Head = Leaf(width: nat, fixed: nat, extra: nat) | Node(width: nat, fixed: nat, pairs: bool) | Reserved

  function Classify(lead: byte): (h: Head)
    ensures !h.Reserved? ==> h.width <= 4
  {
    if lead <= 0x7f then Leaf(0, 0, 0)                          // positive fixint
    else if lead <= 0x8f then Node(0, lead - 0x80, true)        // fixmap
    else if lead <= 0x9f then Node(0, lead - 0x90, false)       // fixarray
    else if lead <= 0xbf then Leaf(0, lead - 0xa0, 0)           // fixstr
    else if lead == 0xc1 then Reserved
    else if lead <= 0xc3 then Leaf(0, 0, 0)                     // nil, false, true
    else if lead == 0xc4 then Leaf(1, 0, 0)                     // bin 8, 16, 32
    else if lead == 0xc5 then Leaf(2, 0, 0)
    else if lead == 0xc6 then Leaf(4, 0, 0)
    else if lead == 0xc7 then Leaf(1, 0, 1)                     // ext 8, 16, 32: a type byte before the data
    else if lead == 0xc8 then Leaf(2, 0, 1)
    else if lead == 0xc9 then Leaf(4, 0, 1)
    else if lead == 0xca then Leaf(0, 4, 0)                     // float 32, 64
    else if lead == 0xcb then Leaf(0, 8, 0)
    else if lead == 0xcc || lead == 0xd0 then Leaf(0, 1, 0)     // (u)int 8, 16, 32, 64
    else if lead == 0xcd || lead == 0xd1 then Leaf(0, 2, 0)
    else if lead == 0xce || lead == 0xd2 then Leaf(0, 4, 0)
    else if lead == 0xcf || lead == 0xd3 then Leaf(0, 8, 0)
    else if lead == 0xd4 then Leaf(0, 1, 1)                     // fixext 1, 2, 4, 8, 16
    else if lead == 0xd5 then Leaf(0, 2, 1)
    else if lead == 0xd6 then Leaf(0, 4, 1)
    else if lead == 0xd7 then Leaf(0, 8, 1)
    else if lead == 0xd8 then Leaf(0, 16, 1)
    else if lead == 0xd9 then Leaf(1, 0, 0)                     // str 8, 16, 32
    else if lead == 0xda then Leaf(2, 0, 0)
    else if lead == 0xdb then Leaf(4, 0, 0)
    else if lead == 0xdc then Node(2, 0, false)                 // array 16, 32
    else if lead == 0xdd then Node(4, 0, false)
    else if lead == 0xde then Node(2, 0, true)                  // map 16, 32
    else if lead == 0xdf then Node(4, 0, true)
    else Leaf(0, 0, 0)                                          // negative fixint
  }

  function ReadLength(h: Head, b: seq<byte>): Read<nat>
    requires !h.Reserved?
  {
    if h.width == 0 then Ok(h.fixed, b) else ReadUint(h.width, b)
  }

  /** The library refuses to follow more levels than this; nothing below depends on the value. */
  const NESTING_LIMIT: nat := 100_000

  /** Discards one object. */
  function Skip(b: seq<byte>): (r: Read<()>)
    ensures r.Ok? ==> |r.rest| < |b|
  {
    SkipWithin(NESTING_LIMIT, b)
  }

  /** Discards one object of at most `d` levels. */
  function SkipWithin(d: nat, b: seq<byte>): (r: Read<()>)
    ensures r.Ok? ==> |r.rest| < |b|
    decreases |b|, 0
  {
    if d == 0 || b == [] || Classify(b[0]).Reserved? then Fail
    else
      var h := Classify(b[0]);
      var (n, r) :- ReadLength(h, b[1..]);
      if h.Leaf? then
        if |r| < h.extra + n then Fail else Ok((), r[h.extra + n..])
      else
        SkipMany(d - 1, if h.pairs then 2 * n else n, r)
  }

  function SkipMany(d: nat, n: nat, b: seq<byte>): (r: Read<()>)
    ensures r.Ok? ==> |r.rest| <= |b|
    decreases |b|, 1 + n
  {
    if n == 0 then Ok((), b)
    else
      var (_, r) :- SkipWithin(d, b);
      SkipMany(d, n - 1, r)
  }

  // ---- Syntax trees

  datatype Obj = LeafObj(lead: byte, data: seq<byte>) | NodeObj(lead: byte, count: nat, kids: seq<Obj>)

  ghost predicate WellFormed(o: Obj)
  {
    var h := Classify(o.lead);
    match o
    case LeafObj(_, data) =>
      h.Leaf? && |data| >= h.extra && Fits(h, |data| - h.extra)
    case NodeObj(_, count, kids) =>
      && h.Node? && Fits(h, count) && |kids| == (if h.pairs then 2 * count else count)
      && forall k :: k in kids ==> WellFormed(k)
  }

  /** The tree has at most `d` levels. */
  ghost predicate Nested(o: Obj, d: nat)
  {
    d > 0 && (o.NodeObj? ==> forall k :: k in o.kids ==> Nested(k, d - 1))
  }

  ghost predicate Fits(h: Head, n: nat)
    requires !h.Reserved?
  {
    if h.width == 0 then n == h.fixed else n < Pow256(h.width)
  }

  ghost function Encode(o: Obj): seq<byte>
    requires WellFormed(o)
  {
    var h := Classify(o.lead);
    match o
    case LeafObj(_, data) => [o.lead] + BigEndian(h.width, |data| - h.extra) + data
    case NodeObj(_, count, kids) => [o.lead] + BigEndian(h.width, count) + EncodeAll(kids)
  }

  ghost function EncodeAll(os: seq<Obj>): seq<byte>
    requires forall o :: o in os ==> WellFormed(o)
  {
    if os == [] then [] else Encode(os[0]) + EncodeAll(os[1..])
  }

  lemma ReadLengthOf(h: Head, n: nat, rest: seq<byte>)
    requires !h.Reserved? && Fits(h, n)
    ensures ReadLength(h, BigEndian(h.width, n) + rest) == Ok(n, rest)
  {
    if h.width == 0 {
      assert BigEndian(0, n) + rest == rest;
    } else {
      ReadUintOfBigEndian(h.width, n, rest);
    }
  }

  lemma SkipLeaf(d: nat, b: seq<byte>, n: nat, data: seq<byte>, rest: seq<byte>)
    requires d > 0 && b != [] && Classify(b[0]).Leaf? && Fits(Classify(b[0]), n) && |data| == Classify(b[0]).extra + n
    requires b[1..] == BigEndian(Classify(b[0]).width, n) + data + rest
    ensures SkipWithin(d, b) == Ok((), rest)
  {
    hide Classify;
    var h := Classify(b[0]);
    assert b[1..] == BigEndian(h.width, n) + (data + rest);
    ReadLengthOf(h, n, data + rest);
    TakeAll(data, rest);
  }

  lemma SkipNode(d: nat, b: seq<byte>, n: nat, kids: seq<byte>, rest: seq<byte>)
    requires d > 0 && b != [] && Classify(b[0]).Node? && Fits(Classify(b[0]), n)
    requires b[1..] == BigEndian(Classify(b[0]).width, n) + kids + rest
    requires SkipMany(d - 1, if Classify(b[0]).pairs then 2 * n else n, kids + rest) == Ok((), rest)
    ensures SkipWithin(d, b) == Ok((), rest)
  {
    hide Classify, SkipMany;
    var h := Classify(b[0]);
    assert b[1..] == BigEndian(h.width, n) + (kids + rest);
    ReadLengthOf(h, n, kids + rest);
  }

  /** One whole object is skipped, and nothing after it. */
  lemma {:induction false} SkipEncoded(d: nat, o: Obj, rest: seq<byte>)
    requires WellFormed(o) && Nested(o, d)
    ensures SkipWithin(d, Encode(o) + rest) == Ok((), rest)
    decreases o, 0
  {
    hide Classify, SkipWithin, SkipMany;
    var h := Classify(o.lead);
    var b := Encode(o) + rest;
    match o
    case LeafObj(_, data) =>
      assert b[1..] == BigEndian(h.width, |data| - h.extra) + data + rest;
      SkipLeaf(d, b, |data| - h.extra, data, rest);
    case NodeObj(_, count, kids) =>
      SkipManyEncoded(d - 1, kids, rest);
      assert b[1..] == BigEndian(h.width, count) + EncodeAll(kids) + rest;
      SkipNode(d, b, count, EncodeAll(kids), rest);
  }

  lemma {:induction false} SkipManyEncoded(d: nat, os: seq<Obj>, rest: seq<byte>)
    requires forall o :: o in os ==> WellFormed(o) && Nested(o, d)
    ensures SkipMany(d, |os|, EncodeAll(os) + rest) == Ok((), rest)
    decreases os, 1
  {
    hide WellFormed, Nested, SkipWithin, Encode;
    if os == [] {
      assert EncodeAll(os) + rest == rest;
    } else {
      var more := EncodeAll(os[1..]) + rest;
      assert EncodeAll(os) + rest == Encode(os[0]) + more;
      SkipEncoded(d, os[0], more);
      SkipManyEncoded(d, os[1..], rest);
    }
  }

  lemma LengthBytes(h: Head, b: seq<byte>)
    requires !h.Reserved? && ReadLength(h, b).Ok?
    ensures Fits(h, ReadLength(h, b).value)
    ensures b == BigEndian(h.width, ReadLength(h, b).value) + ReadLength(h, b).rest
  {
    if h.width == 0 {
      assert BigEndian(0, h.fixed) == [];
    } else {
      ValueBound(b[..h.width]);
      BigEndianOfValue(b[..h.width]);
    }
  }

  lemma EncodeAllCons(o: Obj, os: seq<Obj>, rest: seq<byte>)
    requires WellFormed(o) && forall x :: x in os ==> WellFormed(x)
    ensures forall x :: x in [o] + os ==> WellFormed(x)
    ensures EncodeAll([o] + os) + rest == Encode(o) + (EncodeAll(os) + rest)
  {
    hide Classify, WellFormed, Encode;
    assert ([o] + os)[1..] == os;
  }

  lemma SkippedIsLeaf(d: nat, b: seq<byte>) returns (o: Obj)
    requires SkipWithin(d, b).Ok? && Classify(b[0]).Leaf?
    ensures WellFormed(o) && Nested(o, d) && b == Encode(o) + SkipWithin(d, b).rest
  {
    hide Classify, BigEndian;
    var h := Classify(b[0]);
    var len := ReadLength(h, b[1..]);
    LengthBytes(h, b[1..]);
    var k := h.extra + len.value;
    o := LeafObj(b[0], len.rest[..k]);
    LeafParts(b, BigEndian(h.width, len.value), len.rest, k);
  }

  lemma SkippedIsNode(d: nat, b: seq<byte>, kids: seq<Obj>) returns (o: Obj)
    requires SkipWithin(d, b).Ok? && Classify(b[0]).Node? && forall k :: k in kids ==> WellFormed(k) && Nested(k, d - 1)
    requires var h, len := Classify(b[0]), ReadLength(Classify(b[0]), b[1..]);
             && |kids| == (if h.pairs then 2 * len.value else len.value)
             && len.rest == EncodeAll(kids) + SkipWithin(d, b).rest
    ensures WellFormed(o) && Nested(o, d) && b == Encode(o) + SkipWithin(d, b).rest
  {
    hide Classify, SkipMany, BigEndian, EncodeAll;
    var h := Classify(b[0]);
    var len := ReadLength(h, b[1..]);
    LengthBytes(h, b[1..]);
    o := NodeObj(b[0], len.value, kids);
    NodeParts(b, BigEndian(h.width, len.value), len.rest, EncodeAll(kids), SkipWithin(d, b).rest);
  }

  /** Conversely, whatever is skipped is the encoding of one well-formed object. */
  lemma {:induction false} SkippedIsObject(d: nat, b: seq<byte>) returns (o: Obj)
    requires SkipWithin(d, b).Ok?
    ensures WellFormed(o) && Nested(o, d) && b == Encode(o) + SkipWithin(d, b).rest
    decreases |b|, 0
  {
    hide Classify, WellFormed, Nested, Encode, EncodeAll, SkipMany;
    var h := Classify(b[0]);
    if h.Leaf? {
      o := SkippedIsLeaf(d, b);
    } else {
      var len := ReadLength(h, b[1..]);
      var kids := SkippedAreObjects(d - 1, if h.pairs then 2 * len.value else len.value, len.rest);
      o := SkippedIsNode(d, b, kids);
    }
  }

  lemma LeafParts(b: seq<byte>, length: seq<byte>, r: seq<byte>, k: nat)
    requires b != [] && b[1..] == length + r && k <= |r|
    ensures b == [b[0]] + length + r[..k] + r[k..]
  {
  }

  lemma NodeParts(b: seq<byte>, length: seq<byte>, r: seq<byte>, kids: seq<byte>, rest: seq<byte>)
    requires b != [] && b[1..] == length + r && r == kids + rest
    ensures b == [b[0]] + length + kids + rest
  {
  }

  lemma {:induction false} SkippedAreObjects(d: nat, n: nat, b: seq<byte>) returns (os: seq<Obj>)
    requires SkipMany(d, n, b).Ok?
    ensures |os| == n && (forall o :: o in os ==> WellFormed(o) && Nested(o, d))
    ensures b == EncodeAll(os) + SkipMany(d, n, b).rest
    decreases |b|, 1 + n
  {
    hide Classify, WellFormed, Encode, Nested;
    if n == 0 {
      os := [];
    } else {
      var o := SkippedIsObject(d, b);
      var more := SkippedAreObjects(d, n - 1, SkipWithin(d, b).rest);
      EncodeAllCons(o, more, SkipMany(d, n - 1, SkipWithin(d, b).rest).rest);
      os := [o] + more;
    }
  }

  /** An object the decoder can skip. */
  ghost predicate Skippable(o: Obj)
  {
    WellFormed(o) && Nested(o, NESTING_LIMIT)
  }

  /** `Skip` accepts exactly the inputs that begin with a well-formed object within the nesting limit. */
  lemma SkipExactlyObjects(b: seq<byte>, rest: seq<byte>)
    ensures Skip(b) == Ok((), rest) <==> exists o :: Skippable(o) && b == Encode(o) + rest
  {
    if Skip(b) == Ok((), rest) {
      var o := SkippedIsObject(NESTING_LIMIT, b);
      assert Skippable(o);
    }
    forall o | Skippable(o) && b == Encode(o) + rest ensures Skip(b) == Ok((), rest) {
      SkipEncoded(NESTING_LIMIT, o, rest);
    }
  }

  /** An object one level too deep is not skipped, however well formed. */
  lemma TooDeepFails(o: Obj, rest: seq<byte>)
    requires WellFormed(o)
    ensures Skip(Encode(o) + rest) == Ok((), rest) <==> Nested(o, NESTING_LIMIT)
  {
    hide WellFormed, Encode, SkipWithin, Nested;
    if Skip(Encode(o) + rest) == Ok((), rest) {
      var p := SkippedIsObject(NESTING_LIMIT, Encode(o) + rest);
      SameObject(o, p, rest, rest);
    } else if Nested(o, NESTING_LIMIT) {
      SkipEncoded(NESTING_LIMIT, o, rest);
    }
  }

  lemma SkipStable(b: seq<byte>, q: seq<byte>)
    ensures Stable(x => Skip(x), b, q)
  {
    hide Classify, WellFormed, Encode, Nested, SkipWithin;
    if Skip(b).Ok? {
      var o := SkippedIsObject(NESTING_LIMIT, b);
      var r := Skip(b).rest;
      assert b + q == Encode(o) + (r + q);
      SkipEncoded(NESTING_LIMIT, o, r + q);
      assert Skip(b + q) == Ok((), r + q) && Skip(b).value == ();
    }
  }

  // ---- Reading an object

  /** Reads one object into its tree. */
  function Parse(b: seq<byte>): (r: Read<Obj>)
    ensures r.Ok? ==> |r.rest| < |b|
    decreases |b|, 0
  {
    if b == [] || Classify(b[0]).Reserved? then Fail
    else
      var h := Classify(b[0]);
      var (n, r) :- ReadLength(h, b[1..]);
      if h.Leaf? then
        if |r| < h.extra + n then Fail else Ok(LeafObj(b[0], r[..h.extra + n]), r[h.extra + n..])
      else
        var (kids, r') :- ParseMany(if h.pairs then 2 * n else n, r);
        Ok(NodeObj(b[0], n, kids), r')
  }

  function ParseMany(n: nat, b: seq<byte>): (r: Read<seq<Obj>>)
    ensures r.Ok? ==> |r.rest| <= |b|
    decreases |b|, 1 + n
  {
    if n == 0 then Ok([], b)
    else
      var (o, r) :- Parse(b);
      var (os, r') :- ParseMany(n - 1, r);
      Ok([o] + os, r')
  }

  lemma ParseLeaf(b: seq<byte>, n: nat, data: seq<byte>, rest: seq<byte>)
    requires b != [] && Classify(b[0]).Leaf? && Fits(Classify(b[0]), n) && |data| == Classify(b[0]).extra + n
    requires b[1..] == BigEndian(Classify(b[0]).width, n) + data + rest
    ensures Parse(b) == Ok(LeafObj(b[0], data), rest)
  {
    hide Classify;
    var h := Classify(b[0]);
    assert b[1..] == BigEndian(h.width, n) + (data + rest);
    ReadLengthOf(h, n, data + rest);
    TakeAll(data, rest);
  }

  lemma ParseNode(b: seq<byte>, n: nat, os: seq<Obj>, kids: seq<byte>, rest: seq<byte>)
    requires b != [] && Classify(b[0]).Node? && Fits(Classify(b[0]), n)
    requires b[1..] == BigEndian(Classify(b[0]).width, n) + kids + rest
    requires ParseMany(if Classify(b[0]).pairs then 2 * n else n, kids + rest) == Ok(os, rest)
    ensures Parse(b) == Ok(NodeObj(b[0], n, os), rest)
  {
    hide Classify, ParseMany;
    var h := Classify(b[0]);
    assert b[1..] == BigEndian(h.width, n) + (kids + rest);
    ReadLengthOf(h, n, kids + rest);
  }

  /** Reading undoes encoding for every tree, and leaves what follows. */
  lemma {:induction false} ParseEncoded(o: Obj, rest: seq<byte>)
    requires WellFormed(o)
    ensures Parse(Encode(o) + rest) == Ok(o, rest)
    decreases o, 0
  {
    hide Classify, Parse, ParseMany;
    var h := Classify(o.lead);
    var b := Encode(o) + rest;
    match o
    case LeafObj(_, data) =>
      assert b[1..] == BigEndian(h.width, |data| - h.extra) + data + rest;
      ParseLeaf(b, |data| - h.extra, data, rest);
    case NodeObj(_, count, kids) =>
      ParseManyEncoded(kids, rest);
      assert b[1..] == BigEndian(h.width, count) + EncodeAll(kids) + rest;
      ParseNode(b, count, kids, EncodeAll(kids), rest);
  }

  lemma {:induction false} ParseManyEncoded(os: seq<Obj>, rest: seq<byte>)
    requires forall o :: o in os ==> WellFormed(o)
    ensures ParseMany(|os|, EncodeAll(os) + rest) == Ok(os, rest)
    decreases os, 1
  {
    hide WellFormed, Parse, Encode;
    if os == [] {
      assert EncodeAll(os) + rest == rest;
    } else {
      var more := EncodeAll(os[1..]) + rest;
      assert EncodeAll(os) + rest == Encode(os[0]) + more;
      ParseEncoded(os[0], more);
      ParseManyEncoded(os[1..], rest);
      assert [os[0]] + os[1..] == os;
    }
  }

  /** Different trees never share an encoding, whatever follows. */
  lemma SameObject(o: Obj, p: Obj, r: seq<byte>, q: seq<byte>)
    requires WellFormed(o) && WellFormed(p) && Encode(o) + r == Encode(p) + q
    ensures o == p && r == q
  {
    hide WellFormed, Encode, Parse;
    ParseEncoded(o, r);
    ParseEncoded(p, q);
  }
}
