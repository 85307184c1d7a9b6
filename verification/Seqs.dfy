/** Flattened images of sequences, in terms of which logs, columns and rows are described. */
module Seqs {

  function FlatMap<A, B>(f: A -> seq<B>, s: seq<A>): seq<B>
  {
    if s == [] then [] else FlatMap(f, s[..|s| - 1]) + f(s[|s| - 1])
  }

  lemma FlatMapSnoc<A, B>(f: A -> seq<B>, s: seq<A>, x: A)
    ensures FlatMap(f, s + [x]) == FlatMap(f, s) + f(x)
  {
    assert (s + [x])[..|s|] == s;
  }

  lemma FlatMapNone<A, B>(f: A -> seq<B>)
    ensures FlatMap(f, []) == []
  {
  }

  lemma FlatMapOne<A, B>(f: A -> seq<B>, x: A)
    ensures FlatMap(f, [x]) == f(x)
  {
    assert [x][..0] == [];
    assert [] + f(x) == f(x);
  }

  lemma {:induction false} FlatMapConcat<A, B>(f: A -> seq<B>, a: seq<A>, b: seq<A>)
    ensures FlatMap(f, a + b) == FlatMap(f, a) + FlatMap(f, b)
  {
    if b == [] {
      assert a + b == a;
    } else {
      assert (a + b)[..|a + b| - 1] == a + b[..|b| - 1];
      FlatMapConcat(f, a, b[..|b| - 1]);
    }
  }

  /** The image of a sequence of one or two elements. */
  lemma FlatMapShort<A, B>(f: A -> seq<B>, s: seq<A>)
    requires 1 <= |s| <= 2
    ensures FlatMap(f, s) == f(s[0]) + if |s| == 2 then f(s[1]) else []
  {
    FlatMapOne(f, s[0]);
    if |s| == 2 {
      assert s[..1] == [s[0]];
    } else {
      assert s == [s[0]];
    }
  }

  lemma {:induction false} FlatMapTwice<A, B, C>(f: A -> seq<B>, g: B -> seq<C>, h: A -> seq<C>, s: seq<A>)
    requires forall x :: x in s ==> FlatMap(g, f(x)) == h(x)
    ensures FlatMap(g, FlatMap(f, s)) == FlatMap(h, s)
  {
    if s != [] {
      var n := |s| - 1;
      FlatMapTwice(f, g, h, s[..n]);
      FlatMapConcat(g, FlatMap(f, s[..n]), f(s[n]));
      assert s[n] in s;
    }
  }

  lemma {:induction false} FlatMapSame<A, B>(f: A -> seq<B>, g: A -> seq<B>, s: seq<A>)
    requires forall x :: x in s ==> f(x) == g(x)
    ensures FlatMap(f, s) == FlatMap(g, s)
  {
    if s != [] {
      assert s[|s| - 1] in s;
      FlatMapSame(f, g, s[..|s| - 1]);
    }
  }

  lemma {:induction false} InFlatMap<A, B>(f: A -> seq<B>, s: seq<A>, y: B)
    ensures y in FlatMap(f, s) <==> exists x :: x in s && y in f(x)
  {
    if s != [] {
      var init, last := s[..|s| - 1], s[|s| - 1];
      InFlatMap(f, init, y);
      assert forall x :: x in s <==> x in init || x == last;
    }
  }

  lemma {:induction false} FlatMapWithin<A, B>(f: A -> seq<B>, g: A -> seq<B>, s: seq<A>)
    requires forall x :: x in s ==> multiset(f(x)) <= multiset(g(x))
    ensures multiset(FlatMap(f, s)) <= multiset(FlatMap(g, s))
  {
    if s != [] {
      assert s[|s| - 1] in s;
      FlatMapWithin(f, g, s[..|s| - 1]);
    }
  }

  lemma {:induction false} FlatMapEmpty<A, B>(f: A -> seq<B>, s: seq<A>)
    requires forall x :: x in s ==> f(x) == []
    ensures FlatMap(f, s) == []
  {
    if s != [] {
      assert s[|s| - 1] in s;
      FlatMapEmpty(f, s[..|s| - 1]);
    }
  }

  lemma {:induction false} FlatMapSingles<A>(f: A -> seq<A>, s: seq<A>)
    requires forall x :: x in s ==> f(x) == [x]
    ensures FlatMap(f, s) == s
  {
    if s != [] {
      var init, last := s[..|s| - 1], s[|s| - 1];
      assert last in s && s == init + [last];
      FlatMapSingles(f, init);
      hide FlatMap;
      FlatMapSnoc(f, init, last);
    } else {
      FlatMapNone(f);
    }
  }

  // ---- Counting elements

  function Count<A>(p: A -> bool, s: seq<A>): nat
  {
    if s == [] then 0 else Count(p, s[..|s| - 1]) + if p(s[|s| - 1]) then 1 else 0
  }

  function One(b: bool): nat
  {
    if b then 1 else 0
  }

  lemma CountSnoc<A>(p: A -> bool, s: seq<A>, x: A)
    ensures Count(p, s + [x]) == Count(p, s) + One(p(x))
  {
    assert (s + [x])[..|s|] == s;
  }

  lemma {:induction false} CountHead<A>(p: A -> bool, s: seq<A>)
    requires s != []
    ensures Count(p, s) == One(p(s[0])) + Count(p, s[1..])
  {
    if |s| == 1 {
      assert s[..0] == [] && s[1..] == [];
    } else {
      CountHead(p, s[..|s| - 1]);
      assert s[..|s| - 1][1..] == s[1..][..|s| - 2];
    }
  }

  lemma {:induction false} CountUpdate<A>(p: A -> bool, s: seq<A>, i: nat, x: A)
    requires i < |s|
    ensures Count(p, s[i := x]) == Count(p, s) - One(p(s[i])) + One(p(x))
  {
    var n := |s| - 1;
    if i < n {
      CountUpdate(p, s[..n], i, x);
      assert s[i := x][..n] == s[..n][i := x];
    } else {
      assert s[i := x][..n] == s[..n];
    }
  }

  lemma {:induction false} CountNone<A>(p: A -> bool, s: seq<A>)
    ensures Count(p, s) == 0 <==> forall x :: x in s ==> !p(x)
  {
    if s != [] {
      CountNone(p, s[..|s| - 1]);
      assert s == s[..|s| - 1] + [s[|s| - 1]];
    }
  }

  lemma {:induction false} CountTwo<A>(p: A -> bool, s: seq<A>, i: nat, j: nat)
    requires i < j < |s| && p(s[i]) && p(s[j])
    ensures Count(p, s) >= 2
  {
    if j < |s| - 1 {
      CountTwo(p, s[..|s| - 1], i, j);
    } else {
      CountNone(p, s[..j]);
      assert s[i] in s[..j];
    }
  }

  // ---- Subsequences

  /** `a` is `b` with some elements left out. */
  predicate Subsequence<T(==)>(a: seq<T>, b: seq<T>)
  {
    if b == [] then a == []
    else
      var m, n := |a| - 1, |b| - 1;
      Subsequence(a, b[..n]) || (a != [] && a[m] == b[n] && Subsequence(a[..m], b[..n]))
  }

  lemma SubsequenceSnoc<T>(a: seq<T>, b: seq<T>, x: T)
    requires Subsequence(a, b)
    ensures Subsequence(a, b + [x]) && Subsequence(a + [x], b + [x])
  {
    assert (b + [x])[..|b|] == b && (a + [x])[..|a|] == a;
  }

  lemma {:induction false} NothingIsSubsequence<T>(b: seq<T>)
    ensures Subsequence([], b)
  {
    if b != [] {
      NothingIsSubsequence(b[..|b| - 1]);
    }
  }

  lemma {:induction false} SubsequenceConcat<T>(a: seq<T>, b: seq<T>, c: seq<T>, d: seq<T>)
    requires Subsequence(a, b) && Subsequence(c, d)
    ensures Subsequence(a + c, b + d)
  {
    if d == [] {
      assert a + c == a && b + d == b;
    } else {
      var m, n := |c| - 1, |d| - 1;
      assert (b + d)[..|b + d| - 1] == b + d[..n];
      if Subsequence(c, d[..n]) {
        SubsequenceConcat(a, b, c, d[..n]);
      } else {
        assert (a + c)[..|a + c| - 1] == a + c[..m];
        SubsequenceConcat(a, b, c[..m], d[..n]);
      }
    }
  }

  // ---- Elements answered yes

  const YES: bool -> bool := (b: bool) => b

  function Chosen<A>(xs: seq<A>, answers: seq<bool>): seq<A>
    requires |xs| == |answers|
  {
    if xs == [] then []
    else
      var n := |xs| - 1;
      Chosen(xs[..n], answers[..n]) + if answers[n] then [xs[n]] else []
  }

  lemma {:induction false} ChosenConcat<A>(xs: seq<A>, a: seq<bool>, ys: seq<A>, b: seq<bool>)
    requires |xs| == |a| && |ys| == |b|
    ensures Chosen(xs + ys, a + b) == Chosen(xs, a) + Chosen(ys, b)
  {
    if ys == [] {
      assert xs + ys == xs && a + b == a;
    } else {
      var n := |ys| - 1;
      ChosenConcat(xs, a, ys[..n], b[..n]);
      assert (xs + ys)[..|xs + ys| - 1] == xs + ys[..n] && (a + b)[..|a + b| - 1] == a + b[..n];
    }
  }

  lemma ChosenOne<A>(x: A, answer: bool)
    ensures Chosen([x], [answer]) == if answer then [x] else []
  {
    assert [x][..0] == [] && [answer][..0] == [];
  }

  /** As many are chosen as answers are yes, and an element answered yes comes after those chosen before it. */
  lemma {:induction false} ChosenAt<A>(xs: seq<A>, answers: seq<bool>)
    requires |xs| == |answers|
    ensures |Chosen(xs, answers)| == Count(YES, answers)
    ensures forall i :: 0 <= i < |xs| && answers[i] ==>
              Count(YES, answers[..i]) < |Chosen(xs, answers)|
              && Chosen(xs, answers)[Count(YES, answers[..i])] == xs[i]
  {
    if xs != [] {
      var n := |xs| - 1;
      ChosenAt(xs[..n], answers[..n]);
      assert answers == answers[..n] + [answers[n]];
      forall i | 0 <= i < |xs| && answers[i]
        ensures Count(YES, answers[..i]) < |Chosen(xs, answers)|
        ensures Chosen(xs, answers)[Count(YES, answers[..i])] == xs[i]
      {
        if i < n {
          assert answers[..n][..i] == answers[..i] && answers[..n][i];
        }
      }
    }
  }
}
