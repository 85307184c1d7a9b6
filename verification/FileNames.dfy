/** The load generator's search for a result file name that is not taken. */
module FileNames {

  import opened Options

  // ---- Decimal numbers

  predicate IsDigit(c: char)
  {
    '0' <= c <= '9'
  }

  function Digit(d: nat): (c: char)
    requires d < 10
    ensures IsDigit(c)
  {
    '0' + d as char
  }

  function DigitValue(c: char): nat
  {
    if IsDigit(c) then (c - '0') as nat else 0
  }

  function Itoa(n: nat): (s: string)
    ensures s != "" && forall i :: 0 <= i < |s| ==> IsDigit(s[i])
  {
    if n < 10 then [Digit(n)] else Itoa(n / 10) + [Digit(n % 10)]
  }

  function Atoi(s: string): nat
  {
    if s == "" then 0 else 10 * Atoi(s[..|s| - 1]) + DigitValue(s[|s| - 1])
  }

  lemma {:induction false} AtoiOfItoa(n: nat)
    ensures Atoi(Itoa(n)) == n
  {
    if n < 10 {
      assert [Digit(n)][..0] == "";
    } else {
      AtoiOfItoa(n / 10);
      var s := Itoa(n / 10);
      assert (s + [Digit(n % 10)])[..|s|] == s;
    }
  }

  // ---- Names

  /** From the last dot of the last path element on; nothing if that has no dot. */
  function Ext(name: string): (e: string)
    ensures |e| <= |name| && name[|name| - |e|..] == e
    ensures e != "" ==> e[0] == '.' && '.' !in e[1..] && '/' !in e
    ensures e == "" ==> forall i :: 0 <= i < |name| && name[i] == '.' ==> '/' in name[i..]
  {
    if name == "" then ""
    else
      var init, last := name[..|name| - 1], name[|name| - 1];
      assert name == init + [last];
      if last == '/' then ""
      else if last == '.' then "."
      else
        var e := Ext(init);
        assert forall i :: 0 <= i < |init| ==> name[i..] == init[i..] + [last];
        if e == "" then "" else e + [last]
  }

  function Base(name: string): (b: string)
    ensures b + Ext(name) == name
  {
    name[..|name| - |Ext(name)|]
  }

  /** The name tried for a suffix. */
  function Candidate(name: string, suffix: nat): string
  {
    Base(name) + (if suffix == 0 then "" else Itoa(suffix)) + Ext(name)
  }

  lemma ExtSnoc(init: string, last: char)
    ensures Ext(init + [last]) ==
            if last == '/' then "" else if last == '.' then "." else if Ext(init) == "" then "" else Ext(init) + [last]
  {
    assert (init + [last])[..|init|] == init;
  }

  lemma CandidateParts(name: string, suffix: nat)
    ensures Candidate(name, suffix) == Base(name) + (if suffix == 0 then "" else Itoa(suffix)) + Ext(name)
  {
    hide Base, Itoa, Ext;
  }

  lemma Reassociate(a: string, b: string, c: string, d: string)
    ensures a + b + (c + d) == a + b + c + d && b + (c + d) == b + c + d
  {
  }

  lemma {:induction false} ExtOf(stem: string, ext: string)
    requires '.' !in ext && '/' !in ext
    ensures Ext(stem + "." + ext) == "." + ext
  {
    hide Ext;
    if ext == "" {
      assert stem + "." + ext == stem + ['.'];
      ExtSnoc(stem, '.');
    } else {
      var init, last := ext[..|ext| - 1], ext[|ext| - 1];
      assert ext == init + [last];
      assert last in ext && forall c :: c in init ==> c in ext;
      ExtOf(stem, init);
      Reassociate(stem, ".", init, [last]);
      ExtSnoc(stem + "." + init, last);
    }
  }

  lemma Associate(a: string, b: string, c: string)
    ensures a + b + c == a + (b + c)
  {
  }

  lemma SameFront(a: string, b: string, end: string)
    requires a + end == b + end
    ensures a == b
  {
    assert |a| == |b|;
    assert (a + end)[..|a|] == a && (b + end)[..|b|] == b;
  }

  /** The number goes between the stem and the last dot of a name. */
  lemma CandidateOf(stem: string, ext: string, suffix: nat)
    requires '.' !in ext && '/' !in ext
    ensures Candidate(stem + "." + ext, suffix) == stem + (if suffix == 0 then "" else Itoa(suffix)) + ("." + ext)
  {
    hide Ext, Itoa, Base, Candidate;
    var name := stem + "." + ext;
    ExtOf(stem, ext);
    CandidateParts(name, suffix);
    Associate(stem, ".", ext);
    SameFront(Base(name), stem, "." + ext);
  }

  lemma CandidatesDiffer(name: string, i: nat, j: nat)
    requires Candidate(name, i) == Candidate(name, j)
    ensures i == j
  {
    hide Ext, Itoa;
    var b := |Base(name)|;
    var s, t := if i == 0 then "" else Itoa(i), if j == 0 then "" else Itoa(j);
    assert Candidate(name, i) == Base(name) + s + Ext(name) && Candidate(name, j) == Base(name) + t + Ext(name);
    assert |s| == |t|;
    assert s == Candidate(name, i)[b..b + |s|] && t == Candidate(name, j)[b..b + |t|];
    AtoiOfItoa(i);
    AtoiOfItoa(j);
  }

  // ---- The folder

  /** Where a name leads: the part before its last slash, if it has one, and the rest. */
  datatype Place = Here(leaf: string) | Below(dir: string, leaf: string)

  function Path(p: Place): string
  {
    match p case Here(leaf) => leaf case Below(dir, leaf) => dir + "/" + leaf
  }

  function PlaceOf(name: string): (p: Place)
    ensures p.Here? <==> '/' !in name
    ensures name == Path(p)
    ensures '/' !in p.leaf
  {
    if name == "" then Here("")
    else
      var init, last := name[..|name| - 1], name[|name| - 1];
      assert name == init + [last];
      if last == '/' then Below(init, "")
      else
        match PlaceOf(init)
        case Here(leaf) => Here(leaf + [last])
        case Below(dir, leaf) =>
          assert dir + "/" + leaf + [last] == dir + "/" + (leaf + [last]);
          Below(dir, leaf + [last])
  }

  /**
   The names in the folder; the names in the folder that a path leads to from here, if there is one; and whether a path
   that ends in a reserved part leads to anything.
   */
  datatype Folder = Folder(entries: set<string>, below: string -> Option<set<string>>, leadsTo: string -> bool)

  /** Names that lead to a folder itself or its parent. */
  predicate Reserved(leaf: string)
  {
    leaf == "" || leaf == "." || leaf == ".."
  }

  /** The entries among which a name is looked up. */
  function Entries(folder: Folder, p: Place): set<string>
  {
    match p
    case Here(_) => folder.entries
    case Below(dir, _) => match folder.below(dir) case Some(es) => es case None => {}
  }

  /** What a reserved name leads to exists. */
  predicate ReservedExists(folder: Folder, p: Place)
  {
    p.Here? || folder.leadsTo(Path(p))
  }

  predicate FileExists(folder: Folder, name: string)
  {
    var p := PlaceOf(name);
    if Reserved(p.leaf) then ReservedExists(folder, p) else p.leaf in Entries(folder, p)
  }

  /** The leaf of the candidate for a suffix. */
  function LeafCandidate(name: string, suffix: nat): string
  {
    Candidate(PlaceOf(name).leaf, suffix)
  }

  lemma BelowHasSlash(p: Place)
    requires '/' !in p.leaf
    ensures p.Below? <==> '/' in Path(p)
  {
    if p.Below? {
      assert Path(p)[|p.dir|] == '/';
    }
  }

  lemma PlaceIsUnique(p: Place, q: Place)
    requires '/' !in p.leaf && '/' !in q.leaf && Path(p) == Path(q)
    ensures p == q
  {
    BelowHasSlash(p);
    BelowHasSlash(q);
    if p.Below? {
      var name := Path(p);
      assert name[|p.dir|] == '/' && name[|q.dir|] == '/';
      assert forall i :: |p.dir| < i < |name| ==> name[i] == p.leaf[i - |p.dir| - 1];
      assert forall i :: |q.dir| < i < |name| ==> name[i] == q.leaf[i - |q.dir| - 1];
      assert p.dir == name[..|p.dir|] && q.dir == name[..|q.dir|];
      assert p.leaf == name[|p.dir| + 1..] && q.leaf == name[|q.dir| + 1..];
    }
  }

  lemma ExtOfNothing()
    ensures Ext("") == ""
  {
  }

  /** An extension does not look past a slash, so the extension of a name is that of its leaf. */
  lemma {:induction false} ExtOfLeaf(dir: string, leaf: string)
    requires '/' !in leaf
    ensures Ext(dir + "/" + leaf) == Ext(leaf)
  {
    hide Ext;
    if leaf == "" {
      assert dir + "/" + leaf == dir + ['/'];
      ExtSnoc(dir, '/');
      ExtOfNothing();
    } else {
      var init, last := leaf[..|leaf| - 1], leaf[|leaf| - 1];
      assert leaf == init + [last] && dir + "/" + leaf == dir + "/" + init + [last];
      ExtOfLeaf(dir, init);
      ExtSnoc(dir + "/" + init, last);
      ExtSnoc(init, last);
    }
  }

  lemma BaseOfLeaf(dir: string, leaf: string)
    requires '/' !in leaf
    ensures Base(dir + "/" + leaf) == dir + "/" + Base(leaf)
  {
    hide Ext, Base;
    var name, b, e := dir + "/" + leaf, Base(leaf), Ext(leaf);
    ExtOfLeaf(dir, leaf);
    assert dir + "/" + (b + e) == dir + "/" + b + e;
    SameEnd(Base(name), dir + "/" + b, e);
  }

  lemma Regroup(a: string, b: string, c: string, d: string)
    ensures a + b + c + d == a + (b + c + d)
  {
  }

  lemma CandidateBelow(dir: string, leaf: string, suffix: nat)
    requires '/' !in leaf
    ensures Candidate(dir + "/" + leaf, suffix) == dir + "/" + Candidate(leaf, suffix)
  {
    hide Ext, Base, Itoa;
    var s := if suffix == 0 then "" else Itoa(suffix);
    ExtOfLeaf(dir, leaf);
    BaseOfLeaf(dir, leaf);
    Regroup(dir + "/", Base(leaf), s, Ext(leaf));
  }

  /** All candidates lie where the name lies, and their leaves are the candidates of its leaf. */
  lemma CandidatePlace(name: string, suffix: nat)
    ensures PlaceOf(Candidate(name, suffix)) == PlaceOf(name).(leaf := LeafCandidate(name, suffix))
  {
    hide Candidate, PlaceOf;
    var p := PlaceOf(name);
    NoSlash(p.leaf, suffix);
    if p.Below? {
      CandidateBelow(p.dir, p.leaf, suffix);
    }
    PlaceIsUnique(PlaceOf(Candidate(name, suffix)), p.(leaf := LeafCandidate(name, suffix)));
  }

  lemma SameEnd(a: string, b: string, e: string)
    requires a + e == b + e
    ensures a == b
  {
    assert a == (a + e)[..|a|] && b == (b + e)[..|b|];
  }

  lemma NoSlash(leaf: string, suffix: nat)
    requires '/' !in leaf
    ensures '/' !in Candidate(leaf, suffix)
  {
    hide Itoa, Ext, Base;
    var b, e := Base(leaf), Ext(leaf);
    var s := if suffix == 0 then "" else Itoa(suffix);
    var c := Candidate(leaf, suffix);
    assert c == b + s + e && b + e == leaf;
    forall i | 0 <= i < |c| ensures c[i] != '/' {
      if i < |b| {
        assert c[i] == leaf[i];
      } else if i < |b| + |s| {
        assert c[i] == s[i - |b|];
      } else {
        assert c[i] == leaf[i - |s|];
      }
    }
  }

  /** The leaves of the candidates for suffixes `lo` to `hi - 1`. */
  function Candidates(name: string, lo: nat, hi: nat): set<string>
  {
    set k | lo <= k < hi :: LeafCandidate(name, k)
  }

  lemma {:induction false} AsManyCandidates(name: string, lo: nat, hi: nat)
    requires lo <= hi
    ensures |Candidates(name, lo, hi)| == hi - lo
    decreases hi
  {
    hide Candidate, PlaceOf;
    if lo == hi {
      assert Candidates(name, lo, hi) == {};
    } else {
      AsManyCandidates(name, lo, hi - 1);
      var last := LeafCandidate(name, hi - 1);
      assert last !in Candidates(name, lo, hi - 1) by {
        forall k | lo <= k < hi - 1 ensures LeafCandidate(name, k) != last {
          if LeafCandidate(name, k) == last {
            CandidatesDiffer(PlaceOf(name).leaf, k, hi - 1);
          }
        }
      }
      assert Candidates(name, lo, hi) == Candidates(name, lo, hi - 1) + {last};
    }
  }

  lemma {:induction false} Subset(a: set<string>, b: set<string>)
    requires a <= b
    ensures |a| <= |b| && (|a| == |b| ==> a == b)
    decreases a
  {
    if a != {} {
      var x :| x in a;
      Subset(a - {x}, b - {x});
    }
  }

  lemma DigitsAreOrdinary(c: string, i: nat)
    requires i < |c| && IsDigit(c[i])
    ensures !Reserved(c)
  {
  }

  /** A candidate with a number exists exactly if its leaf is an entry where the name lies. */
  lemma NumberedIsOrdinary(folder: Folder, name: string, k: nat)
    requires k >= 1
    ensures FileExists(folder, Candidate(name, k)) <==> LeafCandidate(name, k) in Entries(folder, PlaceOf(name))
  {
    hide Itoa, Ext, Base, Reserved, PlaceOf;
    CandidatePlace(name, k);
    var leaf := PlaceOf(name).leaf;
    assert LeafCandidate(name, k) == Base(leaf) + Itoa(k) + Ext(leaf);
    DigitsAreOrdinary(LeafCandidate(name, k), |Base(leaf)|);
  }

  lemma NoSuffix(name: string)
    ensures Candidate(name, 0) == name
  {
    hide Ext, Base;
    assert Base(name) + "" + Ext(name) == Base(name) + Ext(name);
  }

  lemma FirstCandidate(folder: Folder, name: string)
    ensures Candidate(name, 0) == name && LeafCandidate(name, 0) == PlaceOf(name).leaf
    ensures FileExists(folder, name) <==>
            if Reserved(PlaceOf(name).leaf) then ReservedExists(folder, PlaceOf(name))
            else LeafCandidate(name, 0) in Entries(folder, PlaceOf(name))
  {
    hide PlaceOf, Candidate, Reserved, ReservedExists, Entries;
    NoSuffix(name);
    NoSuffix(PlaceOf(name).leaf);
  }

  predicate AllTaken(folder: Folder, name: string)
  {
    forall k :: 0 <= k <= |folder.entries| ==> FileExists(folder, Candidate(name, k))
  }

  /**
   All names tried are taken exactly in two cases. Either the name is ordinary, and all of one more names than the
   folder has entries are entries where the name lies; or it is reserved and leads somewhere, and that is so of all the
   numbered names.
   */
  lemma AllTakenExactlyWhen(folder: Folder, name: string)
    ensures var p, n := PlaceOf(name), |folder.entries|;
            AllTaken(folder, name) <==>
            if Reserved(p.leaf) then ReservedExists(folder, p) && Candidates(name, 1, n + 1) <= Entries(folder, p)
            else Candidates(name, 0, n + 1) <= Entries(folder, p)
  {
    hide Candidate, FileExists, LeafCandidate, Reserved, PlaceOf, ReservedExists, Entries;
    var n, es := |folder.entries|, Entries(folder, PlaceOf(name));
    forall k | 1 <= k <= n ensures FileExists(folder, Candidate(name, k)) <==> LeafCandidate(name, k) in es {
      NumberedIsOrdinary(folder, name, k);
    }
    FirstCandidate(folder, name);
    if AllTaken(folder, name) {
      assert FileExists(folder, Candidate(name, 0));
    }
  }

  /**
   So the search fails only if the place of the name has as many entries as the folder, and one more for ordinary
   names.
   */
  lemma TakenNeedsEntries(folder: Folder, name: string)
    requires AllTaken(folder, name)
    ensures |Entries(folder, PlaceOf(name))| >= |folder.entries| + if Reserved(PlaceOf(name).leaf) then 0 else 1
  {
    hide AllTaken, Entries, PlaceOf, Reserved, ReservedExists;
    var n, es := |folder.entries|, Entries(folder, PlaceOf(name));
    AllTakenExactlyWhen(folder, name);
    var lo := if Reserved(PlaceOf(name).leaf) then 1 else 0;
    AsManyCandidates(name, lo, n + 1);
    Subset(Candidates(name, lo, n + 1), es);
  }

  /**
   For a plain name, all names tried are taken exactly when the name is reserved and the folder holds just the
   numbered names: one more name is tried than there are entries, and no two are equal.
   */
  lemma PlainTakenExactlyWhen(folder: Folder, name: string)
    requires '/' !in name
    ensures AllTaken(folder, name) <==> Reserved(name) && folder.entries == Candidates(name, 1, |folder.entries| + 1)
  {
    hide AllTaken, Reserved, Candidates;
    var n := |folder.entries|;
    AllTakenExactlyWhen(folder, name);
    AsManyCandidates(name, 1, n + 1);
    if AllTaken(folder, name) {
      TakenNeedsEntries(folder, name);
      Subset(Candidates(name, 1, n + 1), folder.entries);
    }
  }

  /** The search: the absent candidate with the least suffix, or nothing. */
  method GenerateFileName(folder: Folder, name: string) returns (r: Option<string>)
    ensures r.Some? ==> exists k: nat ::
              && k <= |folder.entries| && r.value == Candidate(name, k) && !FileExists(folder, r.value)
              && forall j: nat :: j < k ==> FileExists(folder, Candidate(name, j))
    ensures var p, n := PlaceOf(name), |folder.entries|;
            r.None? <==>
            if Reserved(p.leaf) then ReservedExists(folder, p) && Candidates(name, 1, n + 1) <= Entries(folder, p)
            else Candidates(name, 0, n + 1) <= Entries(folder, p)
    ensures '/' !in name && !Reserved(name) ==> r.Some?
  {
    hide Ext, Base, Itoa, Candidate, FileExists, Reserved, ReservedExists, PlaceOf, Entries, Candidates, LeafCandidate;
    AllTakenExactlyWhen(folder, name);
    if '/' !in name {
      PlainTakenExactlyWhen(folder, name);
    }
    var n := |folder.entries|;
    var base, ext := Base(name), Ext(name);
    for suffix: nat := 0 to n + 1
      invariant forall k: nat :: k < suffix ==> FileExists(folder, Candidate(name, k))
    {
      var tried := base;
      if suffix != 0 {
        tried := tried + Itoa(suffix);
      }
      tried := tried + ext;
      assert tried == Candidate(name, suffix) by { CandidateParts(name, suffix); }
      if !FileExists(folder, tried) {
        return Some(tried);
      }
    }
    r := None;
  }

  /** The name `.` gets no file in a folder holding just `1.`. */
  lemma DotMayFail(folder: Folder)
    requires folder.entries == {"1."}
    ensures AllTaken(folder, ".")
  {
    hide AllTaken, LeafCandidate, PlaceOf;
    PlaceOfDot();
    LeafOfDot();
    AllTakenExactlyWhen(folder, ".");
    assert Candidates(".", 1, 2) == {LeafCandidate(".", 1)};
    assert |folder.entries| == 1;
  }

  lemma PlaceOfDot()
    ensures PlaceOf(".") == Here(".")
  {
    hide PlaceOf;
    PlaceIsUnique(PlaceOf("."), Here("."));
  }

  lemma LeafOfDot()
    ensures LeafCandidate(".", 1) == "1."
  {
    hide Itoa, PlaceOf, Ext, Base, Candidate;
    PlaceOfDot();
    ExtOfDot();
    FirstNumbered(".");
    assert "" + "1" + "." == "1.";
  }

  lemma ExtOfDot()
    ensures Ext(".") == "." && Base(".") == ""
  {
  }

  lemma FirstNumbered(leaf: string)
    ensures Candidate(leaf, 1) == Base(leaf) + "1" + Ext(leaf)
  {
    hide Itoa, Ext, Base;
    ItoaOfOne();
  }

  /** `a/b` gets no file in a folder whose only entry is a folder `a` that holds `b` and `b1`. */
  lemma SubfolderMayFail(folder: Folder)
    requires folder.entries == {"a"} && folder.below("a") == Some({"b", "b1"})
    ensures AllTaken(folder, "a/b")
  {
    hide AllTaken, LeafCandidate, PlaceOf;
    PlaceOfAB();
    LeavesOfAB();
    AllTakenExactlyWhen(folder, "a/b");
    assert Candidates("a/b", 0, 2) == {LeafCandidate("a/b", 0), LeafCandidate("a/b", 1)};
    assert |folder.entries| == 1;
  }

  lemma LeavesOfAB()
    ensures LeafCandidate("a/b", 0) == "b" && LeafCandidate("a/b", 1) == "b1"
  {
    hide Itoa, PlaceOf, Ext, Base, Candidate;
    PlaceOfAB();
    ExtOfB();
    FirstNumbered("b");
    Unnumbered("b");
    assert "b" + "1" + "" == "b1";
  }

  lemma ExtOfB()
    ensures Ext("b") == "" && Base("b") == "b"
  {
  }

  lemma Unnumbered(leaf: string)
    ensures Candidate(leaf, 0) == leaf
  {
    hide Ext;
    assert Base(leaf) + "" + Ext(leaf) == leaf;
  }

  lemma PlaceOfAB()
    ensures PlaceOf("a/b") == Below("a", "b")
  {
    hide PlaceOf;
    assert "a" + "/" + "b" == "a/b";
    PlaceIsUnique(PlaceOf("a/b"), Below("a", "b"));
  }

  lemma ItoaOfOne()
    ensures Itoa(1) == "1"
  {
  }
}
