/**
 The metric tables kept by the database: log rows are counted per second as their insert block arrives, the inserted
 counts are summed per minute, and both tables are merged in the background at any time and in any order.
 */
module Rollup {
  import opened MsgPack
  import opened Seqs

  const NANOS_PER_SECOND := 1_000_000_000
  const ERROR_SEVERITY := 17

  /** The columns of a log row that matter here; the time is in nanoseconds. */
  datatype LogRow = LogRow(time: int, service: Str, severity: nat)

  /** A row of either metrics table; the time is in seconds. */
  datatype Metric = Metric(time: int, service: Str, logs: nat, errors: nat)

  function StartOfSecond(nanos: int): int
  {
    nanos / NANOS_PER_SECOND
  }

  function StartOfMinute(seconds: int): int
  {
    seconds - seconds % 60
  }

  predicate SameKey(a: Metric, b: Metric)
  {
    a.time == b.time && a.service == b.service
  }

  function Plus(a: Metric, b: Metric): Metric
  {
    a.(logs := a.logs + b.logs, errors := a.errors + b.errors)
  }

  // ---- Grouping

  function AddTo(groups: seq<Metric>, m: Metric): seq<Metric>
  {
    if groups == [] then [m]
    else if SameKey(groups[0], m) then [Plus(groups[0], m)] + groups[1..]
    else [groups[0]] + AddTo(groups[1..], m)
  }

  /** One row per key with the sums of the rows with that key. */
  function GroupBy(ms: seq<Metric>): seq<Metric>
  {
    if ms == [] then [] else AddTo(GroupBy(ms[..|ms| - 1]), ms[|ms| - 1])
  }

  const AS_METRIC: LogRow -> seq<Metric> :=
    (r: LogRow) => [Metric(StartOfSecond(r.time), r.service, 1, One(r.severity >= ERROR_SEVERITY))]

  const AS_MINUTE: Metric -> seq<Metric> := (m: Metric) => [m.(time := StartOfMinute(m.time))]

  /** The view feeding `metrics` from a block of inserted log rows. */
  function SecondsView(block: seq<LogRow>): seq<Metric>
  {
    GroupBy(FlatMap(AS_METRIC, block))
  }

  /** The view feeding `metrics_1m` from a block of rows inserted into `metrics`. */
  function MinutesView(block: seq<Metric>): seq<Metric>
  {
    GroupBy(FlatMap(AS_MINUTE, block))
  }

  // ---- The tables

  datatype State = State(logs: seq<LogRow>, seconds: seq<Metric>, minutes: seq<Metric>)

  datatype Input = Insert(block: seq<LogRow>) | MergeSeconds(i: nat, j: nat) | MergeMinutes(i: nat, j: nat)

  predicate Mergeable(table: seq<Metric>, i: nat, j: nat)
  {
    i < j < |table| && SameKey(table[i], table[j])
  }

  function Merge(table: seq<Metric>, i: nat, j: nat): seq<Metric>
    requires Mergeable(table, i, j)
  {
    table[i := Plus(table[i], table[j])][..j] + table[j + 1..]
  }

  predicate Enabled(s: State, x: Input)
  {
    match x
    case Insert(_) => true
    case MergeSeconds(i, j) => Mergeable(s.seconds, i, j)
    case MergeMinutes(i, j) => Mergeable(s.minutes, i, j)
  }

  function Step(s: State, x: Input): State
    requires Enabled(s, x)
  {
    match x
    case Insert(block) =>
      var counts := SecondsView(block);
      State(s.logs + block, s.seconds + counts, s.minutes + MinutesView(counts))
    case MergeSeconds(i, j) => s.(seconds := Merge(s.seconds, i, j))
    case MergeMinutes(i, j) => s.(minutes := Merge(s.minutes, i, j))
  }

  ghost predicate Reaches(xs: seq<Input>, s: State)
  {
    if xs == [] then s == State([], [], [])
    else
      var n := |xs| - 1;
      exists p :: Reaches(xs[..n], p) && Enabled(p, xs[n]) && s == Step(p, xs[n])
  }

  // ---- Totals

  function Sum(f: Metric -> nat, ms: seq<Metric>): nat
  {
    if ms == [] then 0 else Sum(f, ms[..|ms| - 1]) + f(ms[|ms| - 1])
  }

  /** What a metrics row contributes to the count of a service at a time: all logs, or errors only. */
  function At(time: int, service: Str, errorsOnly: bool): Metric -> nat
  {
    (m: Metric) => if m.time == time && m.service == service then (if errorsOnly then m.errors else m.logs) else 0
  }

  /** What a per-second row contributes to the minute starting at `time`. */
  function Within(time: int, service: Str, errorsOnly: bool): Metric -> nat
  {
    (m: Metric) =>
      if StartOfMinute(m.time) == time && m.service == service then (if errorsOnly then m.errors else m.logs) else 0
  }

  /** A log row of the service; if only errors are wanted, one of severity ERROR, which starts at 17, or above. */
  predicate Wanted(r: LogRow, service: Str, errorsOnly: bool)
  {
    r.service == service && (errorsOnly ==> r.severity >= 17)
  }

  /** The log rows of a service in the second starting at `time`. */
  function InSecond(time: int, service: Str, errorsOnly: bool): LogRow -> bool
  {
    (r: LogRow) => time * 1_000_000_000 <= r.time < (time + 1) * 1_000_000_000 && Wanted(r, service, errorsOnly)
  }

  /** The log rows of a service in the minute starting at `time`. */
  function InMinute(time: int, service: Str, errorsOnly: bool): LogRow -> bool
  {
    (r: LogRow) =>
      time % 60 == 0 && time * 1_000_000_000 <= r.time < (time + 60) * 1_000_000_000
        && Wanted(r, service, errorsOnly)
  }

  ghost predicate Additive(f: Metric -> nat)
  {
    forall a, b :: SameKey(a, b) ==> f(Plus(a, b)) == f(a) + f(b)
  }

  lemma {:induction false} SumConcat(f: Metric -> nat, a: seq<Metric>, b: seq<Metric>)
    ensures Sum(f, a + b) == Sum(f, a) + Sum(f, b)
  {
    if b == [] {
      assert a + b == a;
    } else {
      assert (a + b)[..|a + b| - 1] == a + b[..|b| - 1];
      SumConcat(f, a, b[..|b| - 1]);
    }
  }

  lemma SumOne(f: Metric -> nat, m: Metric)
    ensures Sum(f, [m]) == f(m)
  {
    assert [m][..0] == [];
  }

  lemma {:induction false} SumAddTo(f: Metric -> nat, groups: seq<Metric>, m: Metric)
    requires Additive(f)
    ensures Sum(f, AddTo(groups, m)) == Sum(f, groups) + f(m)
  {
    hide Sum;
    if groups == [] {
      SumOne(f, m);
      SumOfAbsent(f, []);
    } else {
      var head, tail := groups[0], groups[1..];
      assert groups == [head] + tail;
      SumConcat(f, [head], tail);
      SumOne(f, head);
      if SameKey(head, m) {
        SumConcat(f, [Plus(head, m)], tail);
        SumOne(f, Plus(head, m));
      } else {
        SumAddTo(f, tail, m);
        SumConcat(f, [head], AddTo(tail, m));
      }
    }
  }

  lemma {:induction false} SumGroupBy(f: Metric -> nat, ms: seq<Metric>)
    requires Additive(f)
    ensures Sum(f, GroupBy(ms)) == Sum(f, ms)
  {
    if ms != [] {
      SumGroupBy(f, ms[..|ms| - 1]);
      SumAddTo(f, GroupBy(ms[..|ms| - 1]), ms[|ms| - 1]);
    }
  }

  lemma SumMerge(f: Metric -> nat, table: seq<Metric>, i: nat, j: nat)
    requires Additive(f) && Mergeable(table, i, j)
    ensures Sum(f, Merge(table, i, j)) == Sum(f, table)
  {
    hide Sum;
    var a, b, c := table[..i], table[i + 1..j], table[j + 1..];
    var both := Plus(table[i], table[j]);
    assert table == a + [table[i]] + b + [table[j]] + c;
    assert Merge(table, i, j) == a + [both] + b + c;
    SumConcat(f, a + [table[i]] + b + [table[j]], c);
    SumConcat(f, a + [table[i]] + b, [table[j]]);
    SumConcat(f, a + [table[i]], b);
    SumConcat(f, a, [table[i]]);
    SumConcat(f, a + [both] + b, c);
    SumConcat(f, a + [both], b);
    SumConcat(f, a, [both]);
    SumOne(f, table[i]);
    SumOne(f, table[j]);
    SumOne(f, both);
  }

  /** Regrouping per-second rows into minutes keeps the total of every minute. */
  lemma {:induction false} SumMinutes(time: int, service: Str, errorsOnly: bool, ms: seq<Metric>)
    ensures Sum(At(time, service, errorsOnly), FlatMap(AS_MINUTE, ms)) == Sum(Within(time, service, errorsOnly), ms)
  {
    if ms != [] {
      var n := |ms| - 1;
      SumMinutes(time, service, errorsOnly, ms[..n]);
      SumConcat(At(time, service, errorsOnly), FlatMap(AS_MINUTE, ms[..n]), AS_MINUTE(ms[n]));
      SumOne(At(time, service, errorsOnly), AS_MINUTE(ms[n])[0]);
    }
  }

  lemma OneRow(time: int, service: Str, errorsOnly: bool, r: LogRow)
    ensures At(time, service, errorsOnly)(AS_METRIC(r)[0]) == One(InSecond(time, service, errorsOnly)(r))
    ensures Within(time, service, errorsOnly)(AS_METRIC(r)[0]) == One(InMinute(time, service, errorsOnly)(r))
  {
  }

  /** Summing the metrics of single rows is counting the rows, per second and per minute. */
  lemma {:induction false} SumIsCount(time: int, service: Str, errorsOnly: bool, rows: seq<LogRow>)
    ensures Sum(At(time, service, errorsOnly), FlatMap(AS_METRIC, rows)) ==
            Count(InSecond(time, service, errorsOnly), rows)
    ensures Sum(Within(time, service, errorsOnly), FlatMap(AS_METRIC, rows)) ==
            Count(InMinute(time, service, errorsOnly), rows)
  {
    if rows != [] {
      hide At, Within, InSecond, InMinute;
      var n := |rows| - 1;
      SumIsCount(time, service, errorsOnly, rows[..n]);
      OneRow(time, service, errorsOnly, rows[n]);
      assert AS_METRIC(rows[n]) == [AS_METRIC(rows[n])[0]];
      SumConcat(At(time, service, errorsOnly), FlatMap(AS_METRIC, rows[..n]), AS_METRIC(rows[n]));
      SumConcat(Within(time, service, errorsOnly), FlatMap(AS_METRIC, rows[..n]), AS_METRIC(rows[n]));
      SumOne(At(time, service, errorsOnly), AS_METRIC(rows[n])[0]);
      SumOne(Within(time, service, errorsOnly), AS_METRIC(rows[n])[0]);
    }
  }

  lemma {:induction false} CountConcat(p: LogRow -> bool, a: seq<LogRow>, b: seq<LogRow>)
    ensures Count(p, a + b) == Count(p, a) + Count(p, b)
  {
    if b == [] {
      assert a + b == a;
    } else {
      assert (a + b)[..|a + b| - 1] == a + b[..|b| - 1];
      CountConcat(p, a, b[..|b| - 1]);
    }
  }

  // ---- Whole-run properties

  predicate Accurate(s: State, time: int, service: Str, errorsOnly: bool)
  {
    && Sum(At(time, service, errorsOnly), s.seconds) == Count(InSecond(time, service, errorsOnly), s.logs)
    && Sum(At(time, service, errorsOnly), s.minutes) == Count(InMinute(time, service, errorsOnly), s.logs)
    && Sum(At(time, service, errorsOnly), s.minutes) == Sum(Within(time, service, errorsOnly), s.seconds)
  }

  lemma TotalsAddUp(time: int, service: Str, errorsOnly: bool)
    ensures Additive(At(time, service, errorsOnly)) && Additive(Within(time, service, errorsOnly))
  {
  }

  /** What the two views compute from a block of log rows. */
  lemma ViewsAreAccurate(block: seq<LogRow>, time: int, service: Str, errorsOnly: bool)
    ensures Accurate(State(block, SecondsView(block), MinutesView(SecondsView(block))), time, service, errorsOnly)
  {
    hide Sum, Count, GroupBy, FlatMap, At, Within, InSecond, InMinute, Additive;
    var at, within := At(time, service, errorsOnly), Within(time, service, errorsOnly);
    TotalsAddUp(time, service, errorsOnly);
    SumGroupBy(at, FlatMap(AS_METRIC, block));
    SumGroupBy(within, FlatMap(AS_METRIC, block));
    SumIsCount(time, service, errorsOnly, block);
    SumGroupBy(at, FlatMap(AS_MINUTE, SecondsView(block)));
    SumMinutes(time, service, errorsOnly, SecondsView(block));
  }

  lemma StepKeeps(s: State, x: Input, time: int, service: Str, errorsOnly: bool)
    requires Accurate(s, time, service, errorsOnly) && Enabled(s, x)
    ensures Accurate(Step(s, x), time, service, errorsOnly)
  {
    hide Sum, Count, Merge, Mergeable, SecondsView, MinutesView, At, Within, InSecond, InMinute, Additive;
    var at, within := At(time, service, errorsOnly), Within(time, service, errorsOnly);
    TotalsAddUp(time, service, errorsOnly);
    match x
    case Insert(block) =>
      var counts := SecondsView(block);
      ViewsAreAccurate(block, time, service, errorsOnly);
      SumConcat(at, s.seconds, counts);
      SumConcat(within, s.seconds, counts);
      SumConcat(at, s.minutes, MinutesView(counts));
      CountConcat(InSecond(time, service, errorsOnly), s.logs, block);
      CountConcat(InMinute(time, service, errorsOnly), s.logs, block);
    case MergeSeconds(i, j) =>
      SumMerge(at, s.seconds, i, j);
      SumMerge(within, s.seconds, i, j);
    case MergeMinutes(i, j) => SumMerge(at, s.minutes, i, j);
  }

  lemma {:induction false} RunKeeps(xs: seq<Input>, s: State, time: int, service: Str, errorsOnly: bool)
    requires Reaches(xs, s)
    ensures Accurate(s, time, service, errorsOnly)
  {
    if xs != [] {
      hide Accurate, Enabled, Step;
      var n := |xs| - 1;
      var p :| Reaches(xs[..n], p) && Enabled(p, xs[n]) && s == Step(p, xs[n]);
      RunKeeps(xs[..n], p, time, service, errorsOnly);
      StepKeeps(p, xs[n], time, service, errorsOnly);
    }
  }

  /**
   However log rows are split into blocks and whatever merges have happened, the totals per service and second, and
   per service and minute, of all rows and of error rows, are the counts of the log rows inserted.
   */
  lemma TotalsAreCounts(xs: seq<Input>, s: State, time: int, service: Str, errorsOnly: bool)
    requires Reaches(xs, s)
    ensures Sum(At(time, service, errorsOnly), s.seconds) == Count(InSecond(time, service, errorsOnly), s.logs)
    ensures Sum(At(time, service, errorsOnly), s.minutes) == Count(InMinute(time, service, errorsOnly), s.logs)
    ensures Sum(At(time, service, errorsOnly), s.minutes) == Sum(Within(time, service, errorsOnly), s.seconds)
  {
    RunKeeps(xs, s, time, service, errorsOnly);
  }

  /** No two rows have the same service and time. */
  predicate FullyMerged(table: seq<Metric>)
  {
    forall i, j :: 0 <= i < j < |table| ==> !SameKey(table[i], table[j])
  }

  lemma {:induction false} SumOfAbsent(f: Metric -> nat, ms: seq<Metric>)
    requires forall m :: m in ms ==> f(m) == 0
    ensures Sum(f, ms) == 0
  {
    if ms != [] {
      assert ms[|ms| - 1] in ms;
      SumOfAbsent(f, ms[..|ms| - 1]);
    }
  }

  /** In a fully merged table every row is the total of its key. */
  lemma RowIsTotal(table: seq<Metric>, i: nat, errorsOnly: bool)
    requires FullyMerged(table) && i < |table|
    ensures var m := table[i]; Sum(At(m.time, m.service, errorsOnly), table) == if errorsOnly then m.errors else m.logs
  {
    hide Sum;
    var m := table[i];
    var f := At(m.time, m.service, errorsOnly);
    assert table == table[..i] + [m] + table[i + 1..];
    SumConcat(f, table[..i] + [m], table[i + 1..]);
    SumConcat(f, table[..i], [m]);
    SumOne(f, m);
    SumOfAbsent(f, table[..i]);
    SumOfAbsent(f, table[i + 1..]);
  }

  /** Once merged, every row of either table holds exactly the direct counts of the log rows it stands for. */
  lemma MergedRowsAreCounts(xs: seq<Input>, s: State)
    requires Reaches(xs, s)
    ensures FullyMerged(s.seconds) ==> forall m :: m in s.seconds ==>
              && m.logs == Count(InSecond(m.time, m.service, false), s.logs)
              && m.errors == Count(InSecond(m.time, m.service, true), s.logs)
    ensures FullyMerged(s.minutes) ==> forall m :: m in s.minutes ==>
              && m.logs == Count(InMinute(m.time, m.service, false), s.logs)
              && m.errors == Count(InMinute(m.time, m.service, true), s.logs)
  {
    hide Sum, Count, FullyMerged, Reaches;
    if FullyMerged(s.seconds) {
      forall m | m in s.seconds
        ensures m.logs == Count(InSecond(m.time, m.service, false), s.logs)
        ensures m.errors == Count(InSecond(m.time, m.service, true), s.logs)
      {
        var i :| 0 <= i < |s.seconds| && s.seconds[i] == m;
        RowIsTotal(s.seconds, i, false);
        RowIsTotal(s.seconds, i, true);
        TotalsAreCounts(xs, s, m.time, m.service, false);
        TotalsAreCounts(xs, s, m.time, m.service, true);
      }
    }
    if FullyMerged(s.minutes) {
      forall m | m in s.minutes
        ensures m.logs == Count(InMinute(m.time, m.service, false), s.logs)
        ensures m.errors == Count(InMinute(m.time, m.service, true), s.logs)
      {
        var i :| 0 <= i < |s.minutes| && s.minutes[i] == m;
        RowIsTotal(s.minutes, i, false);
        RowIsTotal(s.minutes, i, true);
        TotalsAreCounts(xs, s, m.time, m.service, false);
        TotalsAreCounts(xs, s, m.time, m.service, true);
      }
    }
  }

  predicate NonEmpty(table: seq<Metric>)
  {
    forall m :: m in table ==> 1 <= m.logs && m.errors <= m.logs
  }

  lemma {:induction false} AddToNonEmpty(groups: seq<Metric>, m: Metric)
    requires NonEmpty(groups) && NonEmpty([m])
    ensures NonEmpty(AddTo(groups, m))
  {
    assert m in [m];
    if groups != [] {
      assert groups[0] in groups;
      if !SameKey(groups[0], m) {
        AddToNonEmpty(groups[1..], m);
      }
    }
  }

  lemma {:induction false} GroupByNonEmpty(ms: seq<Metric>)
    requires NonEmpty(ms)
    ensures NonEmpty(GroupBy(ms))
  {
    if ms != [] {
      GroupByNonEmpty(ms[..|ms| - 1]);
      assert ms[|ms| - 1] in ms;
      AddToNonEmpty(GroupBy(ms[..|ms| - 1]), ms[|ms| - 1]);
    }
  }

  lemma ViewsNonEmpty(block: seq<LogRow>)
    ensures NonEmpty(SecondsView(block)) && NonEmpty(MinutesView(SecondsView(block)))
  {
    hide FlatMap, GroupBy;
    var counts := SecondsView(block);
    forall m | m in FlatMap(AS_METRIC, block) ensures 1 <= m.logs && m.errors <= m.logs {
      InFlatMap(AS_METRIC, block, m);
    }
    GroupByNonEmpty(FlatMap(AS_METRIC, block));
    forall m | m in FlatMap(AS_MINUTE, counts) ensures 1 <= m.logs && m.errors <= m.logs {
      InFlatMap(AS_MINUTE, counts, m);
    }
    GroupByNonEmpty(FlatMap(AS_MINUTE, counts));
  }

  lemma MergeNonEmpty(table: seq<Metric>, i: nat, j: nat)
    requires NonEmpty(table) && Mergeable(table, i, j)
    ensures NonEmpty(Merge(table, i, j))
  {
    forall m | m in Merge(table, i, j) ensures 1 <= m.logs && m.errors <= m.logs {
      assert table[i] in table && table[j] in table;
      assert m in table || m == Plus(table[i], table[j]);
    }
  }

  /**
   Every row counts at least one log row, so a summing merge, which deletes rows whose sums are all zero, deletes
   none.
   */
  lemma {:induction false} NoRowIsDeleted(xs: seq<Input>, s: State)
    requires Reaches(xs, s)
    ensures NonEmpty(s.seconds) && NonEmpty(s.minutes)
  {
    if xs != [] {
      hide SecondsView, MinutesView, Merge, Mergeable;
      var n := |xs| - 1;
      var p :| Reaches(xs[..n], p) && Enabled(p, xs[n]) && s == Step(p, xs[n]);
      NoRowIsDeleted(xs[..n], p);
      match xs[n]
      case Insert(block) => ViewsNonEmpty(block);
      case MergeSeconds(i, j) => MergeNonEmpty(p.seconds, i, j);
      case MergeMinutes(i, j) => MergeNonEmpty(p.minutes, i, j);
    }
  }
}
