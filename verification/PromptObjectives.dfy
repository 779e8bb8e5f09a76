/** What the seven objectives are of the runs themselves: ratios of counts, a mean, and the rank of the median;
    and that making runs better never lowers the score. */
module PromptObjectives {
  import opened Basics
  import opened PromptBenchmark

  // ------------------------------------------------------------------- counting

  /** Where, from `k` on, the elements with the property are. */
  function Indices<T(!new)>(xs: seq<T>, p: T -> bool, k: nat): set<int> {
    set i | k <= i < |xs| && p(xs[i])
  }

  lemma IndicesFrom<T(!new)>(xs: seq<T>, p: T -> bool, k: nat)
    requires k < |xs|
    ensures |Indices(xs, p, k)| == (if p(xs[k]) then 1 else 0) + |Indices(xs, p, k + 1)|
    ensures xs[k..][0] == xs[k] && xs[k..][1..] == xs[k + 1..]
  {
    assert Indices(xs, p, k) == (if p(xs[k]) then {k} else {}) + Indices(xs, p, k + 1);
  }

  function Retried(): Run -> bool { (r: Run) => r.retries > 0 }
  function RetriedDone(): Run -> bool { (r: Run) => r.retries > 0 && r.completed }
  function Unsatisfied(): Run -> bool { (r: Run) => r.unsatisfied > 0 }
  function IsCounted(only: bool): ToolCall -> bool { (c: ToolCall) => !only || c.name in {"run_tests", "run_linter"} }
  function Succeeded(only: bool): ToolCall -> bool { (c: ToolCall) => (!only || c.name in {"run_tests", "run_linter"}) && c.success }

  lemma {:induction false} SumAppend(a: seq<real>, b: seq<real>)
    ensures Sum(a + b) == Sum(a) + Sum(b)
    decreases |a|
  {
    if a == [] {
      assert a + b == b;
    } else {
      assert (a + b)[1..] == a[1..] + b;
      SumAppend(a[1..], b);
    }
  }

  lemma SumFirst(x: real, xs: seq<real>)
    ensures Sum([x] + xs) == x + Sum(xs) && Sum([] + xs) == Sum(xs)
  {
    SumAppend([x], xs);
    assert [] + xs == xs;
  }

  lemma {:induction false} RetryCounts(runs: seq<Run>, k: nat)
    requires k <= |runs|
    ensures |RetryMarks(runs[k..])| == |Indices(runs, Retried(), k)|
    ensures Sum(RetryMarks(runs[k..])) == |Indices(runs, RetriedDone(), k)| as real
    decreases |runs| - k
  {
    if k == |runs| {
    } else {
      RetryCounts(runs, k + 1);
      IndicesFrom(runs, Retried(), k);
      IndicesFrom(runs, RetriedDone(), k);
      SumFirst(Mark(runs[k].completed), RetryMarks(runs[k + 1..]));
    }
  }

  lemma {:induction false} UnsatisfiedCounts(runs: seq<Run>, k: nat)
    requires k <= |runs|
    ensures |UnsatisfiedMarks(runs[k..])| == |runs| - k
    ensures Sum(UnsatisfiedMarks(runs[k..])) == |Indices(runs, Unsatisfied(), k)| as real
    decreases |runs| - k
  {
    if k == |runs| {
    } else {
      UnsatisfiedCounts(runs, k + 1);
      IndicesFrom(runs, Unsatisfied(), k);
      SumFirst(Mark(runs[k].unsatisfied > 0), UnsatisfiedMarks(runs[k + 1..]));
    }
  }

  lemma {:induction false} CallCounts(calls: seq<ToolCall>, only: bool, k: nat)
    requires k <= |calls|
    ensures |CallMarks(calls[k..], only)| == |Indices(calls, IsCounted(only), k)|
    ensures Sum(CallMarks(calls[k..], only)) == |Indices(calls, Succeeded(only), k)| as real
    decreases |calls| - k
  {
    if k == |calls| {
    } else {
      CallCounts(calls, only, k + 1);
      IndicesFrom(calls, IsCounted(only), k);
      IndicesFrom(calls, Succeeded(only), k);
      SumFirst(Mark(calls[k].success), CallMarks(calls[k + 1..], only));
    }
  }

  /** Where the calls with the property are, from run `k` on: the run, and the place in it. */
  function Places(runs: seq<Run>, p: ToolCall -> bool, k: nat): set<(int, int)> {
    set i, j | k <= i < |runs| && 0 <= j < |runs[i].calls| && p(runs[i].calls[j]) :: (i, j)
  }

  lemma PlacesFrom(runs: seq<Run>, p: ToolCall -> bool, k: nat)
    requires k < |runs|
    ensures |Places(runs, p, k)| == |Indices(runs[k].calls, p, 0)| + |Places(runs, p, k + 1)|
  {
    var row := set j | j in Indices(runs[k].calls, p, 0) :: (k as int, j);
    RowSize(Indices(runs[k].calls, p, 0), k, row);
    assert Places(runs, p, k) == row + Places(runs, p, k + 1);
  }

  lemma RowSize(js: set<int>, k: int, row: set<(int, int)>)
    requires row == set j | j in js :: (k, j)
    ensures |row| == |js|
  {
    var f := map j | j in js :: (k, j);
    forall j | j in js ensures f[j] in row { assert f[j] == (k, j); }
    InjectionSize(js, row, f);
    InjectionSize(row, js, map q | q in row :: q.1);
  }

  lemma {:induction false} CompileCounts(runs: seq<Run>, k: nat)
    requires k <= |runs|
    ensures |CompileMarks(runs[k..])| == |Places(runs, IsCounted(true), k)|
    ensures Sum(CompileMarks(runs[k..])) == |Places(runs, Succeeded(true), k)| as real
    decreases |runs| - k
  {
    if k == |runs| {
    } else {
      CompileCounts(runs, k + 1);
      assert runs[k..][1..] == runs[k + 1..] && runs[k].calls[0..] == runs[k].calls;
      CallCounts(runs[k].calls, true, 0);
      SumAppend(CallMarks(runs[k].calls, true), CompileMarks(runs[k + 1..]));
      PlacesFrom(runs, IsCounted(true), k);
      PlacesFrom(runs, Succeeded(true), k);
    }
  }

  function Share(n: nat, m: nat, none: real): real {
    if m == 0 then none else n as real / m as real
  }

  /** How many of these runs' calls are of the compile tools, and how many of those worked. */
  function CompileCalls(runs: seq<Run>): (nat, nat) {
    (|set i, j | 0 <= i < |runs| && 0 <= j < |runs[i].calls| && runs[i].calls[j].name in {"run_tests", "run_linter"} :: (i, j)|,
     |set i, j | 0 <= i < |runs| && 0 <= j < |runs[i].calls| && runs[i].calls[j].name in {"run_tests", "run_linter"}
                 && runs[i].calls[j].success :: (i, j)|)
  }

  /** The share of a run's calls that worked; none for a run without calls. */
  function Worked(r: Run): real {
    Share(|set j | 0 <= j < |r.calls| && r.calls[j].success|, |r.calls|, 0.0)
  }

  lemma RetryByCounts(runs: seq<Run>)
    ensures var retried := set i | 0 <= i < |runs| && runs[i].retries > 0;
            var done := set i | 0 <= i < |runs| && runs[i].retries > 0 && runs[i].completed;
            Mean(RetryMarks(runs), 1.0) == Share(|done|, |retried|, 1.0)
  {
    assert runs[0..] == runs;
    RetryCounts(runs, 0);
    assert Indices(runs, Retried(), 0) == set i | 0 <= i < |runs| && runs[i].retries > 0;
    assert Indices(runs, RetriedDone(), 0) == set i | 0 <= i < |runs| && runs[i].retries > 0 && runs[i].completed;
  }

  lemma UnsatisfiedByCounts(runs: seq<Run>)
    ensures var unsatisfied := set i | 0 <= i < |runs| && runs[i].unsatisfied > 0;
            Mean(UnsatisfiedMarks(runs), 0.0) == Share(|unsatisfied|, |runs|, 0.0)
  {
    assert runs[0..] == runs;
    UnsatisfiedCounts(runs, 0);
    assert Indices(runs, Unsatisfied(), 0) == set i | 0 <= i < |runs| && runs[i].unsatisfied > 0;
  }

  lemma CompileByCounts(runs: seq<Run>)
    ensures var (calls, worked) := CompileCalls(runs); Mean(CompileMarks(runs), 1.0) == Share(worked, calls, 1.0)
  {
    assert runs[0..] == runs;
    CompileCounts(runs, 0);
    assert Places(runs, IsCounted(true), 0)
        == set i, j | 0 <= i < |runs| && 0 <= j < |runs[i].calls| && runs[i].calls[j].name in {"run_tests", "run_linter"} :: (i, j);
    assert Places(runs, Succeeded(true), 0)
        == set i, j | 0 <= i < |runs| && 0 <= j < |runs[i].calls| && runs[i].calls[j].name in {"run_tests", "run_linter"}
                      && runs[i].calls[j].success :: (i, j);
  }

  lemma {:induction false} VerificationsAre(runs: seq<Run>)
    ensures Verifications(runs) == seq(|runs|, i requires 0 <= i < |runs| => runs[i].verification)
  {
    if runs == [] {
    } else {
      VerificationsAre(runs[1..]);
    }
  }

  lemma WorkedIsMean(r: Run)
    requires r.calls != []
    ensures Mean(CallMarks(r.calls, false), 1.0) == Worked(r)
  {
    assert r.calls[0..] == r.calls;
    CallCounts(r.calls, false, 0);
    AllIndices(r.calls, IsCounted(false), 0);
    assert Indices(r.calls, Succeeded(false), 0) == set j | 0 <= j < |r.calls| && r.calls[j].success;
  }

  lemma {:induction false} AllIndices<T(!new)>(xs: seq<T>, p: T -> bool, k: nat)
    requires k <= |xs| && forall x :: p(x)
    ensures |Indices(xs, p, k)| == |xs| - k
    decreases |xs| - k
  {
    if k == |xs| {
    } else {
      IndicesFrom(xs, p, k);
      AllIndices(xs, p, k + 1);
    }
  }

  function WithCalls(): Run -> bool { (r: Run) => r.calls != [] }

  function Shares(runs: seq<Run>): seq<real> {
    seq(|runs|, i requires 0 <= i < |runs| => Worked(runs[i]))
  }

  lemma {:induction false} AccuracyCounts(runs: seq<Run>, k: nat)
    requires k <= |runs|
    ensures |Accuracies(runs[k..])| == |Indices(runs, WithCalls(), k)|
    ensures Sum(Accuracies(runs[k..])) == Sum(Shares(runs)[k..])
    decreases |runs| - k
  {
    if k == |runs| {
    } else {
      AccuracyCounts(runs, k + 1);
      IndicesFrom(runs, WithCalls(), k);
      SumFirst(Worked(runs[k]), Accuracies(runs[k + 1..]));
      SumFirst(Worked(runs[k]), Shares(runs)[k + 1..]);
      assert Shares(runs)[k..] == [Worked(runs[k])] + Shares(runs)[k + 1..];
      if runs[k].calls != [] { WorkedIsMean(runs[k]); }
    }
  }

  lemma AccuracyByCounts(recent: seq<Run>)
    ensures var withCalls := set i | 0 <= i < |recent| && recent[i].calls != [];
            ToolAccuracy(recent) ==
              if withCalls == {} then 1.0
              else Sum(seq(|recent|, i requires 0 <= i < |recent| => Worked(recent[i]))) / |withCalls| as real
  {
    assert recent[0..] == recent && Shares(recent)[0..] == Shares(recent);
    AccuracyCounts(recent, 0);
    assert Indices(recent, WithCalls(), 0) == set i | 0 <= i < |recent| && recent[i].calls != [];
  }

  /** The weighted sum of the objectives; the last one is a rate of failures. */
  function Weigh(s: Settings, latency: real, accuracy: real, verified: real, retry: real, compile: real, unsatisfied: real): real {
    Times(s.latency, latency) + Times(s.toolAccuracy, accuracy) + Times(s.verification, verified) + Times(s.retry, retry)
    + Times(s.compile, compile) + Times(s.hallucination, 1.0 - unsatisfied)
  }

  function Times(weight: real, objective: real): real { weight * objective }

  lemma CompositeWeighs(s: Settings, runs: seq<Run>, recent: seq<Run>)
    ensures Composite(s, runs, recent) ==
            Weigh(s, LatencyScore(s, Median(recent)), ToolAccuracy(recent), Mean(Verifications(runs), 1.0),
                  Mean(RetryMarks(runs), 1.0), Mean(CompileMarks(runs), 1.0), Mean(UnsatisfiedMarks(runs), 0.0))
  {
    hide Mean, Median, LatencyScore, ToolAccuracy;
  }

  /** The score by counts over the runs handed in, and over the recent ones. */
  lemma CompositeByCounts(s: Settings, runs: seq<Run>, recent: seq<Run>)
    ensures var retried := set i | 0 <= i < |runs| && runs[i].retries > 0;
            var done := set i | 0 <= i < |runs| && runs[i].retries > 0 && runs[i].completed;
            var unsatisfied := set i | 0 <= i < |runs| && runs[i].unsatisfied > 0;
            var (compiles, compiled) := CompileCalls(runs);
            var verified := Sum(seq(|runs|, i requires 0 <= i < |runs| => runs[i].verification));
            var withCalls := set i | 0 <= i < |recent| && recent[i].calls != [];
            var worked := Sum(seq(|recent|, i requires 0 <= i < |recent| => Worked(recent[i])));
            Composite(s, runs, recent) ==
              Weigh(s, LatencyScore(s, Median(recent)),
                    if withCalls == {} then 1.0 else worked / |withCalls| as real,
                    if runs == [] then 1.0 else verified / |runs| as real,
                    Share(|done|, |retried|, 1.0),
                    Share(compiled, compiles, 1.0),
                    Share(|unsatisfied|, |runs|, 0.0))
  {
    CompositeWeighs(s, runs, recent);
    hide Composite, Weigh, Share, ToolAccuracy, LatencyScore, Median, Sum;
    RetryByCounts(runs);
    UnsatisfiedByCounts(runs);
    CompileByCounts(runs);
    VerificationsAre(runs);
    AccuracyByCounts(recent);
  }

  // ------------------------------------------------------------ latency: rank and score

  /** How many are below `m`, or at most `m`. */
  function Below(xs: seq<real>, m: real, orAt: bool): nat {
    if xs == [] then 0 else (if xs[0] < m || (orAt && xs[0] == m) then 1 else 0) + Below(xs[1..], m, orAt)
  }

  lemma {:induction false} BelowOfInsert(x: real, xs: seq<real>, m: real, orAt: bool)
    ensures Below(Insert(x, xs), m, orAt) == Below([x], m, orAt) + Below(xs, m, orAt)
  {
    assert [x][1..] == [];
    if xs == [] || x <= xs[0] {
      assert ([x] + xs)[1..] == xs;
    } else {
      BelowOfInsert(x, xs[1..], m, orAt);
      assert ([xs[0]] + Insert(x, xs[1..]))[1..] == Insert(x, xs[1..]);
    }
  }

  lemma {:induction false} BelowOfSort(xs: seq<real>, m: real, orAt: bool)
    ensures Below(Sort(xs), m, orAt) == Below(xs, m, orAt)
  {
    if xs == [] {
    } else {
      BelowOfSort(xs[1..], m, orAt);
      BelowOfInsert(xs[0], Sort(xs[1..]), m, orAt);
      assert [xs[0]][1..] == [];
    }
  }

  lemma {:induction false} NoneBelow(xs: seq<real>, m: real)
    requires forall i :: 0 <= i < |xs| ==> m <= xs[i]
    ensures Below(xs, m, false) == 0
  {
    if xs == [] {
    } else {
      NoneBelow(xs[1..], m);
    }
  }

  lemma {:induction false} RankOfSorted(xs: seq<real>, k: nat)
    requires Sorted(xs) && k < |xs|
    ensures Below(xs, xs[k], false) <= k < Below(xs, xs[k], true)
  {
    if k == 0 {
      NoneBelow(xs, xs[0]);
    } else {
      RankOfSorted(xs[1..], k - 1);
    }
  }

  function Positive(): Run -> bool { (r: Run) => r.latency > 0.0 }

  function PositiveBelow(m: real, orAt: bool): Run -> bool {
    (r: Run) => r.latency > 0.0 && (r.latency < m || (orAt && r.latency == m))
  }

  lemma {:induction false} LatencyCounts(runs: seq<Run>, m: real, orAt: bool, k: nat)
    requires k <= |runs|
    ensures |Latencies(runs[k..])| == |Indices(runs, Positive(), k)|
    ensures Below(Latencies(runs[k..]), m, orAt) == |Indices(runs, PositiveBelow(m, orAt), k)|
    decreases |runs| - k
  {
    if k == |runs| {
    } else {
      var rest := Latencies(runs[k + 1..]);
      LatencyCounts(runs, m, orAt, k + 1);
      IndicesFrom(runs, Positive(), k);
      IndicesFrom(runs, PositiveBelow(m, orAt), k);
      assert ([runs[k].latency] + rest)[1..] == rest && [] + rest == rest;
    }
  }

  /** The median by its rank: no more than half of the runs with a positive latency are faster, and more than
      half are no slower. */
  lemma MedianRank(recent: seq<Run>)
    ensures var measured := set i | 0 <= i < |recent| && recent[i].latency > 0.0;
            && (Median(recent).None? <==> measured == {})
            && (Median(recent).Some? ==>
                  var m := Median(recent).value;
                  var faster := set i | 0 <= i < |recent| && 0.0 < recent[i].latency < m;
                  var noSlower := set i | 0 <= i < |recent| && 0.0 < recent[i].latency <= m;
                  |faster| <= |measured| / 2 < |noSlower|)
  {
    var xs := Latencies(recent);
    var m := if xs == [] then 0.0 else Median(recent).value;
    SortMeaning(xs);
    assert recent[0..] == recent;
    LatencyCounts(recent, m, false, 0);
    LatencyCounts(recent, m, true, 0);
    assert Indices(recent, Positive(), 0) == set i | 0 <= i < |recent| && recent[i].latency > 0.0;
    if xs != [] {
      RankOfSorted(Sort(xs), |xs| / 2);
      BelowOfSort(xs, m, false);
      BelowOfSort(xs, m, true);
      assert Indices(recent, PositiveBelow(m, false), 0) == set i | 0 <= i < |recent| && 0.0 < recent[i].latency < m;
      assert Indices(recent, PositiveBelow(m, true), 0) == set i | 0 <= i < |recent| && 0.0 < recent[i].latency <= m;
    }
  }

  /** Perfect up to the target, nothing from twice the target on, and falling evenly in between. */
  lemma LatencyScoreMeaning(s: Settings, median: Option<real>)
    requires s.latencyTarget > 0.0
    ensures var score := LatencyScore(s, median);
            && 0.0 <= score <= 1.0
            && (score == 1.0 <==> median.None? || median.value <= s.latencyTarget)
            && (score == 0.0 <==> median.Some? && median.value >= 2.0 * s.latencyTarget)
            && (0.0 < score < 1.0 ==> median.Some? && score * s.latencyTarget == 2.0 * s.latencyTarget - median.value)
  {
    if median.Some? && s.latencyTarget < median.value < 2.0 * s.latencyTarget {
      PartOf(median.value - s.latencyTarget, s.latencyTarget);
    }
  }

  /** With the shipped target: perfect up to half a minute, nothing from a minute on. */
  lemma ShippedLatency(median: real)
    ensures LatencyScore(DEFAULTS, Some(median)) == 1.0 <==> median <= 30000.0
    ensures LatencyScore(DEFAULTS, Some(median)) == 0.0 <==> median >= 60000.0
  {
    LatencyScoreMeaning(DEFAULTS, Some(median));
  }

  /** The gate looks at the last 20 runs of an agent, whatever came before them. */
  lemma GateSeesTwenty(s: Settings, baseline: Option<Baseline>, older: seq<Run>, recent: seq<Run>)
    requires |recent| == 20
    ensures GateBlocked(s, baseline, older + recent) <==> IsRegression(s, baseline, recent, recent)
  {
    hide IsRegression;
    assert Last(older + recent, 20) == recent;
  }

  lemma PartOf(x: real, n: real)
    requires 0.0 < x < n
    ensures 0.0 < x / n < 1.0 && x / n * n == x
  {
    assert (n - x) / n > 0.0;
    assert x / n + (n - x) / n == 1.0;
  }

  /** A regression: a baseline from enough runs, or from an unknown number of them, enough runs to compare with it, and a
      score that is lower by more than the tolerated part of it; a baseline of nothing is never undercut. */
  lemma RegressionExactly(s: Settings, baseline: Option<Baseline>, runs: seq<Run>, recent: seq<Run>)
    requires s.threshold >= 0.0
    ensures IsRegression(s, baseline, runs, recent) <==>
            && baseline.Some? && baseline.value.score > 0.0
            && |runs| >= s.minSamples && (baseline.value.samples == None || baseline.value.samples.value >= s.minSamples)
            && Composite(s, runs, recent) < (1.0 - s.threshold) * baseline.value.score
  {
    hide Composite;
    if baseline.Some? && baseline.value.score > 0.0 {
      DropExceeds(Composite(s, runs, recent), baseline.value.score, s.threshold);
    }
  }

  lemma DropExceeds(score: real, baseline: real, part: real)
    requires baseline > 0.0
    ensures Drop(score, baseline) > part <==> score < (1.0 - part) * baseline
  {
    var drop := (baseline - score) / baseline;
    assert drop * baseline == baseline - score;
    if drop > part { Larger(part, drop, baseline); }
    if drop <= part { Weighted(baseline, drop, part); }
  }

  lemma Larger(x: real, y: real, n: real)
    requires x < y && n > 0.0
    ensures x * n < y * n
  {
    assert (y - x) * n > 0.0;
  }

  // ------------------------------------------------------------- better runs score no lower

  /** `b` is `a` or better in every respect that the score reads. */
  ghost predicate Better(a: Run, b: Run) {
    && (a.latency > 0.0 <==> b.latency > 0.0) && b.latency <= a.latency
    && BetterCalls(a.calls, b.calls) && a.verification <= b.verification
    && (a.retries > 0 <==> b.retries > 0) && (a.completed ==> b.completed) && (b.unsatisfied > 0 ==> a.unsatisfied > 0)
  }

  ghost predicate BetterCalls(a: seq<ToolCall>, b: seq<ToolCall>) {
    |a| == |b| && forall i :: 0 <= i < |a| ==> b[i].name == a[i].name && (a[i].success ==> b[i].success)
  }

  ghost predicate BetterRuns(a: seq<Run>, b: seq<Run>) {
    |a| == |b| && forall i :: 0 <= i < |a| ==> Better(a[i], b[i])
  }

  ghost predicate NoGreater(xs: seq<real>, ys: seq<real>) {
    |xs| == |ys| && forall i :: 0 <= i < |xs| ==> xs[i] <= ys[i]
  }

  lemma {:induction false} SumsFollow(xs: seq<real>, ys: seq<real>)
    requires NoGreater(xs, ys)
    ensures Sum(xs) <= Sum(ys)
  {
    if xs == [] {
    } else {
      SumsFollow(xs[1..], ys[1..]);
    }
  }

  lemma MeansFollow(xs: seq<real>, ys: seq<real>, none: real)
    requires NoGreater(xs, ys)
    ensures Mean(xs, none) <= Mean(ys, none)
  {
    SumsFollow(xs, ys);
    if xs != [] { Quotients(Sum(xs), Sum(ys), |xs| as real); }
  }

  lemma Quotients(x: real, y: real, n: real)
    requires x <= y && n > 0.0
    ensures x / n <= y / n
  {
    assert (y - x) / n >= 0.0;
    assert y / n == x / n + (y - x) / n;
  }

  lemma {:induction false} BetterCallMarks(a: seq<ToolCall>, b: seq<ToolCall>, only: bool)
    requires BetterCalls(a, b)
    ensures NoGreater(CallMarks(a, only), CallMarks(b, only))
  {
    if a == [] {
    } else {
      BetterCallMarks(a[1..], b[1..], only);
    }
  }

  lemma {:induction false} BetterMarks(a: seq<Run>, b: seq<Run>)
    requires BetterRuns(a, b)
    ensures NoGreater(Verifications(a), Verifications(b)) && NoGreater(RetryMarks(a), RetryMarks(b))
    ensures NoGreater(CompileMarks(a), CompileMarks(b)) && NoGreater(UnsatisfiedMarks(b), UnsatisfiedMarks(a))
  {
    if a == [] {
    } else {
      assert Better(a[0], b[0]);
      BetterMarks(a[1..], b[1..]);
      BetterCallMarks(a[0].calls, b[0].calls, true);
    }
  }

  lemma {:induction false} BetterAccuracies(a: seq<Run>, b: seq<Run>)
    requires BetterRuns(a, b)
    ensures NoGreater(Accuracies(a), Accuracies(b))
  {
    hide Mean, CallMarks;
    if a == [] {
    } else {
      assert Better(a[0], b[0]);
      BetterAccuracies(a[1..], b[1..]);
      BetterCallMarks(a[0].calls, b[0].calls, false);
      MeansFollow(CallMarks(a[0].calls, false), CallMarks(b[0].calls, false), 1.0);
    }
  }

  lemma {:induction false} BetterLatencies(a: seq<Run>, b: seq<Run>)
    requires BetterRuns(a, b)
    ensures NoGreater(Latencies(b), Latencies(a))
  {
    if a == [] {
    } else {
      assert Better(a[0], b[0]);
      BetterLatencies(a[1..], b[1..]);
    }
  }

  lemma {:induction false} BelowFollows(xs: seq<real>, ys: seq<real>, m: real, n: real)
    requires NoGreater(ys, xs) && m < n
    ensures Below(xs, m, true) <= Below(ys, n, false)
  {
    if xs == [] {
    } else {
      BelowFollows(xs[1..], ys[1..], m, n);
    }
  }

  /** Smaller elements have a smaller median, by its rank. */
  lemma MediansFollow(xs: seq<real>, ys: seq<real>)
    requires NoGreater(ys, xs) && xs != []
    ensures |Sort(xs)| == |Sort(ys)| == |xs| && Sort(ys)[|xs| / 2] <= Sort(xs)[|xs| / 2]
  {
    var k := |xs| / 2;
    SortMeaning(xs);
    SortMeaning(ys);
    var m, n := Sort(xs)[k], Sort(ys)[k];
    if m < n {
      RankOfSorted(Sort(xs), k);
      RankOfSorted(Sort(ys), k);
      BelowOfSort(xs, m, true);
      BelowOfSort(ys, n, false);
      BelowFollows(xs, ys, m, n);
      assert false;
    }
  }

  lemma BetterMedian(a: seq<Run>, b: seq<Run>)
    requires BetterRuns(a, b)
    ensures Median(a).None? <==> Median(b).None?
    ensures Median(a).Some? ==> Median(b).value <= Median(a).value
  {
    BetterLatencies(a, b);
    if Latencies(a) != [] { MediansFollow(Latencies(a), Latencies(b)); }
  }

  lemma FasterScoresNoLower(s: Settings, a: Option<real>, b: Option<real>)
    requires (a.None? <==> b.None?) && (a.Some? ==> 0.0 < b.value <= a.value)
    ensures LatencyScore(s, a) <= LatencyScore(s, b)
  {
    if a.Some? && s.latencyTarget < b.value && a.value < 2.0 * s.latencyTarget {
      Quotients(b.value - s.latencyTarget, a.value - s.latencyTarget, s.latencyTarget);
    } else if a.Some? && s.latencyTarget < a.value < 2.0 * s.latencyTarget {
      Quotients(0.0, a.value - s.latencyTarget, s.latencyTarget);
    } else if a.Some? && s.latencyTarget < b.value < 2.0 * s.latencyTarget {
      Quotients(b.value - s.latencyTarget, s.latencyTarget, s.latencyTarget);
    }
  }

  ghost predicate WeightsValid(s: Settings) {
    && s.latency >= 0.0 && s.toolAccuracy >= 0.0 && s.verification >= 0.0
    && s.retry >= 0.0 && s.compile >= 0.0 && s.hallucination >= 0.0
  }

  lemma Weighted(w: real, x: real, y: real)
    requires w >= 0.0 && x <= y
    ensures w * x <= w * y
  {
    assert w * (y - x) >= 0.0;
  }

  lemma TimesFollows(w: real, x: real, y: real)
    requires w >= 0.0 && x <= y
    ensures Times(w, x) <= Times(w, y)
  {
    Weighted(w, x, y);
  }

  lemma ScoresFollow(s: Settings, a: seq<Run>, b: seq<Run>, recent: seq<Run>, after: seq<Run>)
    requires WeightsValid(s) && BetterRuns(a, b) && BetterRuns(recent, after)
    ensures Composite(s, a, recent) <= Composite(s, b, after)
  {
    BetterMarks(a, b);
    BetterAccuracies(recent, after);
    BetterMedian(recent, after);
    LatenciesArePositive(after);
    MedianMeaning(after);
    FasterScoresNoLower(s, Median(recent), Median(after));
    MeansFollow(Accuracies(recent), Accuracies(after), 1.0);
    MeansFollow(Verifications(a), Verifications(b), 1.0);
    MeansFollow(RetryMarks(a), RetryMarks(b), 1.0);
    MeansFollow(CompileMarks(a), CompileMarks(b), 1.0);
    MeansFollow(UnsatisfiedMarks(b), UnsatisfiedMarks(a), 0.0);
    CompositeWeighs(s, a, recent);
    CompositeWeighs(s, b, after);
    hide Composite, ToolAccuracy, LatencyScore, Median, Mean;
    WeighFollows(s, LatencyScore(s, Median(recent)), ToolAccuracy(recent), Mean(Verifications(a), 1.0),
                 Mean(RetryMarks(a), 1.0), Mean(CompileMarks(a), 1.0), Mean(UnsatisfiedMarks(a), 0.0),
                 LatencyScore(s, Median(after)), ToolAccuracy(after), Mean(Verifications(b), 1.0),
                 Mean(RetryMarks(b), 1.0), Mean(CompileMarks(b), 1.0), Mean(UnsatisfiedMarks(b), 0.0));
  }

  lemma WeighFollows(s: Settings, l: real, t: real, v: real, r: real, c: real, h: real,
                     l': real, t': real, v': real, r': real, c': real, h': real)
    requires WeightsValid(s) && l <= l' && t <= t' && v <= v' && r <= r' && c <= c' && h' <= h
    ensures Weigh(s, l, t, v, r, c, h) <= Weigh(s, l', t', v', r', c', h')
  {
    hide Times;
    TimesFollows(s.latency, l, l');
    TimesFollows(s.toolAccuracy, t, t');
    TimesFollows(s.verification, v, v');
    TimesFollows(s.retry, r, r');
    TimesFollows(s.compile, c, c');
    TimesFollows(s.hallucination, 1.0 - h, 1.0 - h');
  }

  lemma DropsFollow(a: real, b: real, baseline: real)
    requires a <= b
    ensures Drop(b, baseline) <= Drop(a, baseline)
  {
    if baseline > 0.0 { Quotients(baseline - b, baseline - a, baseline); }
  }

  /** Runs that are better in any respect never score lower, and never turn a verdict into a regression:
      a retried run that is completed, a call that works, a faster run, more of it verified, or nothing left
      unsatisfied. */
  lemma BetterRunsScoreNoLower(s: Settings, baseline: Option<Baseline>, a: seq<Run>, b: seq<Run>, recent: seq<Run>, after: seq<Run>)
    requires WeightsValid(s) && BetterRuns(a, b) && BetterRuns(recent, after)
    ensures Composite(s, a, recent) <= Composite(s, b, after)
    ensures IsRegression(s, baseline, b, after) ==> IsRegression(s, baseline, a, recent)
  {
    ScoresFollow(s, a, b, recent, after);
    hide Composite;
    if baseline.Some? { DropsFollow(Composite(s, a, recent), Composite(s, b, after), baseline.value.score); }
  }
}
