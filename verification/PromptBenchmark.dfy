/** The score by which a prompt is judged: seven objectives of an agent's runs, their weighted sum, and
    the comparison with a stored baseline.  Numbers are exact here.

    Most objectives are of the runs that are handed in; the median latency and the mean tool accuracy are
    of the agent's own last runs, whatever is handed in.
 */
module PromptBenchmark {
  import opened Basics

  datatype ToolCall = ToolCall(name: string, success: bool)

  /** A run of an agent; `started` is absent when its start time cannot be read. */
  datatype Run = Run(
    started: Option<int>, latency: real, calls: seq<ToolCall>, verification: real,
    retries: nat, completed: bool, unsatisfied: nat)

  /** The configured weights, the latency that counts as perfect, the drop that counts as a regression, and
      the least number of runs for a verdict. */
  datatype Settings = Settings(
    latencyTarget: real, latency: real, toolAccuracy: real, verification: real, retry: real,
    compile: real, hallucination: real, threshold: real, minSamples: nat)
  {
    predicate Valid() { minSamples >= 1 }
  }

  /** The values that the application ships with. */
  const DEFAULTS := Settings(30000.0, 0.15, 0.20, 0.20, 0.15, 0.15, 0.15, 0.10, 5)

  /** A stored result; older ones do not say how many runs they are from. */
  datatype Baseline = Baseline(score: real, samples: Option<nat>)

  const COMPILE_TOOLS := {"run_tests", "run_linter"}

  // ------------------------------------------------------------------ the objectives

  function Sum(xs: seq<real>): real {
    if xs == [] then 0.0 else xs[0] + Sum(xs[1..])
  }

  function Mean(xs: seq<real>, none: real): real {
    if xs == [] then none else Sum(xs) / |xs| as real
  }

  function Mark(b: bool): real {
    if b then 1.0 else 0.0
  }

  /** The successes among these calls; of `only` the compile tools, or all. */
  function CallMarks(calls: seq<ToolCall>, only: bool): seq<real> {
    if calls == [] then []
    else (if only && calls[0].name !in COMPILE_TOOLS then [] else [Mark(calls[0].success)]) + CallMarks(calls[1..], only)
  }

  function Accuracies(runs: seq<Run>): seq<real> {
    if runs == [] then []
    else (if runs[0].calls == [] then [] else [Mean(CallMarks(runs[0].calls, false), 1.0)]) + Accuracies(runs[1..])
  }

  function ToolAccuracy(recent: seq<Run>): real {
    Mean(Accuracies(recent), 1.0)
  }

  function Latencies(runs: seq<Run>): seq<real> {
    if runs == [] then [] else (if runs[0].latency > 0.0 then [runs[0].latency] else []) + Latencies(runs[1..])
  }

  function Insert(x: real, xs: seq<real>): seq<real> {
    if xs == [] || x <= xs[0] then [x] + xs else [xs[0]] + Insert(x, xs[1..])
  }

  function Sort(xs: seq<real>): seq<real> {
    if xs == [] then [] else Insert(xs[0], Sort(xs[1..]))
  }

  ghost predicate Sorted(xs: seq<real>) {
    forall i, j :: 0 <= i < j < |xs| ==> xs[i] <= xs[j]
  }

  lemma {:induction false} InsertKeepsElements(x: real, xs: seq<real>)
    ensures multiset(Insert(x, xs)) == multiset(xs) + multiset{x} && |Insert(x, xs)| == |xs| + 1
    ensures forall y :: y in Insert(x, xs) <==> y == x || y in xs
  {
    if xs == [] || x <= xs[0] {
    } else {
      InsertKeepsElements(x, xs[1..]);
      assert xs == [xs[0]] + xs[1..];
    }
  }

  lemma {:induction false} InsertKeepsOrder(x: real, xs: seq<real>)
    requires Sorted(xs)
    ensures Sorted(Insert(x, xs))
  {
    if xs == [] || x <= xs[0] {
    } else {
      InsertKeepsOrder(x, xs[1..]);
      InsertKeepsElements(x, xs[1..]);
      var rest := Insert(x, xs[1..]);
      assert forall y :: y in rest ==> xs[0] <= y;
      assert forall i :: 0 <= i < |rest| ==> rest[i] in rest;
    }
  }

  lemma {:induction false} SortMeaning(xs: seq<real>)
    ensures multiset(Sort(xs)) == multiset(xs) && |Sort(xs)| == |xs| && Sorted(Sort(xs))
  {
    if xs == [] {
    } else {
      SortMeaning(xs[1..]);
      InsertKeepsElements(xs[0], Sort(xs[1..]));
      InsertKeepsOrder(xs[0], Sort(xs[1..]));
      assert xs == [xs[0]] + xs[1..];
    }
  }

  /** The middle of the sorted positive latencies, the upper one of two. */
  function Median(recent: seq<Run>): Option<real> {
    var xs := Latencies(recent);
    SortMeaning(xs);
    if xs == [] then None else Some(Sort(xs)[|xs| / 2])
  }

  lemma MedianMeaning(recent: seq<Run>)
    ensures Median(recent).None? <==> Latencies(recent) == []
    ensures Median(recent).Some? ==> Median(recent).value in Latencies(recent)
  {
    var xs := Latencies(recent);
    SortMeaning(xs);
    if xs != [] { assert Sort(xs)[|xs| / 2] in multiset(Sort(xs)); }
  }

  function LatencyScore(s: Settings, median: Option<real>): real {
    if median.None? || median.value <= s.latencyTarget then 1.0
    else if median.value >= 2.0 * s.latencyTarget then 0.0
    else 1.0 - (median.value - s.latencyTarget) / s.latencyTarget
  }

  function Verifications(runs: seq<Run>): seq<real> {
    if runs == [] then [] else [runs[0].verification] + Verifications(runs[1..])
  }

  /** Which of the retried runs were completed. */
  function RetryMarks(runs: seq<Run>): seq<real> {
    if runs == [] then [] else (if runs[0].retries > 0 then [Mark(runs[0].completed)] else []) + RetryMarks(runs[1..])
  }

  function CompileMarks(runs: seq<Run>): seq<real> {
    if runs == [] then [] else CallMarks(runs[0].calls, true) + CompileMarks(runs[1..])
  }

  function UnsatisfiedMarks(runs: seq<Run>): seq<real> {
    if runs == [] then [] else [Mark(runs[0].unsatisfied > 0)] + UnsatisfiedMarks(runs[1..])
  }

  /** benchmark_score of the runs handed in, when `recent` are the agent's last runs. */
  function Composite(s: Settings, runs: seq<Run>, recent: seq<Run>): real {
    s.latency * LatencyScore(s, Median(recent)) + s.toolAccuracy * ToolAccuracy(recent)
    + s.verification * Mean(Verifications(runs), 1.0) + s.retry * Mean(RetryMarks(runs), 1.0)
    + s.compile * Mean(CompileMarks(runs), 1.0) + s.hallucination * (1.0 - Mean(UnsatisfiedMarks(runs), 0.0))
  }

  // ------------------------------------------------------------------- the verdict

  predicate EnoughSamples(s: Settings, samples: Option<nat>) {
    samples.Some? ==> samples.value >= s.minSamples
  }

  function Drop(score: real, baseline: real): real {
    if baseline > 0.0 then (baseline - score) / baseline else 0.0
  }

  predicate IsRegression(s: Settings, baseline: Option<Baseline>, runs: seq<Run>, recent: seq<Run>) {
    && baseline.Some? && EnoughSamples(s, Some(|runs|)) && EnoughSamples(s, baseline.value.samples)
    && Drop(Composite(s, runs, recent), baseline.value.score) > s.threshold
  }

  /** The last `n` of a sequence. */
  function Last<T>(xs: seq<T>, n: nat): seq<T> {
    if |xs| <= n then xs else xs[|xs| - n..]
  }

  /** The gate of the fleet check: the agent's last 20 runs against its baseline; `ring` has them, oldest first. */
  predicate GateBlocked(s: Settings, baseline: Option<Baseline>, ring: seq<Run>) {
    IsRegression(s, baseline, Last(ring, 20), Last(ring, 20))
  }

  predicate IsNew(r: Run, since: int) {
    r.started.Some? && since <= r.started.value
  }

  function NewRuns(runs: seq<Run>, since: int): seq<Run> {
    if runs == [] then []
    else (if IsNew(runs[0], since) then [runs[0]] else []) + NewRuns(runs[1..], since)
  }

  /** The runs of the deployed prompt that the verdict looks at. */
  function JudgedRuns(ring: seq<Run>, since: int): seq<Run> {
    NewRuns(Last(ring, 200), since)
  }

  /** _regressed_under_deployed_prompt */
  predicate Regressed(s: Settings, baseline: Option<Baseline>, ring: seq<Run>, deployedAt: Option<int>) {
    deployedAt.Some? && IsRegression(s, baseline, JudgedRuns(ring, deployedAt.value), Last(ring, 20))
  }

  method RegressedUnderDeployed(s: Settings, baseline: Option<Baseline>, ring: seq<Run>, deployedAt: Option<int>)
    returns (regressed: bool)
    ensures regressed == Regressed(s, baseline, ring, deployedAt)
  {
    if deployedAt.None? { return false; }
    var runs := CollectNew(Last(ring, 200), deployedAt.value);
    return IsRegression(s, baseline, runs, Last(ring, 20));
  }

  method CollectNew(window: seq<Run>, since: int) returns (runs: seq<Run>)
    ensures runs == NewRuns(window, since)
  {
    runs := [];
    for i := 0 to |window|
      invariant runs == NewRuns(window[..i], since)
    {
      assert window[..i + 1] == window[..i] + [window[i]];
      NewRunsAppend(window[..i], [window[i]], since);
      if window[i].started.Some? && window[i].started.value >= since {
        runs := runs + [window[i]];
      }
    }
    assert window[..|window|] == window;
  }

  lemma {:induction false} NewRunsAppend(a: seq<Run>, b: seq<Run>, since: int)
    ensures NewRuns(a + b, since) == NewRuns(a, since) + NewRuns(b, since)
    decreases |a|
  {
    if a == [] {
      assert a + b == b;
    } else {
      assert (a + b)[0] == a[0] && (a + b)[1..] == a[1..] + b;
      NewRunsAppend(a[1..], b, since);
      var head := if IsNew(a[0], since) then [a[0]] else [];
      assert head + (NewRuns(a[1..], since) + NewRuns(b, since)) == head + NewRuns(a[1..], since) + NewRuns(b, since);
    }
  }

  lemma {:induction false} NewRunsMeaning(runs: seq<Run>, since: int)
    ensures forall r :: r in NewRuns(runs, since) <==> r in runs && IsNew(r, since)
    ensures (forall i :: 0 <= i < |runs| ==> IsNew(runs[i], since)) ==> NewRuns(runs, since) == runs
    ensures |NewRuns(runs, since)| <= |runs|
    decreases |runs|
  {
    if runs == [] {
    } else {
      NewRunsMeaning(runs[1..], since);
      assert runs == [runs[0]] + runs[1..];
    }
  }

  // ------------------------------------------ the verdict on the deployed prompt's runs alone

  /** The verdict as it would be on the runs of the deployed prompt alone. */
  predicate RegressedOnNew(s: Settings, baseline: Option<Baseline>, ring: seq<Run>, deployedAt: Option<int>) {
    deployedAt.Some? &&
    var runs := JudgedRuns(ring, deployedAt.value);
    IsRegression(s, baseline, runs, Last(runs, 20))
  }

  ghost predicate VerdictsDiffer(s: Settings, baseline: Option<Baseline>, ring: seq<Run>, since: int) {
    Regressed(s, baseline, ring, Some(since)) != RegressedOnNew(s, baseline, ring, Some(since))
  }

  ghost predicate SomeVerdictsDiffer(ring: seq<Run>, since: int) {
    exists s: Settings, baseline :: s.Valid() && VerdictsDiffer(s, baseline, ring, since)
  }

  lemma {:induction false} SumBounds(xs: seq<real>)
    requires forall i :: 0 <= i < |xs| ==> 0.0 <= xs[i]
    ensures 0.0 <= Sum(xs)
  {
    if xs == [] {
    } else {
      SumBounds(xs[1..]);
    }
  }

  lemma MeanBounds(xs: seq<real>)
    requires forall i :: 0 <= i < |xs| ==> 0.0 <= xs[i]
    ensures 0.0 <= Mean(xs, 1.0)
  {
    SumBounds(xs);
  }

  lemma {:induction false} CallMarksBounds(calls: seq<ToolCall>, only: bool)
    ensures forall i :: 0 <= i < |CallMarks(calls, only)| ==> 0.0 <= CallMarks(calls, only)[i]
  {
    if calls == [] {
    } else {
      CallMarksBounds(calls[1..], only);
    }
  }

  lemma {:induction false} AccuraciesBounds(runs: seq<Run>)
    ensures forall i :: 0 <= i < |Accuracies(runs)| ==> 0.0 <= Accuracies(runs)[i]
  {
    if runs == [] {
    } else {
      AccuraciesBounds(runs[1..]);
      CallMarksBounds(runs[0].calls, false);
      MeanBounds(CallMarks(runs[0].calls, false));
    }
  }

  lemma AccuracyBounds(runs: seq<Run>)
    ensures 0.0 <= ToolAccuracy(runs)
  {
    AccuraciesBounds(runs);
    MeanBounds(Accuracies(runs));
  }

  lemma {:induction false} LatenciesArePositive(runs: seq<Run>)
    ensures forall i :: 0 <= i < |Latencies(runs)| ==> Latencies(runs)[i] > 0.0
  {
    if runs == [] {
    } else {
      LatenciesArePositive(runs[1..]);
    }
  }

  /** Measures one of the two objectives alone, with no tolerance. */
  function Only(latency: real, toolAccuracy: real, target: real): Settings {
    Settings(target, latency, toolAccuracy, 0.0, 0.0, 0.0, 0.0, 0.0, 1)
  }

  lemma OnlyAccuracy(runs: seq<Run>, recent: seq<Run>)
    ensures Composite(Only(0.0, 1.0, 1.0), runs, recent) == ToolAccuracy(recent)
  {
  }

  lemma OnlyLatency(runs: seq<Run>, recent: seq<Run>, target: real)
    ensures Composite(Only(1.0, 0.0, target), runs, recent) == LatencyScore(Only(1.0, 0.0, target), Median(recent))
  {
  }

  lemma DropSign(score: real, baseline: real)
    requires baseline > 0.0
    ensures Drop(score, baseline) > 0.0 <==> score < baseline
  {
    if score < baseline { assert (baseline - score) / baseline > 0.0; }
  }

  /** Two different scores are told apart by the greater one as baseline. */
  lemma ScoresTellApart(s: Settings, ring: seq<Run>, since: int, a: real, b: real)
    requires s.Valid() && s.minSamples == 1 && s.threshold == 0.0 && JudgedRuns(ring, since) != [] && a != b && (a > 0.0 || b > 0.0)
    requires a == Composite(s, JudgedRuns(ring, since), Last(ring, 20))
    requires b == Composite(s, JudgedRuns(ring, since), Last(JudgedRuns(ring, since), 20))
    ensures SomeVerdictsDiffer(ring, since)
  {
    var greater := if a < b then b else a;
    DropSign(a, greater);
    DropSign(b, greater);
    assert VerdictsDiffer(s, Some(Baseline(greater, None)), ring, since);
  }

  /** A target latency that gives two medians different scores. */
  lemma TargetBetween(a: Option<real>, b: Option<real>) returns (target: real)
    requires a != b && (a.Some? ==> a.value > 0.0) && (b.Some? ==> b.value > 0.0)
    ensures target > 0.0
    ensures LatencyScore(Only(1.0, 0.0, target), a) != LatencyScore(Only(1.0, 0.0, target), b)
    ensures LatencyScore(Only(1.0, 0.0, target), a) > 0.0 || LatencyScore(Only(1.0, 0.0, target), b) > 0.0
  {
    if a.None? {
      target := b.value / 2.0;
    } else if b.None? {
      target := a.value / 2.0;
    } else {
      target := if a.value < b.value then a.value else b.value;
      BeyondTarget(target, if a.value < b.value then b.value else a.value);
    }
  }

  lemma BeyondTarget(target: real, median: real)
    requires 0.0 < target < median
    ensures LatencyScore(Only(1.0, 0.0, target), Some(median)) < 1.0
  {
    if median < 2.0 * target {
      assert (median - target) / target > 0.0;
    }
  }

  /** The last 20 runs of the role look like the deployed prompt's own, as far as the score reads them. */
  predicate SameObjectives(recent: seq<Run>, own: seq<Run>) {
    Median(recent) == Median(own) && ToolAccuracy(recent) == ToolAccuracy(own)
  }

  lemma SameObjectivesAgree(ring: seq<Run>, since: int)
    requires JudgedRuns(ring, since) == [] || SameObjectives(Last(ring, 20), Last(JudgedRuns(ring, since), 20))
    ensures !SomeVerdictsDiffer(ring, since)
  {
    var runs := JudgedRuns(ring, since);
    forall s: Settings, baseline | s.Valid() ensures !VerdictsDiffer(s, baseline, ring, since) {
      if runs != [] { SameObjectivesSameVerdict(s, baseline, runs, Last(ring, 20), Last(runs, 20)); }
    }
  }

  lemma SameObjectivesSameVerdict(s: Settings, baseline: Option<Baseline>, runs: seq<Run>, recent: seq<Run>, own: seq<Run>)
    requires SameObjectives(recent, own)
    ensures IsRegression(s, baseline, runs, recent) == IsRegression(s, baseline, runs, own)
  {
    hide Composite;
    SameObjectivesSameScore(s, runs, recent, own);
  }

  lemma SameObjectivesSameScore(s: Settings, runs: seq<Run>, recent: seq<Run>, own: seq<Run>)
    requires SameObjectives(recent, own)
    ensures Composite(s, runs, recent) == Composite(s, runs, own)
  {
    hide Median, ToolAccuracy, LatencyScore, Mean;
  }

  lemma AccuraciesTellApart(ring: seq<Run>, since: int)
    requires JudgedRuns(ring, since) != [] && ToolAccuracy(Last(ring, 20)) != ToolAccuracy(Last(JudgedRuns(ring, since), 20))
    ensures SomeVerdictsDiffer(ring, since)
  {
    var runs := JudgedRuns(ring, since);
    var recent, own := Last(ring, 20), Last(runs, 20);
    OnlyAccuracy(runs, recent);
    OnlyAccuracy(runs, own);
    AccuracyBounds(recent);
    AccuracyBounds(own);
    ScoresTellApart(Only(0.0, 1.0, 1.0), ring, since, ToolAccuracy(recent), ToolAccuracy(own));
  }

  lemma MediansTellApart(ring: seq<Run>, since: int)
    requires JudgedRuns(ring, since) != [] && Median(Last(ring, 20)) != Median(Last(JudgedRuns(ring, since), 20))
    ensures SomeVerdictsDiffer(ring, since)
  {
    var runs := JudgedRuns(ring, since);
    var recent, own := Last(ring, 20), Last(runs, 20);
    MedianMeaning(recent);
    MedianMeaning(own);
    LatenciesArePositive(recent);
    LatenciesArePositive(own);
    var target := TargetBetween(Median(recent), Median(own));
    OnlyLatency(runs, recent, target);
    OnlyLatency(runs, own, target);
    var s := Only(1.0, 0.0, target);
    ScoresTellApart(s, ring, since, LatencyScore(s, Median(recent)), LatencyScore(s, Median(own)));
  }

  /** Exactly when the two verdicts can differ, under some weights and baseline: when the deployed prompt
      has a run, and the last 20 runs of the role differ from its own in the median latency or in the
      mean tool accuracy. */
  lemma VerdictIsOnNewRunsExactly(ring: seq<Run>, since: int)
    ensures SomeVerdictsDiffer(ring, since) <==>
            JudgedRuns(ring, since) != [] && !SameObjectives(Last(ring, 20), Last(JudgedRuns(ring, since), 20))
  {
    if JudgedRuns(ring, since) == [] || SameObjectives(Last(ring, 20), Last(JudgedRuns(ring, since), 20)) {
      SameObjectivesAgree(ring, since);
    } else if Median(Last(ring, 20)) != Median(Last(JudgedRuns(ring, since), 20)) {
      MediansTellApart(ring, since);
    } else {
      AccuraciesTellApart(ring, since);
    }
  }

  /** They cannot when all of the last 20 runs are of the deployed prompt. */
  lemma NewRunsAloneAgree(ring: seq<Run>, since: int)
    requires forall r :: r in Last(ring, 20) ==> IsNew(r, since)
    ensures Last(ring, 20) == Last(JudgedRuns(ring, since), 20) && !SomeVerdictsDiffer(ring, since)
  {
    var window, recent := Last(ring, 200), Last(ring, 20);
    var older := window[..|window| - |recent|];
    assert window == older + recent;
    NewRunsAppend(older, recent, since);
    NewRunsMeaning(recent, since);
  }

  // --------------------------------------------------- with the values it ships with

  function Copies<T>(x: T, n: nat): seq<T> {
    if n == 0 then [] else [x] + Copies(x, n - 1)
  }

  lemma {:induction false} CopiesMeaning<T>(x: T, n: nat)
    ensures |Copies(x, n)| == n && forall y :: y in Copies(x, n) ==> y == x
  {
    if n == 0 {
    } else {
      CopiesMeaning(x, n - 1);
    }
  }

  ghost predicate AllEqual(xs: seq<real>, x: real) {
    forall i :: 0 <= i < |xs| ==> xs[i] == x
  }

  lemma {:induction false} SumOfEqual(x: real, xs: seq<real>)
    requires AllEqual(xs, x) && (x == 0.0 || x == 1.0)
    ensures Sum(xs) == if x == 0.0 then 0.0 else |xs| as real
  {
    if xs == [] {
    } else {
      SumOfEqual(x, xs[1..]);
    }
  }

  lemma MeanOfEqual(x: real, xs: seq<real>)
    requires AllEqual(xs, x) && (x == 0.0 || x == 1.0) && xs != []
    ensures Mean(xs, 1.0) == x && Mean(xs, 0.0) == x
  {
    SumOfEqual(x, xs);
    Shares(|xs| as real);
  }

  lemma Shares(n: real)
    requires n > 0.0
    ensures n / n == 1.0 && 0.0 / n == 0.0
  {
  }

  /** A run without tool calls that leaves nothing to be desired. */
  function GoodRun(started: int): Run {
    Run(Some(started), 1.0, [], 1.0, 0, true, 0)
  }

  /** One whose only tool call failed. */
  function PoorRun(started: int): Run {
    GoodRun(started).(calls := [FAILED_CALL])
  }

  const FAILED_CALL := ToolCall("read_file", false)

  /** Good but for the tool accuracy. */
  predicate Plain(r: Run) {
    r.latency == 1.0 && r.verification == 1.0 && r.retries == 0 && r.unsatisfied == 0 && (r.calls == [] || r.calls == [FAILED_CALL])
  }

  ghost predicate PlainRuns(runs: seq<Run>) {
    forall i :: 0 <= i < |runs| ==> Plain(runs[i])
  }

  lemma FailedCallMarks()
    ensures CallMarks([FAILED_CALL], false) == [0.0] && CallMarks([FAILED_CALL], true) == []
  {
    assert [FAILED_CALL][1..] == [];
    assert |"read_file"| == |"run_tests"| && "read_file"[1] != "run_tests"[1] && "read_file"[1] != "run_linter"[1];
  }

  lemma {:induction false} PlainObjectives(runs: seq<Run>)
    requires PlainRuns(runs)
    ensures RetryMarks(runs) == [] && CompileMarks(runs) == []
    ensures |Verifications(runs)| == |runs| && AllEqual(Verifications(runs), 1.0)
    ensures |UnsatisfiedMarks(runs)| == |runs| && AllEqual(UnsatisfiedMarks(runs), 0.0)
    ensures |Latencies(runs)| == |runs| && AllEqual(Latencies(runs), 1.0)
  {
    if runs == [] {
    } else {
      FailedCallMarks();
      PlainObjectives(runs[1..]);
    }
  }

  /** With the default weights such runs score 0.8, and 0.2 for the tool accuracy. */
  lemma PlainScore(runs: seq<Run>, recent: seq<Run>, minSamples: nat)
    requires PlainRuns(runs) && PlainRuns(recent)
    ensures Composite(DEFAULTS.(minSamples := minSamples), runs, recent) == 0.8 + 0.2 * ToolAccuracy(recent)
  {
    PlainObjectives(runs);
    PlainObjectives(recent);
    MedianMeaning(recent);
    if runs != [] {
      MeanOfEqual(1.0, Verifications(runs));
      MeanOfEqual(0.0, UnsatisfiedMarks(runs));
    }
  }

  lemma {:induction false} GoodAccuracies(runs: seq<Run>)
    requires forall r :: r in runs ==> r.calls == []
    ensures Accuracies(runs) == []
  {
    if runs == [] {
    } else {
      GoodAccuracies(runs[1..]);
    }
  }

  lemma {:induction false} PoorAccuracies(runs: seq<Run>)
    requires forall r :: r in runs ==> r.calls == [] || r.calls == [FAILED_CALL]
    ensures AllEqual(Accuracies(runs), 0.0)
    ensures (exists r :: r in runs && r.calls != []) ==> Accuracies(runs) != []
  {
    if runs == [] {
    } else {
      PoorAccuracies(runs[1..]);
      FailedCallMarks();
      assert [0.0][1..] == [];
      assert runs == [runs[0]] + runs[1..];
    }
  }

  lemma GoodScore(runs: seq<Run>, recent: seq<Run>, minSamples: nat)
    requires PlainRuns(runs) && PlainRuns(recent) && forall r :: r in recent ==> r.calls == []
    ensures Composite(DEFAULTS.(minSamples := minSamples), runs, recent) == 1.0
  {
    PlainScore(runs, recent, minSamples);
    GoodAccuracies(recent);
  }

  lemma PoorScore(runs: seq<Run>, recent: seq<Run>, minSamples: nat)
    requires PlainRuns(runs) && PlainRuns(recent) && exists r :: r in recent && r.calls != []
    ensures Composite(DEFAULTS.(minSamples := minSamples), runs, recent) == 0.8
  {
    PlainScore(runs, recent, minSamples);
    PoorAccuracies(recent);
    MeanOfEqual(0.0, Accuracies(recent));
  }

  /** Against a perfect baseline, the threshold lies between the two scores. */
  lemma VerdictOnPlainRuns(runs: seq<Run>, recent: seq<Run>, minSamples: nat)
    requires PlainRuns(runs) && PlainRuns(recent)
    ensures var s, baseline := DEFAULTS.(minSamples := minSamples), Some(Baseline(1.0, None));
            && ((forall r :: r in recent ==> r.calls == []) ==> !IsRegression(s, baseline, runs, recent))
            && ((exists r :: r in recent && r.calls != []) ==> (IsRegression(s, baseline, runs, recent) <==> minSamples <= |runs|))
  {
    if forall r :: r in recent ==> r.calls == [] {
      GoodScore(runs, recent, minSamples);
    } else {
      PoorScore(runs, recent, minSamples);
    }
  }

  function OlderRing(n: nat, since: int): seq<Run> {
    [PoorRun(since - 1)] + Copies(GoodRun(since), n)
  }

  lemma GoodRuns(n: nat, since: int)
    ensures var good := Copies(GoodRun(since), n);
            |good| == n && NewRuns(good, since) == good && PlainRuns(good) && forall r :: r in good ==> r.calls == []
  {
    CopiesMeaning(GoodRun(since), n);
    NewRunsMeaning(Copies(GoodRun(since), n), since);
  }

  lemma OlderRingRuns(n: nat, since: int)
    requires n < 20
    ensures var ring, good := OlderRing(n, since), Copies(GoodRun(since), n);
            && Last(ring, 200) == ring && Last(ring, 20) == ring && JudgedRuns(ring, since) == good && Last(good, 20) == good
            && PlainRuns(ring) && PoorRun(since - 1) in ring
  {
    GoodRuns(n, since);
    var ring := OlderRing(n, since);
    assert ring[0] == PoorRun(since - 1) && ring[1..] == Copies(GoodRun(since), n);
  }

  /** With the shipped weights and threshold, a single older run whose tool call failed brings about the
      regression of a prompt, exactly when the prompt has enough runs of its own for a verdict; these alone are
      perfect, and never a regression. */
  lemma OlderRunRegressesExactly(n: nat, since: int, minSamples: nat)
    requires 1 <= minSamples && n < 20
    ensures var s, baseline := DEFAULTS.(minSamples := minSamples), Some(Baseline(1.0, None));
            var ring := OlderRing(n, since);
            && (Regressed(s, baseline, ring, Some(since)) <==> minSamples <= n)
            && !RegressedOnNew(s, baseline, ring, Some(since))
            && (minSamples <= n ==> GateBlocked(s, baseline, ring))
  {
    var ring, good := OlderRing(n, since), Copies(GoodRun(since), n);
    OlderRingRuns(n, since);
    GoodRuns(n, since);
    assert PoorRun(since - 1).calls != [];
    VerdictOnPlainRuns(good, ring, minSamples);
    VerdictOnPlainRuns(good, good, minSamples);
    VerdictOnPlainRuns(ring, ring, minSamples);
  }

  lemma PoorRingRuns(n: nat, since: int, started: int)
    requires n <= 20 && since <= started
    ensures var ring := Copies(PoorRun(started), n);
            && Last(ring, 20) == ring && JudgedRuns(ring, since) == ring && |ring| == n && PlainRuns(ring)
            && (n > 0 ==> PoorRun(started) in ring)
  {
    CopiesMeaning(PoorRun(started), n);
    NewRunsMeaning(Copies(PoorRun(started), n), since);
  }

  /** Runs whose tool calls fail are a regression, exactly when there are enough of them. */
  lemma PoorRunsRegressExactly(n: nat, since: int, started: int, minSamples: nat)
    requires 1 <= minSamples && n <= 20 && since <= started
    ensures var s, baseline := DEFAULTS.(minSamples := minSamples), Some(Baseline(1.0, None));
            var ring := Copies(PoorRun(started), n);
            && (Regressed(s, baseline, ring, Some(since)) <==> minSamples <= n)
            && (GateBlocked(s, baseline, ring) <==> minSamples <= n)
  {
    var ring := Copies(PoorRun(started), n);
    PoorRingRuns(n, since, started);
    assert PoorRun(started).calls != [];
    VerdictOnPlainRuns(ring, ring, minSamples);
  }
}
