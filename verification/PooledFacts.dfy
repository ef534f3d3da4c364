/** Pooled means and comparison rows in plain numbers (evaluation/pooled.py). */
module PooledFacts {
  import opened Basics
  import opened Sorting
  import opened SignFlip
  import opened SignFlipValues
  import opened Pooled
  import opened PooledReports

  // ----- The pooled mean of a question -----

  predicate Scored(run: Run, q: string, metric: string) { q in run && metric in run[q] }

  ghost function ScoredRuns(runs: seq<Run>, q: string, metric: string): set<nat> {
    set i: nat | i < |runs| && Scored(runs[i], q, metric)
  }

  lemma ScoresNext(runs: seq<Run>, run: Run, more: seq<Run>, q: string, metric: string)
    requires more == runs + [run]
    ensures Scores(more, q, metric) == Scores(runs, q, metric) + (if Scored(run, q, metric) then [run[q][metric]] else [])
    ensures |ScoredRuns(more, q, metric)| == |ScoredRuns(runs, q, metric)| + (if Scored(run, q, metric) then 1 else 0)
  {
    assert more[..|more| - 1] == runs;
    ScoredRunsNext(runs, run, more, q, metric);
    if Scored(run, q, metric) {
      assert |runs| !in ScoredRuns(runs, q, metric);
    }
  }

  lemma ScoredRunsNext(runs: seq<Run>, run: Run, more: seq<Run>, q: string, metric: string)
    requires more == runs + [run]
    ensures ScoredRuns(more, q, metric) == ScoredRuns(runs, q, metric) + (if Scored(run, q, metric) then {|runs|} else {})
  {
    forall i: nat ensures i in ScoredRuns(more, q, metric)
      <==> i in ScoredRuns(runs, q, metric) || (i == |runs| && Scored(run, q, metric))
    {
      if i < |runs| {
        assert more[i] == runs[i];
      }
    }
  }

  lemma {:induction false} ScoresCounted(runs: seq<Run>, q: string, metric: string)
    ensures |Scores(runs, q, metric)| == |ScoredRuns(runs, q, metric)|
  {
    if runs != [] {
      var n := |runs| - 1;
      ScoresCounted(runs[..n], q, metric);
      assert runs == runs[..n] + [runs[n]];
      ScoresNext(runs[..n], runs[n], runs, q, metric);
    }
  }

  /** A question has a mean exactly when it is asked for and some run scores it. */
  lemma MeanIffScored(runs: seq<Run>, qids: seq<string>, metric: string, q: string)
    ensures q in Means(runs, qids, metric) <==> q in qids && exists i :: 0 <= i < |runs| && Scored(runs[i], q, metric)
  {
    ScoresCounted(runs, q, metric);
    if i :| 0 <= i < |runs| && Scored(runs[i], q, metric) {
      assert i in ScoredRuns(runs, q, metric);
    }
    if Scores(runs, q, metric) != [] {
      var i :| i in ScoredRuns(runs, q, metric);
    }
  }

  lemma MeanTimesCount(values: seq<real>)
    requires values != []
    ensures Mean(values) * |values| as real == Sum(values)
  {
  }

  lemma SumNext(values: seq<real>, v: real)
    ensures Sum(values + [v]) == Sum(values) + v
  {
    assert (values + [v])[..|values|] == values;
  }

  lemma MeanAppended(values: seq<real>, v: real, n: nat, before: real, after: real)
    requires n == |values| && after == Mean(values + [v]) && (n > 0 ==> before == Mean(values))
    ensures after * (n + 1) as real == (if n == 0 then 0.0 else before * n as real) + v
  {
    SumNext(values, v);
    MeanTimesCount(values + [v]);
    if values != [] {
      MeanTimesCount(values);
    }
  }

  ghost predicate HasMean(runs: seq<Run>, qids: seq<string>, metric: string, q: string, mean: real) {
    q in Means(runs, qids, metric) && Means(runs, qids, metric)[q] == mean
  }

  /** The mean is the sum of the scores over their number: one run's score is its own mean,
      and each further score joins with equal weight. */
  lemma MeanWithOneMore(runs: seq<Run>, run: Run, qids: seq<string>, metric: string, q: string, n: nat, before: real, after: real)
    requires q in qids && n == |ScoredRuns(runs, q, metric)| && Scored(run, q, metric)
    requires (n > 0 ==> HasMean(runs, qids, metric, q, before)) && HasMean(runs + [run], qids, metric, q, after)
    ensures after * (n + 1) as real == (if n == 0 then 0.0 else before * n as real) + run[q][metric]
  {
    var values, v, more := Scores(runs, q, metric), run[q][metric], runs + [run];
    ScoresCounted(runs, q, metric);
    ScoresNext(runs, run, more, q, metric);
    MeanIs(more, qids, metric, q, values + [v]);
    if n > 0 {
      MeanIs(runs, qids, metric, q, values);
    }
    MeanAppended(values, v, n, before, after);
  }

  lemma MeanIs(runs: seq<Run>, qids: seq<string>, metric: string, q: string, values: seq<real>)
    requires q in qids && values == Scores(runs, q, metric) && values != []
    ensures q in Means(runs, qids, metric) && Means(runs, qids, metric)[q] == Mean(values)
  {
  }

  /** A run without a score for a question does not count. */
  lemma MeanUnscored(runs: seq<Run>, run: Run, qids: seq<string>, metric: string, q: string)
    requires !Scored(run, q, metric)
    ensures q in Means(runs + [run], qids, metric) <==> q in Means(runs, qids, metric)
    ensures q in Means(runs, qids, metric) ==> Means(runs + [run], qids, metric)[q] == Means(runs, qids, metric)[q]
  {
    ScoresNext(runs, run, runs + [run], q, metric);
  }

  // ----- Rows -----

  lemma {:induction false} SumBounds(values: seq<real>, low: real, high: real)
    requires forall i :: 0 <= i < |values| ==> low <= values[i] <= high
    ensures low * |values| as real <= Sum(values) <= high * |values| as real
  {
    if values != [] {
      var n := |values| - 1;
      SumBounds(values[..n], low, high);
      assert low * |values| as real == low * n as real + low;
      assert high * |values| as real == high * n as real + high;
    }
  }

  lemma MeanBounds(values: seq<real>, low: real, high: real)
    requires values != [] && forall i :: 0 <= i < |values| ==> low <= values[i] <= high
    ensures low <= Mean(values) <= high
  {
    SumBounds(values, low, high);
    QuotientBetween(Sum(values), |values| as real, low, high);
  }

  lemma QuotientBetween(x: real, d: real, low: real, high: real)
    requires d > 0.0 && low * d <= x <= high * d
    ensures low <= x / d <= high
  {
    var q := x / d;
    assert q * d == x;
    if q < low {
      TimesGrows(q, low, d);
    }
    if q > high {
      TimesGrows(high, q, d);
    }
  }

  lemma TimesGrows(x: real, y: real, d: real)
    requires x < y && d > 0.0
    ensures x * d < y * d
  {
    assert (y - x) * d > 0.0;
  }

  /** The first mean of a row is a mean of the first system's pooled means. */
  lemma RowMeansBounded(runsA: seq<Run>, runsB: seq<Run>, qids: seq<string>, metric: string, low: real, high: real)
    requires Comparison(runsA, runsB, qids, metric).Compared?
    requires var a, b := Means(runsA, qids, metric), Means(runsB, qids, metric);
      forall q :: q in a && q in b ==> low <= a[q] <= high
    ensures low <= Comparison(runsA, runsB, qids, metric).row.meanA <= high
  {
    var a, b := Means(runsA, qids, metric), Means(runsB, qids, metric);
    var shared := Shared(qids, a, b);
    SharedMembers(qids, a, b);
    forall i | 0 <= i < |shared| ensures low <= Column(a, shared)[i] <= high {
      assert shared[i] in shared;
    }
    MeanBounds(Column(a, shared), low, high);
  }

  /** A system that is better on every shared question has the smallest p-value there is,
      whichever side of the comparison it is on. */
  lemma BetterEverywhere(runsA: seq<Run>, runsB: seq<Run>, qids: seq<string>, metric: string)
    requires Comparison(runsA, runsB, qids, metric).Compared?
    requires var a, b := Means(runsA, qids, metric), Means(runsB, qids, metric);
      forall q :: q in a && q in b ==> a[q] - b[q] > 0.000000000001
    ensures var row := Comparison(runsA, runsB, qids, metric).row; row.pValue == Share(2, row.n)
  {
    var a, b := Means(runsA, qids, metric), Means(runsB, qids, metric);
    var shared := Shared(qids, a, b);
    SharedMembers(qids, a, b);
    forall i | 0 <= i < |shared| ensures Diffs(a, b, shared)[i] > 0.000000000001 {
      assert shared[i] in shared;
    }
    ClearWinIsSmallest(Diffs(a, b, shared));
  }

  /** The p-value without run `i` is that of comparing the remaining runs, as long as they
      share the same questions. */
  lemma LeftOutIsComparison(runsA: seq<Run>, runsB: seq<Run>, qids: seq<string>, metric: string, i: nat, restA: seq<Run>, restB: seq<Run>)
    requires i < |runsA| == |runsB| && restA == runsA[..i] + runsA[i + 1..] && restB == runsB[..i] + runsB[i + 1..]
    requires Comparison(restA, restB, qids, metric).Compared?
    requires Shared(qids, Means(restA, qids, metric), Means(restB, qids, metric))
          == Shared(qids, Means(runsA, qids, metric), Means(runsB, qids, metric))
    ensures AllPWithout(runsA, runsB, |runsA|, qids, metric, Shared(qids, Means(runsA, qids, metric), Means(runsB, qids, metric)))[i]
         == Comparison(restA, restB, qids, metric).row.pValue
  {
  }

  // ----- When there is no row -----

  /** Some question that both systems share is scored by no run but this one. */
  ghost predicate LosesQuestion(runs: seq<Run>, i: nat, qids: seq<string>, metric: string, shared: set<string>)
    requires i < |runs|
  {
    exists q :: q in shared && forall j :: 0 <= j < |runs| && j != i ==> !Scored(runs[j], q, metric)
  }

  lemma ScoredWithout(runs: seq<Run>, i: nat, q: string, metric: string)
    requires i < |runs|
    ensures (exists k :: 0 <= k < |Without(runs, i)| && Scored(Without(runs, i)[k], q, metric))
       <==> exists j :: 0 <= j < |runs| && j != i && Scored(runs[j], q, metric)
  {
    var rest := Without(runs, i);
    if k :| 0 <= k < |rest| && Scored(rest[k], q, metric) {
      assert rest[k] == runs[if k < i then k else k + 1];
    }
    if j :| 0 <= j < |runs| && j != i && Scored(runs[j], q, metric) {
      assert rest[if j < i then j else j - 1] == runs[j];
    }
  }

  lemma DispensableIff(runs: seq<Run>, i: nat, qids: seq<string>, metric: string, shared: seq<string>, keys: set<string>)
    requires i < |runs| && forall q :: q in shared <==> q in keys
    requires forall q :: q in keys ==> q in qids
    ensures RunDispensable(runs, i, qids, metric, shared) <==> !LosesQuestion(runs, i, qids, metric, keys)
  {
    var means := Means(Without(runs, i), qids, metric);
    forall q | q in keys
      ensures q in means <==> exists j :: 0 <= j < |runs| && j != i && Scored(runs[j], q, metric)
    {
      MeanIffScored(Without(runs, i), qids, metric, q);
      ScoredWithout(runs, i, q, metric);
    }
    if RunDispensable(runs, i, qids, metric, shared) {
      forall q | q in keys ensures q in means {
        var k :| 0 <= k < |shared| && shared[k] == q;
      }
    } else {
      var k :| 0 <= k < |shared| && shared[k] !in means;
      assert shared[k] in keys;
    }
  }

  ghost predicate SomeRunMatters(runsA: seq<Run>, runsB: seq<Run>, qids: seq<string>, metric: string, shared: set<string>)
    requires |runsA| == |runsB|
  {
    exists i: nat :: i < |runsA| && (LosesQuestion(runsA, i, qids, metric, shared) || LosesQuestion(runsB, i, qids, metric, shared))
  }

  lemma AllDispensableIff(runsA: seq<Run>, runsB: seq<Run>, qids: seq<string>, metric: string, list: seq<string>, shared: set<string>)
    requires |runsA| == |runsB| && forall q :: q in list <==> q in shared
    requires forall q :: q in shared ==> q in qids
    ensures AllDispensable(runsA, runsB, |runsA|, qids, metric, list) <==> !SomeRunMatters(runsA, runsB, qids, metric, shared)
  {
    forall i: nat | i < |runsA|
      ensures RunDispensable(runsA, i, qids, metric, list) <==> !LosesQuestion(runsA, i, qids, metric, shared)
      ensures RunDispensable(runsB, i, qids, metric, list) <==> !LosesQuestion(runsB, i, qids, metric, shared)
    {
      DispensableIff(runsA, i, qids, metric, list, shared);
      DispensableIff(runsB, i, qids, metric, list, shared);
    }
  }

  lemma OutcomeCases(runsA: seq<Run>, runsB: seq<Run>, qids: seq<string>, metric: string, list: seq<string>)
    requires list == Shared(qids, Means(runsA, qids, metric), Means(runsB, qids, metric))
    ensures Comparison(runsA, runsB, qids, metric) == TooFew <==> |list| < 2
    ensures Comparison(runsA, runsB, qids, metric) == MissingQuestion
       <==> |list| >= 2 && |runsA| >= 3 && |runsA| == |runsB| && !AllDispensable(runsA, runsB, |runsA|, qids, metric, list)
  {
  }

  /** There is no row when fewer than two questions are shared, and an error when leaving
      out a run leaves a shared question without a score. */
  lemma OutcomeIff(runsA: seq<Run>, runsB: seq<Run>, qids: seq<string>, metric: string, shared: set<string>)
    requires shared == Means(runsA, qids, metric).Keys * Means(runsB, qids, metric).Keys
    ensures Comparison(runsA, runsB, qids, metric) == TooFew <==> |shared| < 2
    ensures Comparison(runsA, runsB, qids, metric) == MissingQuestion
       <==> |shared| >= 2 && |runsA| >= 3 && |runsA| == |runsB| && SomeRunMatters(runsA, runsB, qids, metric, shared)
  {
    var a, b := Means(runsA, qids, metric), Means(runsB, qids, metric);
    var list := Shared(qids, a, b);
    SharedMembers(qids, a, b);
    SharedSize(list, a, b);
    OutcomeCases(runsA, runsB, qids, metric, list);
    if |runsA| == |runsB| {
      AllDispensableIff(runsA, runsB, qids, metric, list, shared);
    }
  }
}
