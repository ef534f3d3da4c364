/** Pooled comparison of two systems over several runs (evaluation/pooled.py).
    A run maps question ids to metric scores; the bootstrap interval is not modelled. */
module Pooled {
  import opened Basics
  import opened Sorting
  import opened SignFlip

  type Run = map<string, map<string, real>>

  datatype Row = Row(n: nat, meanA: real, meanB: real, diff: real, pValue: real,
                     wins: nat, ties: nat, losses: nat, leaveOneOut: Option<(real, real)>)

  /** `TooFew` is the source's None, `MissingQuestion` its KeyError: without one run,
      a shared question can lose its last score. */
  datatype Outcome = TooFew | MissingQuestion | Compared(row: Row)

  const MARGIN: real := 0.000000001

  // ----- Pooled means -----

  function Scores(runs: seq<Run>, qid: string, metric: string): seq<real> {
    if runs == [] then []
    else
      var n := |runs| - 1;
      var before := Scores(runs[..n], qid, metric);
      if qid in runs[n] && metric in runs[n][qid] then before + [runs[n][qid][metric]] else before
  }

  function Mean(values: seq<real>): real
    requires values != []
  {
    Sum(values) / |values| as real
  }

  ghost function Means(runs: seq<Run>, qids: seq<string>, metric: string): map<string, real> {
    map q | q in qids && Scores(runs, q, metric) != [] :: Mean(Scores(runs, q, metric))
  }

  method PooledMeans(runs: seq<Run>, qids: seq<string>, metric: string) returns (pooled: map<string, real>)
    ensures pooled == Means(runs, qids, metric)
  {
    pooled := map[];
    for i := 0 to |qids|
      invariant pooled == Means(runs, qids[..i], metric)
    {
      var values := Scores(runs, qids[i], metric);
      assert forall q :: q in qids[..i + 1] <==> q in qids[..i] || q == qids[i];
      if values != [] {
        pooled := pooled[qids[i] := Mean(values)];
      }
    }
    assert qids[..|qids|] == qids;
  }

  // ----- One comparison row -----

  /** The ids with a mean in both systems, once each. */
  function Common(qids: seq<string>, keys: set<string>): seq<string> {
    if qids == [] then []
    else
      var n := |qids| - 1;
      var before := Common(qids[..n], keys);
      if qids[n] in keys && qids[n] !in before then before + [qids[n]] else before
  }

  function Shared(qids: seq<string>, a: map<string, real>, b: map<string, real>): seq<string> {
    Sort(Common(qids, a.Keys * b.Keys), StringLe)
  }

  predicate Covers(means: map<string, real>, qids: seq<string>) {
    forall i :: 0 <= i < |qids| ==> qids[i] in means
  }

  function Get(means: map<string, real>, q: string): real { if q in means then means[q] else 0.0 }

  function Column(means: map<string, real>, qids: seq<string>): (r: seq<real>)
    ensures |r| == |qids|
  {
    seq(|qids|, i requires 0 <= i < |qids| => Get(means, qids[i]))
  }

  function Diffs(a: map<string, real>, b: map<string, real>, qids: seq<string>): (r: seq<real>)
    ensures |r| == |qids|
  {
    seq(|qids|, i requires 0 <= i < |qids| => Get(a, qids[i]) - Get(b, qids[i]))
  }

  datatype Verdict = Win | Tie | Loss

  function Judge(d: real): Verdict {
    if d > MARGIN then Win else if d < -MARGIN then Loss else Tie
  }

  function Tally(diffs: seq<real>, v: Verdict): nat {
    if diffs == [] then 0
    else
      var here := if Judge(diffs[|diffs| - 1]) == v then 1 else 0;
      Tally(diffs[..|diffs| - 1], v) + here
  }

  function Least(s: seq<real>): real
    requires s != []
  {
    var n := |s| - 1;
    if n == 0 || s[n] <= Least(s[..n]) then s[n] else Least(s[..n])
  }

  function Greatest(s: seq<real>): real
    requires s != []
  {
    var n := |s| - 1;
    if n == 0 || s[n] >= Greatest(s[..n]) then s[n] else Greatest(s[..n])
  }

  ghost predicate RunDispensable(runs: seq<Run>, i: nat, qids: seq<string>, metric: string, shared: seq<string>)
    requires i < |runs|
  {
    Covers(Means(Without(runs, i), qids, metric), shared)
  }

  ghost function PWithout(runsA: seq<Run>, runsB: seq<Run>, i: nat, qids: seq<string>, metric: string, shared: seq<string>): real
    requires i < |runsA| == |runsB|
  {
    PValue(Diffs(Means(Without(runsA, i), qids, metric), Means(Without(runsB, i), qids, metric), shared))
  }

  ghost function AllPWithout(runsA: seq<Run>, runsB: seq<Run>, n: nat, qids: seq<string>, metric: string, shared: seq<string>): (r: seq<real>)
    requires n <= |runsA| == |runsB|
    ensures |r| == n
  {
    seq(n, i requires 0 <= i < n => PWithout(runsA, runsB, i, qids, metric, shared))
  }

  function RowOf(a: map<string, real>, b: map<string, real>, shared: seq<string>, p: real, loo: Option<(real, real)>): Row
    requires shared != []
  {
    var diffs := Diffs(a, b, shared);
    Row(|shared|, Mean(Column(a, shared)), Mean(Column(b, shared)), Mean(diffs), p,
        Tally(diffs, Win), Tally(diffs, Tie), Tally(diffs, Loss), loo)
  }

  ghost predicate AllDispensable(runsA: seq<Run>, runsB: seq<Run>, n: nat, qids: seq<string>, metric: string, shared: seq<string>)
    requires n <= |runsA| == |runsB|
  {
    forall i: nat :: i < n ==> RunDispensable(runsA, i, qids, metric, shared) && RunDispensable(runsB, i, qids, metric, shared)
  }

  /** Leave-one-out p-values are computed for at least three runs, equally many per system. */
  predicate Jackknifed(runsA: seq<Run>, runsB: seq<Run>) {
    |runsA| >= 3 && |runsA| == |runsB|
  }

  ghost function Comparison(runsA: seq<Run>, runsB: seq<Run>, qids: seq<string>, metric: string): Outcome {
    var a, b := Means(runsA, qids, metric), Means(runsB, qids, metric);
    var shared := Shared(qids, a, b);
    if |shared| < 2 then TooFew
    else
      var p := PValue(Diffs(a, b, shared));
      if !Jackknifed(runsA, runsB) then Compared(RowOf(a, b, shared, p, None))
      else if !AllDispensable(runsA, runsB, |runsA|, qids, metric, shared) then MissingQuestion
      else
        var loo := AllPWithout(runsA, runsB, |runsA|, qids, metric, shared);
        Compared(RowOf(a, b, shared, p, Some((Least(loo), Greatest(loo)))))
  }

  lemma LeftOutNext(runsA: seq<Run>, runsB: seq<Run>, i: nat, qids: seq<string>, metric: string, shared: seq<string>)
    requires i < |runsA| == |runsB|
    ensures AllPWithout(runsA, runsB, i + 1, qids, metric, shared)
         == AllPWithout(runsA, runsB, i, qids, metric, shared) + [PWithout(runsA, runsB, i, qids, metric, shared)]
    ensures AllDispensable(runsA, runsB, i + 1, qids, metric, shared)
       <==> AllDispensable(runsA, runsB, i, qids, metric, shared)
            && RunDispensable(runsA, i, qids, metric, shared) && RunDispensable(runsB, i, qids, metric, shared)
  {
  }

  lemma LeftOutStops(runsA: seq<Run>, runsB: seq<Run>, i: nat, qids: seq<string>, metric: string, shared: seq<string>)
    requires i < |runsA| == |runsB|
    requires !RunDispensable(runsA, i, qids, metric, shared) || !RunDispensable(runsB, i, qids, metric, shared)
    ensures !AllDispensable(runsA, runsB, |runsA|, qids, metric, shared)
  {
  }

  /** The p-value without run `i`, or None when a shared question loses its last score. */
  method LeaveOut(runsA: seq<Run>, runsB: seq<Run>, i: nat, qids: seq<string>, metric: string, shared: seq<string>)
      returns (p: Option<real>)
    requires i < |runsA| == |runsB|
    ensures p == if RunDispensable(runsA, i, qids, metric, shared) && RunDispensable(runsB, i, qids, metric, shared)
                 then Some(PWithout(runsA, runsB, i, qids, metric, shared)) else None
  {
    var restA := PooledMeans(Without(runsA, i), qids, metric);
    var restB := PooledMeans(Without(runsB, i), qids, metric);
    if !Covers(restA, shared) || !Covers(restB, shared) {
      return None;
    }
    var value := ExactSignFlipP(Diffs(restA, restB, shared));
    p := Some(value);
  }

  method LeaveOneOut(runsA: seq<Run>, runsB: seq<Run>, qids: seq<string>, metric: string, shared: seq<string>)
      returns (loo: Option<seq<real>>)
    requires |runsA| == |runsB|
    ensures loo == if AllDispensable(runsA, runsB, |runsA|, qids, metric, shared)
                   then Some(AllPWithout(runsA, runsB, |runsA|, qids, metric, shared)) else None
  {
    var ps := [];
    for i := 0 to |runsA|
      invariant AllDispensable(runsA, runsB, i, qids, metric, shared)
      invariant ps == AllPWithout(runsA, runsB, i, qids, metric, shared)
    {
      var p := LeaveOut(runsA, runsB, i, qids, metric, shared);
      if p == None {
        LeftOutStops(runsA, runsB, i, qids, metric, shared);
        return None;
      }
      LeftOutNext(runsA, runsB, i, qids, metric, shared);
      ps := ps + [p.value];
    }
    loo := Some(ps);
  }

  method ComparePooled(runsA: seq<Run>, runsB: seq<Run>, qids: seq<string>, metric: string) returns (outcome: Outcome)
    ensures outcome == Comparison(runsA, runsB, qids, metric)
  {
    var a := PooledMeans(runsA, qids, metric);
    var b := PooledMeans(runsB, qids, metric);
    var shared := Shared(qids, a, b);
    if |shared| < 2 {
      return TooFew;
    }
    var p := ExactSignFlipP(Diffs(a, b, shared));
    if !Jackknifed(runsA, runsB) {
      return Compared(RowOf(a, b, shared, p, None));
    }
    var loo := LeaveOneOut(runsA, runsB, qids, metric, shared);
    if loo == None {
      return MissingQuestion;
    }
    outcome := Compared(RowOf(a, b, shared, p, Some((Least(loo.value), Greatest(loo.value)))));
  }
}
