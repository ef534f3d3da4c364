/** Swapping the two systems of a pooled comparison mirrors the row and nothing else. */
module PooledLaws {
  import opened Basics
  import opened Sorting
  import opened SignFlip
  import opened SignFlipLaws
  import opened Pooled

  function Mirror(v: Verdict): Verdict {
    match v case Win => Loss case Tie => Tie case Loss => Win
  }

  function Swapped(outcome: Outcome): Outcome {
    match outcome
    case Compared(row) =>
      Compared(row.(meanA := row.meanB, meanB := row.meanA, diff := -row.diff,
                    wins := row.losses, losses := row.wins))
    case _ => outcome
  }

  lemma DiffsSwapped(a: map<string, real>, b: map<string, real>, shared: seq<string>)
    ensures Diffs(b, a, shared) == Negate(Diffs(a, b, shared))
  {
  }

  lemma {:induction false} TallyNegated(diffs: seq<real>, v: Verdict)
    ensures Tally(Negate(diffs), v) == Tally(diffs, Mirror(v))
  {
    if diffs != [] {
      var n := |diffs| - 1;
      TallyNegated(diffs[..n], v);
      assert Negate(diffs)[..n] == Negate(diffs[..n]);
    }
  }

  lemma RowSwapped(a: map<string, real>, b: map<string, real>, shared: seq<string>, p: real, loo: Option<(real, real)>)
    requires shared != []
    ensures Compared(RowOf(b, a, shared, p, loo)) == Swapped(Compared(RowOf(a, b, shared, p, loo)))
  {
    var diffs := Diffs(a, b, shared);
    DiffsSwapped(a, b, shared);
    HitsNegated(diffs, 0.0, 0.0);
    TallyNegated(diffs, Win);
    TallyNegated(diffs, Tie);
    TallyNegated(diffs, Loss);
    QuotientNegated(Sum(diffs), |diffs|);
  }

  lemma QuotientNegated(x: real, n: nat)
    requires n > 0
    ensures -x / n as real == -(x / n as real)
  {
  }

  lemma PSwapped(a: map<string, real>, b: map<string, real>, shared: seq<string>)
    ensures PValue(Diffs(b, a, shared)) == PValue(Diffs(a, b, shared))
  {
    DiffsSwapped(a, b, shared);
    PValueNegated(Diffs(a, b, shared));
  }

  lemma LeaveOneOutSwapped(runsA: seq<Run>, runsB: seq<Run>, qids: seq<string>, metric: string, shared: seq<string>)
    requires |runsA| == |runsB|
    ensures AllPWithout(runsB, runsA, |runsA|, qids, metric, shared) == AllPWithout(runsA, runsB, |runsA|, qids, metric, shared)
  {
    forall i: nat | i < |runsA|
      ensures PWithout(runsB, runsA, i, qids, metric, shared) == PWithout(runsA, runsB, i, qids, metric, shared)
    {
      PSwapped(Means(Without(runsA, i), qids, metric), Means(Without(runsB, i), qids, metric), shared);
    }
  }

  lemma SharedSwapped(qids: seq<string>, a: map<string, real>, b: map<string, real>)
    ensures Shared(qids, a, b) == Shared(qids, b, a)
  {
    assert a.Keys * b.Keys == b.Keys * a.Keys;
  }

  /** Means and differences change sign or side, wins and losses change places; the number
      of questions, the ties, the p-value and the leave-one-out range stay as they are. */
  lemma ComparisonSwapped(runsA: seq<Run>, runsB: seq<Run>, qids: seq<string>, metric: string)
    ensures Comparison(runsB, runsA, qids, metric) == Swapped(Comparison(runsA, runsB, qids, metric))
  {
    var a, b := Means(runsA, qids, metric), Means(runsB, qids, metric);
    var shared := Shared(qids, a, b);
    SharedSwapped(qids, a, b);
    if |shared| >= 2 {
      PSwapped(a, b, shared);
      var p := PValue(Diffs(a, b, shared));
      if !Jackknifed(runsA, runsB) {
        RowSwapped(a, b, shared, p, None);
      } else if AllDispensable(runsA, runsB, |runsA|, qids, metric, shared) {
        LeaveOneOutSwapped(runsA, runsB, qids, metric, shared);
        var loo := AllPWithout(runsA, runsB, |runsA|, qids, metric, shared);
        RowSwapped(a, b, shared, p, Some((Least(loo), Greatest(loo))));
      }
    }
  }

  lemma {:induction false} SumOfDiffs(a: map<string, real>, b: map<string, real>, shared: seq<string>)
    ensures Sum(Diffs(a, b, shared)) == Sum(Column(a, shared)) - Sum(Column(b, shared))
  {
    if shared != [] {
      var n := |shared| - 1;
      SumOfDiffs(a, b, shared[..n]);
      assert Diffs(a, b, shared)[..n] == Diffs(a, b, shared[..n]);
      assert Column(a, shared)[..n] == Column(a, shared[..n]);
      assert Column(b, shared)[..n] == Column(b, shared[..n]);
    }
  }

  lemma {:induction false} TalliesPartition(diffs: seq<real>)
    ensures Tally(diffs, Win) + Tally(diffs, Tie) + Tally(diffs, Loss) == |diffs|
  {
    if diffs != [] {
      TalliesPartition(diffs[..|diffs| - 1]);
    }
  }

  /** A row is consistent: the mean difference is the difference of the means, every
      question is a win, a tie or a loss, and the p-value is a probability. */
  lemma RowConsistent(runsA: seq<Run>, runsB: seq<Run>, qids: seq<string>, metric: string)
    requires Comparison(runsA, runsB, qids, metric).Compared?
    ensures var row := Comparison(runsA, runsB, qids, metric).row;
            && row.diff == row.meanA - row.meanB
            && row.wins + row.ties + row.losses == row.n >= 2
            && Share(2, row.n) <= row.pValue <= 1.0
  {
    var a, b := Means(runsA, qids, metric), Means(runsB, qids, metric);
    var shared := Shared(qids, a, b);
    SumOfDiffs(a, b, shared);
    TalliesPartition(Diffs(a, b, shared));
    PValueRange(Diffs(a, b, shared));
    QuotientSubtracted(Sum(Column(a, shared)), Sum(Column(b, shared)), |shared|);
  }

  lemma QuotientSubtracted(x: real, y: real, n: nat)
    requires n > 0
    ensures (x - y) / n as real == x / n as real - y / n as real
  {
  }
}
