/** Values of the exact sign-flip test (evaluation/pooled.py), in plain numbers. */
module SignFlipValues {
  import opened SignFlip
  import opened SignVectors
  import opened SignFlipLaws

  ghost predicate AllExceed(values: seq<real>, bound: real) {
    forall i :: 0 <= i < |values| ==> values[i] > bound
  }

  lemma {:induction false} SumExceeds(values: seq<real>)
    requires AllExceed(values, 0.0)
    ensures Sum(values) >= 0.0
    ensures forall i :: 0 <= i < |values| ==> values[i] <= Sum(values)
  {
    if values != [] {
      SumExceeds(values[..|values| - 1]);
    }
  }

  /** Neither all plus nor all minus is extreme: nothing is. */
  lemma {:induction false} NoneExtreme(values: seq<real>, offset: real, observed: real)
    requires AllExceed(values, 0.0)
    requires offset + Sum(values) < observed && offset - Sum(values) > -observed
    ensures Hits(values, offset, observed) == 0
  {
    if values != [] {
      var n := |values| - 1;
      NoneExtreme(values[..n], offset + values[n], observed);
      NoneExtreme(values[..n], offset - values[n], observed);
    }
  }

  /** All plus is extreme, but with any value flipped it is not. */
  lemma {:induction false} OnlyPlus(values: seq<real>, offset: real, observed: real, gap: real)
    requires observed > 0.0 && gap > 0.0 && AllExceed(values, gap)
    requires observed <= offset + Sum(values) <= observed + gap && offset - Sum(values) > -observed
    ensures Hits(values, offset, observed) == 1
  {
    if values != [] {
      var n := |values| - 1;
      OnlyPlus(values[..n], offset + values[n], observed, gap);
      NoneExtreme(values[..n], offset - values[n], observed);
    }
  }

  lemma {:induction false} OnlyMinus(values: seq<real>, offset: real, observed: real, gap: real)
    requires observed > 0.0 && gap > 0.0 && AllExceed(values, gap)
    requires -observed - gap <= offset - Sum(values) <= -observed && offset + Sum(values) < observed
    ensures Hits(values, offset, observed) == 1
  {
    if values != [] {
      var n := |values| - 1;
      NoneExtreme(values[..n], offset + values[n], observed);
      OnlyMinus(values[..n], offset - values[n], observed, gap);
    }
  }

  lemma TwoHits(values: seq<real>, observed: real, gap: real)
    requires values != [] && gap > 0.0 && AllExceed(values, gap) && observed == Sum(values) - gap
    ensures observed > 0.0 && Hits(values, 0.0, observed) == 2
  {
    var n := |values| - 1;
    SumExceeds(values[..n]);
    OnlyPlus(values[..n], values[n], observed, gap);
    OnlyMinus(values[..n], -values[n], observed, gap);
  }

  /** When one system is better on every question, only keeping and flipping all signs is
      as extreme as the data: the p-value is 2 / 2^n, the smallest there is. */
  lemma ClearWinIsSmallest(diffs: seq<real>)
    requires diffs != [] && forall i :: 0 <= i < |diffs| ==> diffs[i] > 0.000000000001
    ensures PValue(diffs) == Share(2, |diffs|) == PValue(Negate(diffs))
  {
    TwoHits(diffs, Sum(diffs) - 0.000000000001, 0.000000000001);
    PValueNegated(diffs);
  }

  ghost predicate AsExtreme(signs: seq<bool>, diffs: seq<real>, bound: real) {
    |signs| == |diffs| && (SignedSum(diffs, signs) >= bound || SignedSum(diffs, signs) <= -bound)
  }

  /** The p-value in full: 1 for a negligible sum; otherwise the share, among all sign
      vectors, of those whose signed sum is as large as the observed one less 1e-12. */
  lemma PValueInFull(diffs: seq<real>, extreme: set<seq<bool>>)
    requires forall s :: s in extreme <==> AsExtreme(s, diffs, Abs(Sum(diffs)) - 0.000000000001)
    ensures PValue(diffs) == if Abs(Sum(diffs)) <= 0.000000000001 then 1.0 else Share(|extreme|, |diffs|)
  {
    if Abs(Sum(diffs)) > 0.000000000001 {
      var observed := Abs(Sum(diffs)) - 0.000000000001;
      PValueMeaning(diffs);
      forall s ensures s in extreme <==> s in ExtremeAssignments(diffs, 0.0, observed) {
        AssignmentsMember(|diffs|, s);
        if |s| == |diffs| {
          assert SignedSum(diffs, s) + 0.0 == SignedSum(diffs, s);
        }
      }
      assert extreme == ExtremeAssignments(diffs, 0.0, observed);
    }
  }
}
