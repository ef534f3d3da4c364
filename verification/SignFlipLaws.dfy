/** What the sign-flip p-value guarantees: its range, its symmetries, and that the
    test is exact, i.e. it never rejects more often than its level. */
module SignFlipLaws {
  import opened Basics
  import opened Sorting
  import opened SignFlip
  import opened SignVectors

  // ----- Range -----

  lemma {:induction false} ShareMonotone(a: nat, b: nat, n: nat)
    requires a <= b
    ensures Share(a, n) <= Share(b, n)
  {
    if n > 0 {
      ShareMonotone(a, b, n - 1);
    }
  }

  lemma {:induction false} ShareDouble(a: nat, n: nat)
    ensures Share(2 * a, n) == 2.0 * Share(a, n)
  {
    if n > 0 {
      ShareDouble(a, n - 1);
    }
  }

  lemma {:induction false} ShareOfAll(n: nat)
    ensures Share(Pow2(n), n) == 1.0
  {
    if n > 0 {
      ShareOfAll(n - 1);
      ShareDouble(Pow2(n - 1), n - 1);
    }
  }

  lemma {:induction false} HitsUpperBound(values: seq<real>, offset: real, observed: real)
    ensures Hits(values, offset, observed) <= Pow2(|values|)
  {
    if values != [] {
      var init, v := values[..|values| - 1], values[|values| - 1];
      HitsUpperBound(init, offset + v, observed);
      HitsUpperBound(init, offset - v, observed);
    }
  }

  /** Keeping every sign is counted, and so is flipping every sign. */
  lemma {:induction false} HitsLowerBound(values: seq<real>, offset: real, observed: real)
    requires Extreme(offset + Sum(values), observed) || Extreme(offset - Sum(values), observed)
    ensures Hits(values, offset, observed) >= 1
  {
    if values != [] {
      var init, v := values[..|values| - 1], values[|values| - 1];
      if Extreme(offset + Sum(values), observed) {
        assert offset + v + Sum(init) == offset + Sum(values);
        HitsLowerBound(init, offset + v, observed);
      } else {
        assert offset - v - Sum(init) == offset - Sum(values);
        HitsLowerBound(init, offset - v, observed);
      }
    }
  }

  lemma HitsBothSigns(diffs: seq<real>, observed: real)
    requires 0.0 < observed <= Abs(Sum(diffs))
    ensures Hits(diffs, 0.0, observed) >= 2
  {
    var init, v := diffs[..|diffs| - 1], diffs[|diffs| - 1];
    HitsLowerBound(init, 0.0 + v, observed);
    HitsLowerBound(init, 0.0 - v, observed);
  }

  /** The observed assignment and its mirror image are always counted, so the
      p-value is never below 2 / 2^n. */
  lemma PValueRange(diffs: seq<real>)
    ensures PValue(diffs) <= 1.0
    ensures diffs != [] ==> Share(2, |diffs|) <= PValue(diffs)
  {
    var n := |diffs|;
    ShareOfAll(n);
    if Abs(Sum(diffs)) > TOLERANCE {
      var observed := Abs(Sum(diffs)) - TOLERANCE;
      HitsBothSigns(diffs, observed);
      HitsUpperBound(diffs, 0.0, observed);
      ShareMonotone(2, Hits(diffs, 0.0, observed), n);
      ShareMonotone(Hits(diffs, 0.0, observed), Pow2(n), n);
    } else if n > 0 {
      assert Pow2(n) == 2 * Pow2(n - 1);
      ShareMonotone(2, Pow2(n), n);
    }
  }

  // ----- Symmetries -----

  lemma WithoutInit(values: seq<real>, i: nat, rest: seq<real>)
    requires i < |values| - 1 && rest == Without(values, i)
    ensures |rest| > 0 && rest[|rest| - 1] == values[|values| - 1]
    ensures rest[..|rest| - 1] == Without(values[..|values| - 1], i)
  {
  }

  /** Any value, wherever it stands, splits the count into its two signs. */
  lemma {:induction false} HitsRemove(values: seq<real>, i: nat, rest: seq<real>, offset: real, observed: real)
    requires i < |values| && rest == Without(values, i)
    ensures Hits(values, offset, observed) == Hits(rest, offset + values[i], observed) + Hits(rest, offset - values[i], observed)
    decreases |values|
  {
    var init, v := values[..|values| - 1], values[|values| - 1];
    if i == |init| {
      assert rest == init;
    } else {
      WithoutInit(values, i, rest);
      var r := rest[..|rest| - 1];
      RemoveStep(init, values, r, rest, v, init[i], offset, observed) by {
        HitsRemove(init, i, r, offset + v, observed);
        HitsRemove(init, i, r, offset - v, observed);
      }
    }
  }

  lemma RemoveStep(init: seq<real>, values: seq<real>, r: seq<real>, rest: seq<real>, v: real, x: real, offset: real, observed: real)
    requires values == init + [v] && rest == r + [v]
    requires Hits(init, offset + v, observed) == Hits(r, offset + v + x, observed) + Hits(r, offset + v - x, observed)
    requires Hits(init, offset - v, observed) == Hits(r, offset - v + x, observed) + Hits(r, offset - v - x, observed)
    ensures Hits(values, offset, observed) == Hits(rest, offset + x, observed) + Hits(rest, offset - x, observed)
  {
    HitsAppend(init, v, offset, observed);
    HitsAppend(r, v, offset + x, observed);
    HitsAppend(r, v, offset - x, observed);
    assert offset + x + v == offset + v + x && offset + x - v == offset - v + x;
    assert offset - x + v == offset + v - x && offset - x - v == offset - v - x;
  }

  lemma {:induction false} SumRemove(values: seq<real>, i: nat)
    requires i < |values|
    ensures Sum(values) == Sum(Without(values, i)) + values[i]
    decreases |values|
  {
    var init, v := values[..|values| - 1], values[|values| - 1];
    if i == |init| {
      assert Without(values, i) == init;
    } else {
      SumRemove(init, i);
      assert Without(values, i) == Without(init, i) + [v];
      assert Without(values, i)[..|values| - 2] == Without(init, i);
    }
  }

  lemma {:induction false} SumReordered(a: seq<real>, b: seq<real>)
    requires multiset(a) == multiset(b)
    ensures Sum(a) == Sum(b) && |a| == |b|
    decreases |a|
  {
    assert |multiset(a)| == |a| && |multiset(b)| == |b|;
    if a != [] {
      var i := FindInPermutation(a, b);
      assert Without(a, 0) == a[1..];
      SumRemove(a, 0);
      SumRemove(b, i);
      SumReordered(a[1..], Without(b, i));
    }
  }

  lemma {:induction false} HitsReordered(a: seq<real>, b: seq<real>, offset: real, observed: real)
    requires multiset(a) == multiset(b)
    ensures Hits(a, offset, observed) == Hits(b, offset, observed)
    decreases |a|
  {
    assert |multiset(a)| == |a| && |multiset(b)| == |b|;
    if a != [] {
      var i := FindInPermutation(a, b);
      assert Without(a, 0) == a[1..];
      HitsReordered(a[1..], Without(b, i), offset + a[0], observed);
      HitsReordered(a[1..], Without(b, i), offset - a[0], observed);
      HitsRemove(a, 0, a[1..], offset, observed);
      HitsRemove(b, i, Without(b, i), offset, observed);
    }
  }

  /** The order of the questions does not matter. */
  lemma PValuePermuted(a: seq<real>, b: seq<real>)
    requires multiset(a) == multiset(b)
    ensures PValue(a) == PValue(b)
  {
    SumReordered(a, b);
    HitsReordered(a, b, 0.0, Abs(Sum(a)) - TOLERANCE);
  }

  /** The differences with some of their signs flipped: a point of the null orbit. */
  function Flip(values: seq<real>, signs: seq<bool>): (r: seq<real>)
    requires |signs| == |values|
    ensures |r| == |values|
  {
    if values == [] then []
    else
      var n := |values| - 1;
      Flip(values[..n], signs[..n]) + [Signed(values[n], signs[n])]
  }

  lemma {:induction false} SumFlipped(values: seq<real>, signs: seq<bool>)
    requires |signs| == |values|
    ensures Sum(Flip(values, signs)) == SignedSum(values, signs)
    decreases |values|
  {
    if values != [] {
      var n := |values| - 1;
      SumFlipped(values[..n], signs[..n]);
      assert Flip(values, signs)[..n] == Flip(values[..n], signs[..n]);
    }
  }

  lemma {:induction false} HitsFlipped(values: seq<real>, signs: seq<bool>, offset: real, observed: real)
    requires |signs| == |values|
    ensures Hits(Flip(values, signs), offset, observed) == Hits(values, offset, observed)
    decreases |values|
  {
    if values != [] {
      var n := |values| - 1;
      var init, v := values[..n], values[n];
      assert values == init + [v];
      HitsFlipped(init, signs[..n], offset + v, observed);
      HitsFlipped(init, signs[..n], offset - v, observed);
      FlipStep(init, v, values, Flip(init, signs[..n]), signs[n], offset, observed);
    }
  }

  lemma FlipStep(init: seq<real>, v: real, values: seq<real>, flipped: seq<real>, keep: bool, offset: real, observed: real)
    requires values == init + [v]
    requires Hits(flipped, offset + v, observed) == Hits(init, offset + v, observed)
    requires Hits(flipped, offset - v, observed) == Hits(init, offset - v, observed)
    ensures Hits(flipped + [Signed(v, keep)], offset, observed) == Hits(values, offset, observed)
  {
    HitsAppend(init, v, offset, observed);
    HitsAppend(flipped, Signed(v, keep), offset, observed);
    assert offset - (-v) == offset + v && offset + (-v) == offset - v;
  }

  function Negate(values: seq<real>): (r: seq<real>)
    ensures |r| == |values|
    ensures forall i :: 0 <= i < |values| ==> r[i] == -values[i]
  {
    seq(|values|, i requires 0 <= i < |values| => -values[i])
  }

  lemma {:induction false} HitsNegated(values: seq<real>, offset: real, observed: real)
    ensures Hits(Negate(values), offset, observed) == Hits(values, offset, observed)
    ensures Sum(Negate(values)) == -Sum(values)
  {
    if values != [] {
      var n := |values| - 1;
      HitsNegated(values[..n], offset + values[n], observed);
      HitsNegated(values[..n], offset - values[n], observed);
      assert Negate(values)[..n] == Negate(values[..n]);
      assert offset - (-values[n]) == offset + values[n];
    }
  }

  /** Swapping the two systems does not change the p-value. */
  lemma PValueNegated(diffs: seq<real>)
    ensures PValue(Negate(diffs)) == PValue(diffs)
  {
    HitsNegated(diffs, 0.0, Abs(Sum(diffs)) - TOLERANCE);
  }

  // ----- Exactness -----

  /** The test rejects at this level on the outcome that has these signs. */
  ghost predicate Rejects(signs: seq<bool>, diffs: seq<real>, level: real) {
    |signs| == |diffs| && PValue(Flip(diffs, signs)) <= level
  }

  ghost predicate NoLessExtreme(s: seq<bool>, least: seq<bool>, diffs: seq<real>) {
    |s| == |least| == |diffs| && Abs(SignedSum(diffs, least)) <= Abs(SignedSum(diffs, s))
  }

  lemma {:induction false} LeastExtreme(diffs: seq<real>, outcomes: set<seq<bool>>) returns (least: seq<bool>)
    requires outcomes != {} && forall s {:trigger s in outcomes} :: s in outcomes ==> |s| == |diffs|
    ensures least in outcomes
    ensures forall s :: s in outcomes ==> NoLessExtreme(s, least, diffs)
    decreases |outcomes|
  {
    var x :| x in outcomes;
    var rest := outcomes - {x};
    least := x;
    if rest != {} {
      var other := LeastExtreme(diffs, rest);
      if Abs(SignedSum(diffs, other)) < Abs(SignedSum(diffs, x)) {
        least := other;
      }
    }
    forall s | s in outcomes ensures NoLessExtreme(s, least, diffs) {
      assert s == x || s in rest;
    }
  }

  lemma ExtremeMember(diffs: seq<real>, s: seq<bool>, observed: real)
    requires |s| == |diffs| && Abs(SignedSum(diffs, s)) >= observed
    ensures s in ExtremeAssignments(diffs, 0.0, observed)
  {
    AssignmentsMember(|diffs|, s);
    assert SignedSum(diffs, s) + 0.0 == SignedSum(diffs, s);
  }

  lemma LeastBoundsAll(diffs: seq<real>, outcomes: set<seq<bool>>, least: seq<bool>, observed: real)
    requires |least| == |diffs| && Abs(SignedSum(diffs, least)) >= observed
    requires forall s :: s in outcomes ==> NoLessExtreme(s, least, diffs)
    ensures |outcomes| <= Hits(diffs, 0.0, observed)
  {
    var extreme := ExtremeAssignments(diffs, 0.0, observed);
    forall s | s in outcomes ensures s in extreme {
      assert NoLessExtreme(s, least, diffs);
      ExtremeMember(diffs, s, observed);
    }
    SubsetCardinality(outcomes, extreme);
    HitsCountAssignments(diffs, 0.0, observed);
  }

  lemma AllOutcomes(diffs: seq<real>, outcomes: set<seq<bool>>, least: seq<bool>)
    requires forall s :: s in outcomes ==> NoLessExtreme(s, least, diffs)
    ensures |outcomes| <= Pow2(|diffs|)
  {
    forall s | s in outcomes ensures s in Assignments(|diffs|) {
      assert NoLessExtreme(s, least, diffs);
      AssignmentsMember(|diffs|, s);
    }
    SubsetCardinality(outcomes, Assignments(|diffs|));
    AssignmentsCardinality(|diffs|);
  }

  /** A rejected outcome whose statistic is not negligible bounds the level from below. */
  lemma RejectedShare(diffs: seq<real>, level: real, s: seq<bool>, observed: real)
    requires Rejects(s, diffs, level) && observed == Abs(SignedSum(diffs, s)) - TOLERANCE > 0.0
    ensures Share(Hits(diffs, 0.0, observed), |diffs|) <= level
  {
    SumFlipped(diffs, s);
    HitsFlipped(diffs, s, 0.0, observed);
  }

  lemma DegenerateLevel(diffs: seq<real>, level: real, s: seq<bool>)
    requires Rejects(s, diffs, level) && Abs(SignedSum(diffs, s)) <= TOLERANCE
    ensures Share(Pow2(|diffs|), |diffs|) <= level
  {
    SumFlipped(diffs, s);
    ShareOfAll(|diffs|);
  }

  lemma ExtremeBound(diffs: seq<real>, level: real, rejected: set<seq<bool>>, least: seq<bool>, observed: real)
    requires |least| == |diffs| && Abs(SignedSum(diffs, least)) >= observed
    requires forall s :: s in rejected ==> NoLessExtreme(s, least, diffs)
    requires Share(Hits(diffs, 0.0, observed), |diffs|) <= level
    ensures Share(|rejected|, |diffs|) <= level
  {
    LeastBoundsAll(diffs, rejected, least, observed);
    ShareMonotone(|rejected|, Hits(diffs, 0.0, observed), |diffs|);
  }

  lemma DegenerateBound(diffs: seq<real>, level: real, rejected: set<seq<bool>>, least: seq<bool>)
    requires forall s :: s in rejected ==> NoLessExtreme(s, least, diffs)
    requires Share(Pow2(|diffs|), |diffs|) <= level
    ensures Share(|rejected|, |diffs|) <= level
  {
    AllOutcomes(diffs, rejected, least);
    ShareMonotone(|rejected|, Pow2(|diffs|), |diffs|);
  }

  lemma {:induction false} ShareOfNone(n: nat)
    ensures Share(0, n) == 0.0
  {
    if n > 0 {
      ShareOfNone(n - 1);
    }
  }

  /** The test is exact: when every sign assignment is equally likely, p-values of at
      most `level` come up in at most that share of the 2^n outcomes. */
  lemma {:induction false} TestIsExact(diffs: seq<real>, level: real, rejected: set<seq<bool>>)
    requires level >= 0.0
    requires forall s :: s in rejected ==> Rejects(s, diffs, level)
    ensures Share(|rejected|, |diffs|) <= level
  {
    if rejected == {} {
      ShareOfNone(|diffs|);
    } else {
      var least := LeastExtreme(diffs, rejected);
      var observed := Abs(SignedSum(diffs, least)) - TOLERANCE;
      if observed > 0.0 {
        RejectedShare(diffs, level, least, observed);
        ExtremeBound(diffs, level, rejected, least, observed);
      } else {
        DegenerateLevel(diffs, level, least);
        DegenerateBound(diffs, level, rejected, least);
      }
    }
  }
}
