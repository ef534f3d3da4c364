/** What the count of the sign-flip test means: the number of sign vectors, among all
    2^n of them, whose signed sum of the differences is extreme. */
module SignVectors {
  import opened SignFlip

  ghost function Extend(a: set<seq<bool>>, b: bool): set<seq<bool>> {
    set s | s in a :: s + [b]
  }

  /** All sign vectors of length `n`; `true` keeps the sign of a difference. */
  ghost function Assignments(n: nat): set<seq<bool>> {
    if n == 0 then {[]} else Extend(Assignments(n - 1), true) + Extend(Assignments(n - 1), false)
  }

  function Signed(v: real, keep: bool): real { if keep then v else -v }

  function SignedSum(values: seq<real>, signs: seq<bool>): real
    requires |signs| == |values|
  {
    if values == [] then 0.0
    else SignedSum(values[..|values| - 1], signs[..|values| - 1]) + Signed(values[|values| - 1], signs[|values| - 1])
  }

  ghost predicate IsExtreme(signs: seq<bool>, values: seq<real>, offset: real, observed: real) {
    |signs| == |values| && Extreme(SignedSum(values, signs) + offset, observed)
  }

  ghost function ExtremeAssignments(values: seq<real>, offset: real, observed: real): set<seq<bool>> {
    set s | s in Assignments(|values|) && IsExtreme(s, values, offset, observed)
  }

  lemma ExtendMember(a: set<seq<bool>>, b: bool, t: seq<bool>)
    ensures t in Extend(a, b) <==> |t| > 0 && t[|t| - 1] == b && t[..|t| - 1] in a
  {
    if t in Extend(a, b) {
      var s :| s in a && t == s + [b];
      assert t[..|t| - 1] == s;
    }
    if |t| > 0 && t[|t| - 1] == b {
      assert t == t[..|t| - 1] + [b];
    }
  }

  lemma {:induction false} ExtendCardinality(a: set<seq<bool>>, b: bool)
    ensures |Extend(a, b)| == |a|
  {
    if a == {} {
      assert Extend(a, b) == {};
    } else {
      var x :| x in a;
      ExtendCardinality(a - {x}, b);
      ExtendMember(a - {x}, b, x + [b]);
      assert (x + [b])[..|x|] == x;
      assert Extend(a, b) == Extend(a - {x}, b) + {x + [b]};
    }
  }

  lemma ExtendBoth(a: set<seq<bool>>, c: set<seq<bool>>)
    ensures |Extend(a, true) + Extend(c, false)| == |a| + |c|
  {
    ExtendCardinality(a, true);
    ExtendCardinality(c, false);
    forall t: seq<bool> ensures !(t in Extend(a, true) && t in Extend(c, false)) {
      ExtendMember(a, true, t);
      ExtendMember(c, false, t);
    }
    assert Extend(a, true) !! Extend(c, false);
  }

  lemma {:induction false} AssignmentsMember(n: nat, s: seq<bool>)
    ensures s in Assignments(n) <==> |s| == n
  {
    if n > 0 {
      ExtendMember(Assignments(n - 1), true, s);
      ExtendMember(Assignments(n - 1), false, s);
      if |s| > 0 {
        AssignmentsMember(n - 1, s[..|s| - 1]);
      }
    }
  }

  lemma {:induction false} AssignmentsCardinality(n: nat)
    ensures |Assignments(n)| == Pow2(n)
  {
    if n > 0 {
      AssignmentsCardinality(n - 1);
      ExtendBoth(Assignments(n - 1), Assignments(n - 1));
    }
  }

  lemma ExtremeSplitMember(init: seq<real>, v: real, offset: real, observed: real, s: seq<bool>)
    ensures s in ExtremeAssignments(init + [v], offset, observed)
       <==> |s| > 0 && s[..|s| - 1] in ExtremeAssignments(init, offset + Signed(v, s[|s| - 1]), observed)
  {
    AssignmentsMember(|init| + 1, s);
    if |s| == |init| + 1 {
      AssignmentsMember(|init|, s[..|s| - 1]);
      assert (init + [v])[..|init|] == init;
    } else if |s| > 0 {
      AssignmentsMember(|init|, s[..|s| - 1]);
    }
  }

  lemma ExtremeSplit(init: seq<real>, v: real, offset: real, observed: real)
    ensures ExtremeAssignments(init + [v], offset, observed)
         == Extend(ExtremeAssignments(init, offset + v, observed), true)
          + Extend(ExtremeAssignments(init, offset - v, observed), false)
  {
    var whole := ExtremeAssignments(init + [v], offset, observed);
    var plus := ExtremeAssignments(init, offset + v, observed);
    var minus := ExtremeAssignments(init, offset - v, observed);
    forall s: seq<bool> ensures s in whole <==> s in Extend(plus, true) + Extend(minus, false) {
      ExtremeSplitMember(init, v, offset, observed, s);
      ExtendMember(plus, true, s);
      ExtendMember(minus, false, s);
    }
  }

  lemma {:induction false} HitsCountAssignments(values: seq<real>, offset: real, observed: real)
    ensures Hits(values, offset, observed) == |ExtremeAssignments(values, offset, observed)|
  {
    if values == [] {
      assert SignedSum([], []) + offset == offset;
      assert ExtremeAssignments(values, offset, observed) == if Extreme(offset, observed) then {[]} else {};
    } else {
      var init, v := values[..|values| - 1], values[|values| - 1];
      assert values == init + [v];
      HitsCountAssignments(init, offset + v, observed);
      HitsCountAssignments(init, offset - v, observed);
      HitsCountStep(init, v, offset, observed);
    }
  }

  lemma HitsCountStep(init: seq<real>, v: real, offset: real, observed: real)
    requires Hits(init, offset + v, observed) == |ExtremeAssignments(init, offset + v, observed)|
    requires Hits(init, offset - v, observed) == |ExtremeAssignments(init, offset - v, observed)|
    ensures Hits(init + [v], offset, observed) == |ExtremeAssignments(init + [v], offset, observed)|
  {
    HitsAppend(init, v, offset, observed);
    ExtremeSplit(init, v, offset, observed);
    ExtendBoth(ExtremeAssignments(init, offset + v, observed), ExtremeAssignments(init, offset - v, observed));
  }

  /** The p-value is the share of sign vectors at least as extreme as the data. */
  lemma PValueMeaning(diffs: seq<real>)
    requires Abs(Sum(diffs)) > TOLERANCE
    ensures PValue(diffs) == Share(|ExtremeAssignments(diffs, 0.0, Abs(Sum(diffs)) - TOLERANCE)|, |diffs|)
  {
    var observed := Abs(Sum(diffs)) - TOLERANCE;
    HitsCountAssignments(diffs, 0.0, observed);
    ShareOfHits(diffs, observed, |ExtremeAssignments(diffs, 0.0, observed)|);
  }

  lemma ShareOfHits(diffs: seq<real>, observed: real, count: nat)
    requires observed == Abs(Sum(diffs)) - TOLERANCE > 0.0 && Hits(diffs, 0.0, observed) == count
    ensures PValue(diffs) == Share(count, |diffs|)
  {
  }
}
