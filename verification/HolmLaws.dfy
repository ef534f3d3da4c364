/** What the Holm correction guarantees: agreement with the step-down procedure, control
    of the familywise error, and the behaviour of the adjusted values under reordering. */
module HolmLaws {
  import opened Basics
  import opened Holm

  // ----- The step-down procedure -----

  ghost predicate IsLeast(p: seq<real>, remaining: set<nat>, i: nat) {
    i < |p| && i in remaining && forall k: nat :: k in remaining && k < |p| ==> p[i] <= p[k]
  }

  lemma {:induction false} LeastExists(p: seq<real>, remaining: set<nat>)
    requires remaining != {} && forall k :: k in remaining ==> k < |p|
    ensures exists i: nat :: IsLeast(p, remaining, i)
    decreases |remaining|
  {
    var x :| x in remaining;
    var rest := remaining - {x};
    if rest == {} {
      assert remaining == {x};
      assert IsLeast(p, remaining, x);
    } else {
      LeastExists(p, rest);
      var y: nat :| IsLeast(p, rest, y);
      assert IsLeast(p, remaining, if p[x] <= p[y] then x else y);
    }
  }

  /** Test the most significant remaining hypothesis against level / (number remaining);
      reject it and go on, or stop. */
  ghost function StepDown(p: seq<real>, remaining: set<nat>, level: real): (rejected: set<nat>)
    requires forall k :: k in remaining ==> k < |p|
    ensures rejected <= remaining
    decreases |remaining|
  {
    if remaining == {} then {}
    else
      LeastExists(p, remaining);
      var i: nat :| IsLeast(p, remaining, i);
      if |remaining| as real * p[i] <= level then {i} + StepDown(p, remaining - {i}, level) else {}
  }

  ghost function All(p: seq<real>): set<nat> { set k | k in Range(|p|) }

  lemma AllMember(p: seq<real>, k: nat)
    ensures k in All(p) <==> k < |p|
  {
    if k < |p| {
      assert Range(|p|)[k] == k;
    }
  }

  /** A stage of the procedure: all that was rejected is at least as significant as all
      that remains, and passes. */
  ghost predicate IsStage(p: seq<real>, remaining: set<nat>, level: real) {
    && (forall k :: k in remaining ==> k < |p|)
    && (forall k: nat, r: nat :: k < |p| && k !in remaining && r in remaining ==> p[k] <= p[r])
    && (forall k: nat :: k < |p| && k !in remaining ==> Passes(p, k, level))
  }

  lemma StageTest(p: seq<real>, remaining: set<nat>, level: real, i: nat)
    requires IsStage(p, remaining, level) && IsLeast(p, remaining, i) && level >= 0.0
    ensures Scaled(|remaining|, p[i]) <= level <==> Passes(p, i, level)
  {
    assert remaining <= AtLeast(p, p[i]);
    SubsetCardinality(remaining, AtLeast(p, p[i]));
    if k: nat :| k < |p| && k !in remaining && p[k] == p[i] {
      assert Passes(p, k, level);
    } else {
      assert AtLeast(p, p[i]) <= remaining;
      assert AtLeast(p, p[i]) == remaining;
    }
    if Passes(p, i, level) {
      ScaledMonotone(|remaining|, |AtLeast(p, p[i])|, p[i], level);
    }
  }

  lemma StagePasses(p: seq<real>, remaining: set<nat>, level: real, i: nat, k: nat)
    requires IsStage(p, remaining, level) && IsLeast(p, remaining, i) && Passes(p, i, level)
    requires k < |p| && p[k] <= p[i]
    ensures Passes(p, k, level)
  {
    if k in remaining {
      assert p[k] == p[i];
    }
  }

  lemma {:induction false} StepDownFromStage(p: seq<real>, remaining: set<nat>, level: real, i: nat)
    requires IsStage(p, remaining, level) && level >= 0.0 && i in remaining
    ensures i in StepDown(p, remaining, level) <==> StepsDown(p, i, level)
    decreases |remaining|
  {
    LeastExists(p, remaining);
    var least: nat :| IsLeast(p, remaining, least)
              && StepDown(p, remaining, level)
              == if |remaining| as real * p[least] <= level then {least} + StepDown(p, remaining - {least}, level) else {};
    StageTest(p, remaining, level, least);
    if Passes(p, least, level) {
      var rest := remaining - {least};
      assert IsStage(p, rest, level);
      if i == least {
        forall k: nat | k < |p| && p[k] <= p[i] ensures Passes(p, k, level) {
          StagePasses(p, remaining, level, least, k);
        }
      } else {
        StepDownFromStage(p, rest, level, i);
      }
    } else {
      assert p[least] <= p[i];
    }
  }

  /** An adjusted value is at most a level exactly when step-down testing rejects there. */
  lemma AgreesWithStepDown(p: seq<real>, adjusted: seq<real>, level: real, i: nat)
    requires IsHolm(p, adjusted) && 0.0 <= level < 1.0 && i < |p|
    ensures forall k :: k in All(p) ==> k < |p|
    ensures adjusted[i] <= level <==> i in StepDown(p, All(p), level)
  {
    assert IsHolmValue(p, i, adjusted[i]);
    forall k: nat ensures k in All(p) <==> k < |p| { AllMember(p, k); }
    StepDownFromStage(p, All(p), level, i);
  }

  // ----- Familywise error -----

  /** The deterministic core of familywise error control: if every true null hypothesis
      misses the Bonferroni bound for the true nulls alone, then none is rejected. */
  lemma NoFalseRejection(p: seq<real>, adjusted: seq<real>, nulls: set<nat>, level: real, i: nat)
    requires IsHolm(p, adjusted) && 0.0 <= level < 1.0
    requires forall k :: k in nulls ==> k < |p| && |nulls| as real * p[k] > level
    requires i in nulls
    ensures adjusted[i] > level
  {
    LeastExists(p, nulls);
    var least: nat :| IsLeast(p, nulls, least);
    SubsetCardinality(nulls, AtLeast(p, p[least]));
    if Passes(p, least, level) {
      ScaledMonotone(|nulls|, |AtLeast(p, p[least])|, p[least], level);
      assert false;
    }
    assert IsHolmValue(p, i, adjusted[i]);
    assert !StepsDown(p, i, level);
  }

  // ----- Order, ties, bounds -----

  lemma HolmValueMonotone(p: seq<real>, i: nat, a: real, q: seq<real>, j: nat, b: real)
    requires i < |p| && j < |q| && IsHolmValue(p, i, a) && IsHolmValue(q, j, b)
    requires forall level :: 0.0 <= level < 1.0 && StepsDown(q, j, level) ==> StepsDown(p, i, level)
    ensures a <= b
  {
    if b < 1.0 {
      assert StepsDown(q, j, b);
      assert StepsDown(p, i, b);
    }
  }

  /** A smaller p-value never gets a larger adjusted value; equal ones get equal ones. */
  lemma OrderPreserved(p: seq<real>, adjusted: seq<real>, i: nat, j: nat)
    requires IsHolm(p, adjusted) && i < |p| && j < |p| && p[i] <= p[j]
    ensures adjusted[i] <= adjusted[j]
    ensures p[i] == p[j] ==> adjusted[i] == adjusted[j]
  {
    HolmValueMonotone(p, i, adjusted[i], p, j, adjusted[j]);
    if p[i] == p[j] {
      HolmValueMonotone(p, j, adjusted[j], p, i, adjusted[i]);
    }
  }

  /** Correction never helps, and never costs more than Bonferroni. */
  lemma AdjustedBounds(p: seq<real>, adjusted: seq<real>, i: nat)
    requires IsHolm(p, adjusted) && i < |p| && 0.0 <= p[i] <= 1.0
    ensures p[i] <= adjusted[i] <= 1.0 && adjusted[i] <= |p| as real * p[i]
  {
    assert IsHolmValue(p, i, adjusted[i]);
    if adjusted[i] < 1.0 {
      assert StepsDown(p, i, adjusted[i]);
      assert Passes(p, i, adjusted[i]);
      SubsetCardinality({i}, AtLeast(p, p[i]));
      ScaledMonotone(1, |AtLeast(p, p[i])|, p[i], adjusted[i]);
    }
    var bound := Scaled(|p|, p[i]);
    if bound < 1.0 {
      assert bound >= 0.0;
      forall j: nat | j < |p| && p[j] <= p[i] ensures Passes(p, j, bound) {
        AtMostAll(p, p[j]);
        ScaledGrows(|p|, p[j], p[i]);
        ScaledMonotone(|AtLeast(p, p[j])|, |p|, p[j], bound);
      }
      assert StepsDown(p, i, bound);
    }
  }

  /** The most significant value pays the full Bonferroni factor. */
  lemma SmallestAdjusted(p: seq<real>, adjusted: seq<real>, i: nat)
    requires IsHolm(p, adjusted) && i < |p| && p[i] >= 0.0
    requires forall k :: 0 <= k < |p| ==> p[i] <= p[k]
    ensures adjusted[i] == if |p| as real * p[i] < 1.0 then |p| as real * p[i] else 1.0
  {
    var value, bound := adjusted[i], |p| as real * p[i];
    assert IsHolmValue(p, i, value);
    assert bound >= 0.0;
    if bound < 1.0 {
      SmallestSteps(p, i, bound);
    }
    if value < 1.0 {
      SmallestSteps(p, i, value);
    }
  }

  lemma SmallestSteps(p: seq<real>, i: nat, level: real)
    requires i < |p| && forall k :: 0 <= k < |p| ==> p[i] <= p[k]
    ensures StepsDown(p, i, level) <==> |p| as real * p[i] <= level
  {
    forall k: nat ensures k in AtLeast(p, p[i]) <==> k in All(p) {
      AllMember(p, k);
    }
    assert AtLeast(p, p[i]) == All(p);
    AllSize(p);
    assert Passes(p, i, level) <==> Scaled(|p|, p[i]) <= level;
  }

  lemma {:induction false} AllSize(p: seq<real>)
    ensures |All(p)| == |p|
  {
    if p != [] {
      var init := p[..|p| - 1];
      AllSize(init);
      forall k: nat ensures k in All(p) <==> k in All(init) + {|p| - 1} {
        AllMember(p, k);
        AllMember(init, k);
      }
      AllMember(init, |p| - 1);
      assert All(p) == All(init) + {|p| - 1};
    }
  }

  lemma ScaledGrows(c: nat, x: real, y: real)
    requires x <= y
    ensures Scaled(c, x) <= Scaled(c, y)
  {
    assert c as real * x <= c as real * y;
  }

  lemma AtMostAll(p: seq<real>, x: real)
    ensures |AtLeast(p, x)| <= |p|
  {
    forall k | k in AtLeast(p, x) ensures k in Slots(Range(|p|), 0) {
      assert Range(|p|)[k] == k;
    }
    SubsetCardinality(AtLeast(p, x), Slots(Range(|p|), 0));
    SlotsCardinality(Range(|p|), 0);
  }

  // ----- Reordering -----

  /** `q` is `p` reordered: position `i` of `q` holds position `perm[i]` of `p`. */
  ghost predicate IsReordering(p: seq<real>, q: seq<real>, perm: seq<nat>) {
    && |perm| == |p| == |q|
    && (forall i: nat :: i < |q| ==> perm[i] < |p| && q[i] == p[perm[i]])
    && (forall i: nat, j: nat :: i < j < |q| ==> perm[i] != perm[j])
    && (forall k: nat :: k < |p| ==> k in perm)
  }

  ghost function Image(perm: seq<nat>, s: set<nat>): set<nat> {
    set i: nat | i in s && i < |perm| :: perm[i]
  }

  lemma {:induction false} ImageCardinality(perm: seq<nat>, s: set<nat>)
    requires forall i: nat, j: nat :: i < j < |perm| ==> perm[i] != perm[j]
    requires forall i :: i in s ==> i < |perm|
    ensures |Image(perm, s)| == |s|
  {
    if s == {} {
      assert Image(perm, s) == {};
    } else {
      var x :| x in s;
      ImageCardinality(perm, s - {x});
      assert Image(perm, s) == Image(perm, s - {x}) + {perm[x]};
      assert perm[x] !in Image(perm, s - {x});
    }
  }

  lemma CountReordered(p: seq<real>, q: seq<real>, perm: seq<nat>, x: real)
    requires IsReordering(p, q, perm)
    ensures |AtLeast(q, x)| == |AtLeast(p, x)|
  {
    ImageCardinality(perm, AtLeast(q, x));
    forall k ensures k in Image(perm, AtLeast(q, x)) <==> k in AtLeast(p, x) {
      if k in AtLeast(p, x) {
        assert k in perm;
        var i: nat :| i < |perm| && perm[i] == k;
        assert i in AtLeast(q, x);
      }
    }
    assert Image(perm, AtLeast(q, x)) == AtLeast(p, x);
  }

  lemma StepsDownReordered(p: seq<real>, q: seq<real>, perm: seq<nat>, i: nat, level: real)
    requires IsReordering(p, q, perm) && i < |q|
    ensures StepsDown(q, i, level) <==> StepsDown(p, perm[i], level)
  {
    forall j: nat | j < |q| ensures Passes(q, j, level) <==> Passes(p, perm[j], level) {
      CountReordered(p, q, perm, q[j]);
    }
    if StepsDown(q, i, level) {
      forall k: nat | k < |p| && p[k] <= p[perm[i]] ensures Passes(p, k, level) {
        assert k in perm;
        var j: nat :| j < |perm| && perm[j] == k;
        assert Passes(q, j, level);
      }
    }
  }

  /** Reordering the p-values reorders the adjusted values in the same way. */
  lemma Equivariant(p: seq<real>, a: seq<real>, q: seq<real>, b: seq<real>, perm: seq<nat>, i: nat)
    requires IsReordering(p, q, perm) && IsHolm(p, a) && IsHolm(q, b) && i < |q|
    ensures b[i] == a[perm[i]]
  {
    forall level ensures StepsDown(q, i, level) <==> StepsDown(p, perm[i], level) {
      StepsDownReordered(p, q, perm, i, level);
    }
    assert IsHolmValue(p, perm[i], a[perm[i]]);
    HolmValueMonotone(p, perm[i], a[perm[i]], q, i, b[i]);
    HolmValueMonotone(q, i, b[i], p, perm[i], a[perm[i]]);
  }

  /** The characterisation leaves no choice. */
  lemma HolmUnique(p: seq<real>, a: seq<real>, b: seq<real>)
    requires IsHolm(p, a) && IsHolm(p, b)
    ensures a == b
  {
    forall i: nat | i < |p| ensures a[i] == b[i] {
      HolmValueMonotone(p, i, a[i], p, i, b[i]);
      HolmValueMonotone(p, i, b[i], p, i, a[i]);
    }
  }
}
