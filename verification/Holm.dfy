/** Holm-Bonferroni adjustment of evaluation/pooled.py: a running maximum over the
    sorted p-values, written back in input order.

    `IsHolm` says what adjusted values are, without any order: at every level below 1
    they reject exactly the hypotheses that pass together with everything at least as
    significant. All laws follow from that characterisation, which determines the
    adjusted values uniquely. */
module Holm {
  import opened Basics
  import opened Sorting

  function Max(x: real, y: real): real { if x < y then y else x }

  function Min(x: real, y: real): real { if y < x then y else x }

  function Scaled(count: nat, x: real): real { count as real * x }

  lemma ScaledMonotone(c: nat, d: nat, x: real, level: real)
    requires c <= d && level >= 0.0 && Scaled(d, x) <= level
    ensures Scaled(c, x) <= level
  {
    if x >= 0.0 {
      assert c as real * x <= d as real * x;
    } else {
      assert c as real * x <= 0.0;
    }
  }

  // ----- What the adjusted values mean -----

  ghost function AtLeast(p: seq<real>, x: real): set<nat> {
    set k: nat | k < |p| && p[k] >= x
  }

  /** Hypothesis `j` survives the correction for everything not more significant. */
  ghost predicate Passes(p: seq<real>, j: nat, level: real)
    requires j < |p|
  {
    Scaled(|AtLeast(p, p[j])|, p[j]) <= level
  }

  ghost predicate StepsDown(p: seq<real>, i: nat, level: real)
    requires i < |p|
  {
    forall j: nat :: j < |p| && p[j] <= p[i] ==> Passes(p, j, level)
  }

  ghost predicate IsHolmValue(p: seq<real>, i: nat, value: real)
    requires i < |p|
  {
    && 0.0 <= value <= 1.0
    && forall level :: 0.0 <= level < 1.0 ==> (value <= level <==> StepsDown(p, i, level))
  }

  ghost predicate IsHolm(p: seq<real>, adjusted: seq<real>) {
    |adjusted| == |p| && forall i: nat :: i < |p| ==> IsHolmValue(p, i, adjusted[i])
  }

  // ----- The program -----

  function At(p: seq<real>, i: nat): real { if i < |p| then p[i] else 0.0 }

  function ByP(p: seq<real>): (nat, nat) -> bool {
    (i: nat, j: nat) => At(p, i) <= At(p, j)
  }

  function Range(n: nat): (r: seq<nat>)
    ensures |r| == n && forall i :: 0 <= i < n ==> r[i] == i
  {
    seq(n, i requires 0 <= i < n => i)
  }

  ghost predicate IsRanking(p: seq<real>, order: seq<nat>) {
    && |order| == |p|
    && Distinct(order)
    && (forall q :: 0 <= q < |order| ==> order[q] < |p|)
    && (forall k: nat :: k < |p| ==> k in order)
    && forall q, r :: 0 <= q <= r < |order| ==> At(p, order[q]) <= At(p, order[r])
  }

  lemma RankingIsSorted(p: seq<real>)
    ensures IsRanking(p, Sort(Range(|p|), ByP(p)))
  {
    var range, order := Range(|p|), Sort(Range(|p|), ByP(p));
    SortMultiset(range, ByP(p));
    SortSorted(range, ByP(p));
    SortMembers(range, ByP(p));
    DistinctByMultiset(range, order);
    forall q | 0 <= q < |order| ensures order[q] < |p| {
      assert order[q] in order;
    }
    forall k: nat | k < |p| ensures k in order {
      assert range[k] == k;
    }
    forall q, r | 0 <= q <= r < |order| ensures At(p, order[q]) <= At(p, order[r]) {
      assert q < r ==> ByP(p)(order[q], order[r]);
    }
  }

  lemma RankOf(p: seq<real>, order: seq<nat>, k: nat) returns (q: nat)
    requires IsRanking(p, order) && k < |p|
    ensures q < |order| && order[q] == k
  {
    assert k in order;
    q :| 0 <= q < |order| && order[q] == k;
  }

  ghost function RunningMax(p: seq<real>, order: seq<nat>, n: nat): real
    requires n <= |order| == |p|
  {
    if n == 0 then 0.0
    else Max(RunningMax(p, order, n - 1), Scaled(|p| - (n - 1), At(p, order[n - 1])))
  }

  /** The first `n` ranks have their values. */
  ghost predicate Written(p: seq<real>, order: seq<nat>, values: seq<real>, n: nat) {
    && n <= |order| == |p| == |values|
    && forall q :: 0 <= q < n ==> At(values, order[q]) == Min(1.0, RunningMax(p, order, q + 1))
  }

  lemma WriteNext(p: seq<real>, order: seq<nat>, values: seq<real>, n: nat)
    requires IsRanking(p, order) && Written(p, order, values, n) && n < |p|
    ensures Written(p, order, values[order[n] := Min(1.0, RunningMax(p, order, n + 1))], n + 1)
  {
  }

  method Holm(p: seq<real>) returns (adjusted: seq<real>)
    ensures IsHolm(p, adjusted)
  {
    var values := new real[|p|](_ => 0.0);
    var order := Sort(Range(|p|), ByP(p));
    RankingIsSorted(p);
    var running := 0.0;
    for rank := 0 to |p|
      invariant running == RunningMax(p, order, rank)
      invariant Written(p, order, values[..], rank)
    {
      var index := order[rank];
      running := Max(running, Scaled(|p| - rank, p[index]));
      WriteNext(p, order, values[..], rank);
      values[index] := Min(1.0, running);
    }
    adjusted := values[..];
    RankedValues(p, order, adjusted);
  }

  // ----- The running maximum has that meaning -----

  lemma {:induction false} RunningMaxBound(p: seq<real>, order: seq<nat>, n: nat, level: real)
    requires n <= |order| == |p| && level >= 0.0
    ensures RunningMax(p, order, n) >= 0.0
    ensures RunningMax(p, order, n) <= level
       <==> forall q :: 0 <= q < n ==> Scaled(|p| - q, At(p, order[q])) <= level
  {
    if n > 0 {
      RunningMaxBound(p, order, n - 1, level);
    }
  }

  ghost function Slots(order: seq<nat>, lo: nat): set<nat>
    requires lo <= |order|
  {
    set q | lo <= q < |order| :: order[q]
  }

  lemma {:induction false} SlotsCardinality(order: seq<nat>, lo: nat)
    requires lo <= |order| && Distinct(order)
    ensures |Slots(order, lo)| == |order| - lo
    decreases |order| - lo
  {
    if lo < |order| {
      SlotsCardinality(order, lo + 1);
      assert order[lo] !in Slots(order, lo + 1);
      assert Slots(order, lo) == Slots(order, lo + 1) + {order[lo]};
    }
  }

  /** From rank `q` on, every value is at least that of rank `q`. */
  lemma RankBoundsCount(p: seq<real>, order: seq<nat>, q: nat)
    requires IsRanking(p, order) && q < |p|
    ensures |p| - q <= |AtLeast(p, p[order[q]])|
  {
    SlotsCardinality(order, q);
    forall k | k in Slots(order, q) ensures k in AtLeast(p, p[order[q]]) {
      var r :| q <= r < |order| && order[r] == k;
      assert At(p, order[q]) <= At(p, order[r]);
    }
    SubsetCardinality(Slots(order, q), AtLeast(p, p[order[q]]));
  }

  /** The first rank with a given value counts the values that are at least as large. */
  lemma FirstRank(p: seq<real>, order: seq<nat>, j: nat, q: nat) returns (first: nat)
    requires IsRanking(p, order) && j < |p| && q < |p| && p[j] <= p[order[q]]
    ensures first <= q && p[order[first]] == p[j]
    ensures |AtLeast(p, p[j])| == |p| - first
  {
    var r := RankOf(p, order, j);
    first := if r <= q then r else q;
    assert At(p, order[first]) == p[j] by {
      assert r > q ==> At(p, order[q]) <= At(p, order[r]);
    }
    while first > 0 && p[order[first - 1]] == p[j]
      invariant first <= q && p[order[first]] == p[j]
    {
      first := first - 1;
    }
    forall k: nat ensures k in AtLeast(p, p[j]) <==> k in Slots(order, first) {
      if k < |p| {
        var s := RankOf(p, order, k);
        if s < first {
          assert At(p, order[s]) <= At(p, order[first - 1]) <= At(p, order[first]);
        } else {
          assert At(p, order[first]) <= At(p, order[s]);
        }
      }
    }
    assert AtLeast(p, p[j]) == Slots(order, first);
    SlotsCardinality(order, first);
  }

  lemma RankedStepsDown(p: seq<real>, order: seq<nat>, q: nat, level: real)
    requires IsRanking(p, order) && q < |p| && level >= 0.0
    ensures StepsDown(p, order[q], level) <==> RunningMax(p, order, q + 1) <= level
  {
    RunningMaxBound(p, order, q + 1, level);
    if RunningMax(p, order, q + 1) <= level {
      forall j: nat | j < |p| && p[j] <= p[order[q]] ensures Passes(p, j, level) {
        var first := FirstRank(p, order, j, q);
        assert Scaled(|p| - first, At(p, order[first])) <= level;
      }
    }
    if StepsDown(p, order[q], level) {
      forall r | 0 <= r < q + 1 ensures Scaled(|p| - r, At(p, order[r])) <= level {
        assert At(p, order[r]) <= At(p, order[q]);
        assert Passes(p, order[r], level);
        RankBoundsCount(p, order, r);
        ScaledMonotone(|p| - r, |AtLeast(p, p[order[r]])|, p[order[r]], level);
      }
    }
  }

  lemma RankedValue(p: seq<real>, order: seq<nat>, q: nat)
    requires IsRanking(p, order) && q < |p|
    ensures IsHolmValue(p, order[q], Min(1.0, RunningMax(p, order, q + 1)))
  {
    RunningMaxBound(p, order, q + 1, 0.0);
    forall level | 0.0 <= level < 1.0
      ensures Min(1.0, RunningMax(p, order, q + 1)) <= level <==> StepsDown(p, order[q], level)
    {
      RankedStepsDown(p, order, q, level);
    }
  }

  lemma RankedValues(p: seq<real>, order: seq<nat>, adjusted: seq<real>)
    requires IsRanking(p, order) && |adjusted| == |p|
    requires forall q :: 0 <= q < |p| ==> adjusted[order[q]] == Min(1.0, RunningMax(p, order, q + 1))
    ensures IsHolm(p, adjusted)
  {
    forall i: nat | i < |p| ensures IsHolmValue(p, i, adjusted[i]) {
      var q := RankOf(p, order, i);
      RankedValue(p, order, q);
    }
  }
}
