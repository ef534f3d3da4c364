/** A truncated rearrangement inequality. Gains are grades from a descending list, each at
    most once, or 0; position `i` (from 0) is discounted by `disc(i + 1)`, any positive and
    strictly decreasing function of the rank. The best gains are the grades in order, and
    no other arrangement does as well. */
module Rearrangement {
  import opened Sorting

  ghost predicate IsDiscount(disc: nat -> real) {
    && (forall r: nat :: r >= 1 ==> disc(r) > 0.0)
    && forall r: nat, s: nat :: 1 <= r < s ==> disc(r) > disc(s)
  }

  /** `gain` times `d`, by repeated addition. */
  function Weighted(gain: nat, d: real): real {
    if gain == 0 then 0.0 else Weighted(gain - 1, d) + d
  }

  lemma {:induction false} WeightedIsProduct(gain: nat, d: real)
    ensures Weighted(gain, d) == gain as real * d
  {
    if gain > 0 {
      WeightedIsProduct(gain - 1, d);
      assert gain as real * d == (gain - 1) as real * d + d;
    }
  }

  lemma {:induction false} WeightedSum(a: nat, b: nat, d: real)
    ensures Weighted(a + b, d) == Weighted(a, d) + Weighted(b, d)
  {
    if b > 0 {
      WeightedSum(a, b - 1, d);
    }
  }

  lemma {:induction false} WeightedGrows(gain: nat, d0: real, d1: real)
    requires d0 > d1
    ensures Weighted(gain, d0) >= Weighted(gain, d1)
    ensures gain > 0 ==> Weighted(gain, d0) > Weighted(gain, d1)
    ensures Weighted(gain, 0.0) == 0.0
  {
    if gain > 0 {
      WeightedGrows(gain - 1, d0, d1);
    }
  }

  /** Discounted cumulative gain. */
  function DCG(gains: seq<nat>, disc: nat -> real): real {
    if gains == [] then 0.0
    else
      var n := |gains|;
      DCG(gains[..n - 1], disc) + Weighted(gains[n - 1], disc(n))
  }

  /** Positive grades, best first, each once. */
  ghost predicate Descending(best: seq<nat>) {
    && (forall i :: 0 <= i < |best| ==> best[i] > 0)
    && forall i, j :: 0 <= i < j < |best| ==> best[i] > best[j]
  }

  /** Gains drawn from the grades, each at most once. */
  ghost predicate IsGains(gains: seq<nat>, best: seq<nat>) {
    && (forall i :: 0 <= i < |gains| ==> gains[i] == 0 || gains[i] in best)
    && forall i, j :: 0 <= i < j < |gains| && gains[i] == gains[j] ==> gains[i] == 0
  }

  function Best(best: seq<nat>, i: nat): nat { if i < |best| then best[i] else 0 }

  /** The best gains at `length` positions. */
  function Ideal(best: seq<nat>, length: nat): (r: seq<nat>)
    ensures |r| == length
  {
    seq(length, i requires 0 <= i < length => Best(best, i))
  }

  // ----- No `length` gains sum to more than the ideal ones -----

  function Total(gains: seq<nat>): nat {
    if gains == [] then 0 else Total(gains[..|gains| - 1]) + gains[|gains| - 1]
  }

  function BestTotal(best: seq<nat>, length: nat): nat {
    if length == 0 then 0 else BestTotal(best, length - 1) + Best(best, length - 1)
  }

  lemma {:induction false} BestTotalFront(best: seq<nat>, length: nat)
    requires best != [] && length > 0
    ensures BestTotal(best, length) == best[0] + BestTotal(best[1..], length - 1)
  {
    if length > 1 {
      BestTotalFront(best, length - 1);
    }
  }

  lemma {:induction false} BestTotalTail(best: seq<nat>, length: nat)
    requires Descending(best) && best != []
    ensures BestTotal(best[1..], length) <= BestTotal(best, length)
  {
    if length > 0 {
      BestTotalTail(best, length - 1);
    }
  }

  lemma {:induction false} TotalWithout(gains: seq<nat>, i: nat, rest: seq<nat>)
    requires i < |gains| && rest == Without(gains, i)
    ensures Total(gains) == Total(rest) + gains[i]
    decreases |gains|
  {
    var n := |gains| - 1;
    if i == n {
      assert rest == gains[..n];
    } else {
      assert rest[..n - 1] == Without(gains[..n], i);
      TotalWithout(gains[..n], i, rest[..n - 1]);
    }
  }

  lemma {:induction false} TotalZero(gains: seq<nat>)
    requires forall i :: 0 <= i < |gains| ==> gains[i] == 0
    ensures Total(gains) == 0
  {
    if gains != [] {
      TotalZero(gains[..|gains| - 1]);
    }
  }

  lemma GainsWithoutBest(gains: seq<nat>, best: seq<nat>, i: nat, rest: seq<nat>)
    requires IsGains(gains, best) && Descending(best) && best != []
    requires i < |gains| && gains[i] == best[0] && rest == Without(gains, i)
    ensures IsGains(rest, best[1..])
  {
    forall j | 0 <= j < |rest| ensures rest[j] == 0 || rest[j] in best[1..] {
      assert rest[j] == if j < i then gains[j] else gains[j + 1];
      GainBelow(best, rest[j]);
    }
    forall j, k | 0 <= j < k < |rest| && rest[j] == rest[k] ensures rest[j] == 0 {
      assert rest[j] == if j < i then gains[j] else gains[j + 1];
      assert rest[k] == if k < i then gains[k] else gains[k + 1];
    }
  }

  lemma GainBelow(best: seq<nat>, gain: nat)
    requires best != []
    ensures gain in best && gain != best[0] ==> gain in best[1..]
  {
    assert best == [best[0]] + best[1..];
  }

  lemma {:induction false} TotalBound(gains: seq<nat>, best: seq<nat>)
    requires IsGains(gains, best) && Descending(best)
    ensures Total(gains) <= BestTotal(best, |gains|)
    decreases |best|
  {
    if best == [] {
      TotalZero(gains);
    } else if i :| 0 <= i < |gains| && gains[i] == best[0] {
      var rest := Without(gains, i);
      GainsWithoutBest(gains, best, i, rest);
      TotalBound(rest, best[1..]);
      TotalWithout(gains, i, rest);
      BestTotalFront(best, |gains|);
    } else {
      forall j | 0 <= j < |gains| ensures gains[j] == 0 || gains[j] in best[1..] {
        GainBelow(best, gains[j]);
      }
      TotalBound(gains, best[1..]);
      BestTotalTail(best, |gains|);
    }
  }

  /** At no rank have the gains summed to more than the best grades. */
  ghost predicate NeverAhead(gains: seq<nat>, best: seq<nat>) {
    forall m: nat :: m <= |gains| ==> Total(gains[..m]) <= BestTotal(best, m)
  }

  lemma GainsNeverAhead(gains: seq<nat>, best: seq<nat>)
    requires IsGains(gains, best) && Descending(best)
    ensures NeverAhead(gains, best)
  {
    forall m: nat | m <= |gains| ensures Total(gains[..m]) <= BestTotal(best, m) {
      TotalBound(gains[..m], best);
    }
  }

  // ----- Summation by parts -----

  ghost function Gap(gains: seq<nat>, best: seq<nat>): int {
    BestTotal(best, |gains|) - Total(gains)
  }

  lemma IdealInit(best: seq<nat>, length: nat)
    requires length > 0
    ensures Ideal(best, length)[..length - 1] == Ideal(best, length - 1)
    ensures Ideal(best, length)[length - 1] == Best(best, length - 1)
  {
  }

  /** The state of the summation by parts: how far the ideal total is ahead. */
  ghost predicate Ahead(ideal: real, actual: real, gap: nat, d: real, differ: bool) {
    && ideal - actual >= Weighted(gap, d)
    && ideal >= actual
    && (differ ==> ideal > actual)
    && (!differ ==> gap == 0)
  }

  lemma AheadStep(ideal: real, actual: real, gap: nat, d0: real, differ: bool, best: nat, gain: nat, d1: real)
    requires Ahead(ideal, actual, gap, d0, differ) && d0 > d1 > 0.0 && gap + best - gain >= 0
    ensures Ahead(ideal + Weighted(best, d1), actual + Weighted(gain, d1), gap + best - gain, d1, differ || best != gain)
  {
    var next := gap + best - gain;
    WeightedSum(next, gain, d1);
    WeightedSum(gap, best, d1);
    WeightedGrows(gap, d0, d1);
    WeightedGrows(next, d1, 0.0);
  }

  lemma NeverAheadInit(gains: seq<nat>, best: seq<nat>, init: seq<nat>)
    requires NeverAhead(gains, best) && gains != [] && init == gains[..|gains| - 1]
    ensures NeverAhead(init, best) && Gap(gains, best) >= 0
  {
    assert gains[..|gains|] == gains;
    forall m: nat | m <= |init| ensures Total(init[..m]) <= BestTotal(best, m) {
      assert init[..m] == gains[..m];
    }
  }

  lemma {:induction false} DominatedPrefix(gains: seq<nat>, best: seq<nat>, disc: nat -> real, d: real)
    requires NeverAhead(gains, best) && IsDiscount(disc)
    requires d == if gains == [] then disc(1) + 1.0 else disc(|gains|)
    ensures Gap(gains, best) >= 0
    ensures Ahead(DCG(Ideal(best, |gains|), disc), DCG(gains, disc), Gap(gains, best), d, gains != Ideal(best, |gains|))
  {
    if gains != [] {
      var k := |gains|;
      var init := gains[..k - 1];
      var d0 := if k == 1 then disc(1) + 1.0 else disc(k - 1);
      NeverAheadInit(gains, best, init);
      DominatedPrefix(init, best, disc, d0);
      assert d0 > d > 0.0;
      IdealInit(best, k);
      IdealDiffers(gains, best, init);
      AheadStep(DCG(Ideal(best, k - 1), disc), DCG(init, disc), Gap(init, best), d0, init != Ideal(best, k - 1),
                Best(best, k - 1), gains[k - 1], d);
    }
  }

  lemma IdealDiffers(gains: seq<nat>, best: seq<nat>, init: seq<nat>)
    requires gains != [] && init == gains[..|gains| - 1]
    ensures gains != Ideal(best, |gains|)
       <==> init != Ideal(best, |gains| - 1) || Best(best, |gains| - 1) != gains[|gains| - 1]
  {
    IdealInit(best, |gains|);
    assert gains == init + [gains[|gains| - 1]];
    assert Ideal(best, |gains|) == Ideal(best, |gains| - 1) + [Best(best, |gains| - 1)];
  }

  /** Gains that are never ahead of the best grades do not beat them under any discount,
      and only the ideal gains do as well. */
  lemma Dominated(gains: seq<nat>, best: seq<nat>, disc: nat -> real)
    requires NeverAhead(gains, best) && IsDiscount(disc)
    ensures DCG(gains, disc) <= DCG(Ideal(best, |gains|), disc)
    ensures gains == Ideal(best, |gains|) <==> DCG(gains, disc) == DCG(Ideal(best, |gains|), disc)
  {
    DominatedPrefix(gains, best, disc, if gains == [] then disc(1) + 1.0 else disc(|gains|));
  }

  // ----- Gains that are ahead somewhere -----

  function Half(r: nat): real { if r == 0 then 1.0 else Half(r - 1) / 2.0 }

  lemma {:induction false} HalfDecreases(r: nat, s: nat)
    requires r < s
    ensures 0.0 < Half(s) < Half(r) <= 1.0
  {
    if s == r + 1 {
      HalfPositive(r);
    } else {
      HalfDecreases(r, s - 1);
    }
  }

  lemma {:induction false} HalfPositive(r: nat)
    ensures 0.0 < Half(r) <= 1.0
  {
    if r > 0 {
      HalfPositive(r - 1);
    }
  }

  function Step(m: nat, big: real, r: nat): real { if r <= m then big else 0.0 }

  function SteepAt(m: nat, big: real, r: nat): real { Step(m, big, r) + Half(r) }

  /** A discount that makes the first `m` ranks count much more than the others. */
  function Steep(m: nat, big: real): nat -> real { (r: nat) => SteepAt(m, big, r) }

  lemma SteepIsDiscount(m: nat, big: real)
    requires big > 0.0
    ensures IsDiscount(Steep(m, big))
  {
    forall r: nat | r >= 1 ensures Steep(m, big)(r) > 0.0 {
      HalfPositive(r);
    }
    forall r: nat, s: nat | 1 <= r < s ensures Steep(m, big)(r) > Steep(m, big)(s) {
      HalfDecreases(r, s);
    }
  }

  lemma {:induction false} WeightedSplit(gain: nat, c: real, d: real)
    ensures Weighted(gain, c + d) == Weighted(gain, c) + Weighted(gain, d)
    ensures c == 0.0 ==> Weighted(gain, c) == 0.0
    ensures 0.0 <= d <= 1.0 ==> 0.0 <= Weighted(gain, d) <= gain as real
  {
    if gain > 0 {
      WeightedSplit(gain - 1, c, d);
    }
  }

  /** The first `m` ranks weigh `big` each, and the rest at most as much as the gains. */
  lemma {:induction false} SteepSplit(gains: seq<nat>, m: nat, big: real)
    ensures var heavy := Weighted(Total(gains[..if m < |gains| then m else |gains|]), big);
      heavy <= DCG(gains, Steep(m, big)) <= heavy + Total(gains) as real
  {
    if gains != [] {
      var n := |gains| - 1;
      var init, last := gains[..n], gains[n];
      SteepSplit(init, m, big);
      HalfPositive(n + 1);
      WeightedSplit(last, Step(m, big, n + 1), Half(n + 1));
      if m <= n {
        assert gains[..m] == init[..m];
      } else {
        assert init[..n] == init && gains[..n + 1] == gains;
        WeightedSum(Total(init), last, big);
      }
    }
  }

  lemma {:induction false} TotalOfIdeal(best: seq<nat>, length: nat)
    ensures Total(Ideal(best, length)) == BestTotal(best, length)
  {
    if length > 0 {
      TotalOfIdeal(best, length - 1);
      IdealInit(best, length);
    }
  }

  lemma WeightedMore(a: nat, b: nat, d: real)
    requires a > b && d > 0.0
    ensures Weighted(a, d) >= Weighted(b, d) + d
  {
    WeightedSum(b, a - b, d);
    WeightedSum(1, a - b - 1, d);
    WeightedGrows(a - b - 1, d, 0.0);
    assert Weighted(1, d) == Weighted(0, d) + d;
  }

  lemma AheadBeatsSteep(gains: seq<nat>, best: seq<nat>, m: nat, big: real)
    requires m <= |gains| && Total(gains[..m]) > BestTotal(best, m)
    requires big == BestTotal(best, |gains|) as real + 1.0
    ensures DCG(gains, Steep(m, big)) > DCG(Ideal(best, |gains|), Steep(m, big))
  {
    var ideal := Ideal(best, |gains|);
    assert ideal[..m] == Ideal(best, m);
    TotalOfIdeal(best, m);
    TotalOfIdeal(best, |gains|);
    SteepSplit(gains, m, big);
    SteepSplit(ideal, m, big);
    WeightedMore(Total(gains[..m]), BestTotal(best, m), big);
  }

  /** Any gains, repeated ones included, stay within the ideal total under every discount
      exactly when they are never ahead. */
  lemma BoundedIffNeverAhead(gains: seq<nat>, best: seq<nat>)
    ensures (forall disc: nat -> real :: IsDiscount(disc) ==> DCG(gains, disc) <= DCG(Ideal(best, |gains|), disc))
       <==> NeverAhead(gains, best)
  {
    if NeverAhead(gains, best) {
      forall disc: nat -> real | IsDiscount(disc) ensures DCG(gains, disc) <= DCG(Ideal(best, |gains|), disc) {
        Dominated(gains, best, disc);
      }
    } else {
      var m: nat :| m <= |gains| && Total(gains[..m]) > BestTotal(best, m);
      var big := BestTotal(best, |gains|) as real + 1.0;
      SteepIsDiscount(m, big);
      AheadBeatsSteep(gains, best, m, big);
    }
  }

  // ----- Padding and exchange -----

  lemma {:induction false} DCGPadded(gains: seq<nat>, zeros: nat, disc: nat -> real, padded: seq<nat>)
    requires padded == gains + seq(zeros, _ => 0)
    ensures DCG(padded, disc) == DCG(gains, disc)
    decreases zeros
  {
    if zeros == 0 {
      assert padded == gains;
    } else {
      var n := |padded| - 1;
      assert padded[..n] == gains + seq(zeros - 1, _ => 0);
      DCGPadded(gains, zeros - 1, disc, padded[..n]);
      assert Weighted(0, disc(n + 1)) == 0.0;
    }
  }

  lemma {:induction false} DCGUpdated(gains: seq<nat>, i: nat, gain: nat, disc: nat -> real, updated: seq<nat>)
    requires i < |gains| && updated == gains[i := gain]
    ensures DCG(updated, disc) - DCG(gains, disc) == Weighted(gain, disc(i + 1)) - Weighted(gains[i], disc(i + 1))
    decreases |gains|
  {
    var n := |gains| - 1;
    if i == n {
      assert updated[..n] == gains[..n];
    } else {
      assert updated[..n] == gains[..n][i := gain];
      DCGUpdated(gains[..n], i, gain, disc, updated[..n]);
    }
  }

  /** Putting the larger of two gains first raises the total. */
  lemma ExchangeRaises(gains: seq<nat>, i: nat, j: nat, disc: nat -> real)
    requires i < j < |gains| && gains[i] < gains[j] && IsDiscount(disc)
    ensures DCG(gains[i := gains[j]][j := gains[i]], disc) > DCG(gains, disc)
  {
    var once := gains[i := gains[j]];
    DCGUpdated(gains, i, gains[j], disc, once);
    DCGUpdated(once, j, gains[i], disc, once[j := gains[i]]);
    ExchangeProfit(gains[i], gains[j], disc(i + 1), disc(j + 1));
  }

  lemma ExchangeProfit(low: nat, high: nat, d0: real, d1: real)
    requires low < high && d0 > d1
    ensures Weighted(high, d0) - Weighted(low, d0) > Weighted(high, d1) - Weighted(low, d1)
  {
    WeightedSum(low, high - low, d0);
    WeightedSum(low, high - low, d1);
    WeightedGrows(high - low, d0, d1);
  }
}
