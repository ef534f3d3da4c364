/** The ranking metrics counted out (evaluation/metrics.py). */
module MetricFacts {
  import opened Basics
  import opened Rearrangement
  import opened Metrics

  ghost predicate IsRelevant(id: string, gold: seq<string>, norm: Norm) {
    exists g :: g in gold && norm(g) == norm(id)
  }

  /** The ranks, from 0, of the relevant ones among the first `k` predictions. */
  ghost function RelevantRanks(predicted: seq<string>, gold: seq<string>, k: nat, norm: Norm): set<nat> {
    set i: nat | i < k && i < |predicted| && IsRelevant(predicted[i], gold, norm)
  }

  lemma {:induction false} HitsCounted(predicted: seq<string>, gold: seq<string>, norm: Norm, k: nat)
    requires k <= |predicted|
    ensures HitCount(predicted[..k], GoldSet(gold, norm), norm) == |RelevantRanks(predicted, gold, k, norm)|
  {
    if k > 0 {
      HitsCounted(predicted, gold, norm, k - 1);
      assert predicted[..k][..k - 1] == predicted[..k - 1];
      var before, after := RelevantRanks(predicted, gold, k - 1, norm), RelevantRanks(predicted, gold, k, norm);
      assert IsRelevant(predicted[k - 1], gold, norm) <==> norm(predicted[k - 1]) in GoldSet(gold, norm);
      if IsRelevant(predicted[k - 1], gold, norm) {
        assert after == before + {k - 1};
      } else {
        assert after == before;
      }
    }
  }

  lemma TopCounted(predicted: seq<string>, gold: seq<string>, norm: Norm, k: nat)
    ensures HitCount(TakePy(predicted, k), GoldSet(gold, norm), norm) == |RelevantRanks(predicted, gold, k, norm)|
  {
    var m := if k < |predicted| then k else |predicted|;
    HitsCounted(predicted, gold, norm, m);
    assert predicted[..m] == TakePy(predicted, k);
    assert RelevantRanks(predicted, gold, m, norm) == RelevantRanks(predicted, gold, k, norm);
  }

  /** Precision divides the relevant predictions by k, also when fewer are made. */
  lemma PrecisionCounted(predicted: seq<string>, gold: seq<string>, k: nat, norm: Norm)
    ensures PrecisionAtK(predicted, gold, k, norm)
         == if k == 0 then 0.0 else |RelevantRanks(predicted, gold, k, norm)| as real / k as real
  {
    TopCounted(predicted, gold, norm, k);
  }

  /** Without a cut-off or without gold there is nothing to score. */
  lemma ZeroWithoutTarget(predicted: seq<string>, gold: seq<string>, k: int, norm: Norm, disc: nat -> real)
    ensures k <= 0 ==> PrecisionAtK(predicted, gold, k, norm) == 0.0 && NdcgAtK(predicted, gold, k, norm, disc) == 0.0
    ensures gold == [] ==> RecallAtK(predicted, gold, k, norm) == 0.0 && NdcgAtK(predicted, gold, k, norm, disc) == 0.0
  {
  }

  /** Recall divides them by the number of different gold ids. */
  lemma RecallCounted(predicted: seq<string>, gold: seq<string>, k: nat, norm: Norm, ids: set<string>)
    requires ids == set g | g in gold :: norm(g)
    ensures gold == [] ==> RecallAtK(predicted, gold, k, norm) == 0.0
    ensures gold != [] ==> |ids| > 0
    ensures gold != [] ==> RecallAtK(predicted, gold, k, norm) == |RelevantRanks(predicted, gold, k, norm)| as real / |ids| as real
  {
    if gold != [] {
      GoldSetNonempty(gold, norm);
      TopCounted(predicted, gold, norm, k);
    }
  }

  /** The reciprocal rank is 1 over the first relevant rank, counted from 1, or 0. */
  lemma ReciprocalOfFirst(predicted: seq<string>, gold: seq<string>, norm: Norm, r: nat)
    requires r <= |predicted| && forall i :: 0 <= i < r ==> !IsRelevant(predicted[i], gold, norm)
    requires r < |predicted| ==> IsRelevant(predicted[r], gold, norm)
    ensures ReciprocalRank(predicted, gold, norm) == if r < |predicted| then 1.0 / (r + 1) as real else 0.0
  {
    forall i | 0 <= i < |predicted| ensures IsRelevant(predicted[i], gold, norm) <==> norm(predicted[i]) in GoldSet(gold, norm) {
    }
    assert Misses(predicted, GoldSet(gold, norm), norm) == r;
  }

  // ----- nDCG of a single gold id -----

  lemma {:induction false} OneGain(gains: seq<nat>, r: nat, disc: nat -> real)
    requires r < |gains| && gains[r] == 1 && forall i :: 0 <= i < |gains| && i != r ==> gains[i] == 0
    ensures DCG(gains, disc) == disc(r + 1)
    decreases |gains|
  {
    var n := |gains| - 1;
    if r == n {
      NoGain(gains[..n], disc);
      assert Weighted(1, disc(r + 1)) == Weighted(0, disc(r + 1)) + disc(r + 1);
    } else {
      OneGain(gains[..n], r, disc);
    }
  }

  lemma {:induction false} NoGain(gains: seq<nat>, disc: nat -> real)
    requires forall i :: 0 <= i < |gains| ==> gains[i] == 0
    ensures DCG(gains, disc) == 0.0
  {
    if gains != [] {
      NoGain(gains[..|gains| - 1], disc);
    }
  }

  /** With one gold id, found at rank r (from 1) within the cut-off, nDCG is the discount of
      that rank over the discount of the first: log2(2) / log2(r + 1). */
  lemma NdcgOfOne(predicted: seq<string>, g: string, k: nat, norm: Norm, disc: nat -> real, r: nat)
    requires IsDiscount(disc) && 1 <= r <= k && r <= |predicted|
    requires forall i :: 0 <= i < |predicted| ==> (norm(predicted[i]) == norm(g) <==> i == r - 1)
    ensures NdcgAtK(predicted, [g], k, norm, disc) == disc(r) / disc(1)
  {
    NdcgAsQuotient(predicted, [g], k, norm, disc);
    GradeListOfDistinct([g], norm);
    OneAnswerGain(predicted, g, k, norm, r);
    OneGain(AnswerGains(predicted, [g], k, norm), r - 1, disc);
    OneGain(Ideal(Countdown(1), k), 0, disc);
  }

  lemma OneAnswerGain(predicted: seq<string>, g: string, k: nat, norm: Norm, r: nat)
    requires 1 <= r <= k && r <= |predicted|
    requires forall i :: 0 <= i < |predicted| ==> (norm(predicted[i]) == norm(g) <==> i == r - 1)
    ensures forall i :: 0 <= i < k ==> AnswerGains(predicted, [g], k, norm)[i] == if i == r - 1 then 1 else 0
  {
    LookupIsGrading([g], norm);
    assert GoldGrade([g], norm)(norm([g][0])) == 1;
    forall key | key != norm(g) ensures GoldGrade([g], norm)(key) == 0 {
      assert GoldGrade([g], norm)(key) > 0 ==> GoldGrade([g], norm)(key) <= 1;
    }
  }
}
