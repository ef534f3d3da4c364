/** Ranking metrics of evaluation/metrics.py. Ids are compared after normalisation, an
    arbitrary function `norm`; `disc(rank)` stands for 1 / log2(rank + 1). */
module Metrics {
  import opened Basics
  import opened OrderedDict
  import opened Rearrangement
  import opened Sorting

  type Norm = string -> string

  function GoldSet(gold: seq<string>, norm: Norm): set<string> {
    set g | g in gold :: norm(g)
  }

  function HitCount(predicted: seq<string>, goldSet: set<string>, norm: Norm): nat {
    if predicted == [] then 0
    else
      var n := |predicted| - 1;
      var here := if norm(predicted[n]) in goldSet then 1 else 0;
      HitCount(predicted[..n], goldSet, norm) + here
  }

  function PrecisionAtK(predicted: seq<string>, gold: seq<string>, k: int, norm: Norm): real {
    if k <= 0 then 0.0 else HitCount(TakePy(predicted, k), GoldSet(gold, norm), norm) as real / k as real
  }

  function RecallAtK(predicted: seq<string>, gold: seq<string>, k: int, norm: Norm): real {
    if gold == [] then 0.0
    else
      GoldSetNonempty(gold, norm);
      HitCount(TakePy(predicted, k), GoldSet(gold, norm), norm) as real / |GoldSet(gold, norm)| as real
  }

  lemma GoldSetNonempty(gold: seq<string>, norm: Norm)
    ensures gold != [] ==> |GoldSet(gold, norm)| > 0
  {
    if gold != [] {
      assert gold[0] in gold;
      assert norm(gold[0]) in GoldSet(gold, norm);
    }
  }

  /** The number of predictions before the first relevant one. */
  function Misses(predicted: seq<string>, goldSet: set<string>, norm: Norm): (m: nat)
    ensures m <= |predicted|
    ensures m < |predicted| ==> norm(predicted[m]) in goldSet
    ensures forall i :: 0 <= i < m ==> norm(predicted[i]) !in goldSet
  {
    if predicted == [] || norm(predicted[0]) in goldSet then 0 else 1 + Misses(predicted[1..], goldSet, norm)
  }

  function ReciprocalRank(predicted: seq<string>, gold: seq<string>, norm: Norm): real {
    var m := Misses(predicted, GoldSet(gold, norm), norm);
    if m < |predicted| then 1.0 / (m + 1) as real else 0.0
  }

  method Mrr(predicted: seq<string>, gold: seq<string>, norm: Norm) returns (r: real)
    ensures r == ReciprocalRank(predicted, gold, norm)
  {
    var goldSet := GoldSet(gold, norm);
    for i := 0 to |predicted|
      invariant forall j :: 0 <= j < i ==> norm(predicted[j]) !in goldSet
    {
      if norm(predicted[i]) in goldSet {
        assert Misses(predicted, goldSet, norm) == i;
        return 1.0 / (i + 1) as real;
      }
    }
    r := 0.0;
  }

  function GradesOf(gold: seq<string>, norm: Norm, m: nat): Dict<string, nat>
    requires m <= |gold|
  {
    if m == 0 then [] else Put(GradesOf(gold, norm, m - 1), norm(gold[m - 1]), |gold| - (m - 1))
  }

  function Grade(grades: Dict<string, nat>, key: string): nat {
    if Has(grades, key) then Get(grades, key) else 0
  }

  /** `grades.get(key, 0)` as a function of the key. */
  function Lookup(grades: Dict<string, nat>): string -> nat {
    (key: string) => Grade(grades, key)
  }

  function Gains(predicted: seq<string>, grade: string -> nat, norm: Norm): (r: seq<nat>)
    ensures |r| == |predicted|
  {
    seq(|predicted|, i requires 0 <= i < |predicted| => grade(norm(predicted[i])))
  }

  predicate NatGe(a: nat, b: nat) { a >= b }

  function NdcgAtK(predicted: seq<string>, gold: seq<string>, k: int, norm: Norm, disc: nat -> real): real {
    if gold == [] || k <= 0 then 0.0
    else
      var grades := GradesOf(gold, norm, |gold|);
      var dcg := DCG(Gains(TakePy(predicted, k), Lookup(grades), norm), disc);
      var idcg := DCG(TakePy(Sort(Values(grades), NatGe), k), disc);
      if idcg > 0.0 then dcg / idcg else 0.0
  }

  // ----- Bounds of precision, recall and MRR -----

  /** Pairwise different after normalisation. */
  ghost predicate DistinctIds(ids: seq<string>, norm: Norm) {
    forall i, j :: 0 <= i < j < |ids| ==> norm(ids[i]) != norm(ids[j])
  }

  ghost function HitKeys(predicted: seq<string>, goldSet: set<string>, norm: Norm): set<string> {
    set i | 0 <= i < |predicted| && norm(predicted[i]) in goldSet :: norm(predicted[i])
  }

  lemma HitKeysStep(predicted: seq<string>, goldSet: set<string>, norm: Norm, init: seq<string>, last: string)
    requires predicted == init + [last]
    ensures HitKeys(predicted, goldSet, norm)
         == HitKeys(init, goldSet, norm) + (if norm(last) in goldSet then {norm(last)} else {})
  {
    forall i | 0 <= i < |init| ensures init[i] == predicted[i] {
    }
    assert predicted[|init|] == last;
  }

  lemma {:induction false} HitsAreKeys(predicted: seq<string>, goldSet: set<string>, norm: Norm)
    requires DistinctIds(predicted, norm)
    ensures HitCount(predicted, goldSet, norm) == |HitKeys(predicted, goldSet, norm)|
  {
    if predicted != [] {
      var init, last := predicted[..|predicted| - 1], predicted[|predicted| - 1];
      HitsAreKeys(init, goldSet, norm);
      HitKeysStep(predicted, goldSet, norm, init, last);
      assert norm(last) !in HitKeys(init, goldSet, norm);
    }
  }

  lemma {:induction false} HitsAtMostLength(predicted: seq<string>, goldSet: set<string>, norm: Norm)
    ensures HitCount(predicted, goldSet, norm) <= |predicted|
    ensures HitCount(predicted, goldSet, norm) > 0 <==> Misses(predicted, goldSet, norm) < |predicted|
  {
    if predicted != [] {
      var n := |predicted| - 1;
      HitsAtMostLength(predicted[..n], goldSet, norm);
      var m, before := Misses(predicted, goldSet, norm), Misses(predicted[..n], goldSet, norm);
      if before < n {
        assert norm(predicted[before]) in goldSet;
      }
    }
  }

  lemma ShareInUnit(a: nat, b: nat)
    requires a <= b && b > 0
    ensures 0.0 <= a as real / b as real <= 1.0
    ensures a as real / b as real > 0.0 <==> a > 0
  {
  }

  lemma PrefixDistinct(ids: seq<string>, k: int, norm: Norm)
    requires DistinctIds(ids, norm)
    ensures DistinctIds(TakePy(ids, k), norm)
  {
  }

  /** For pairwise different predictions the set-based metrics lie in [0, 1]. */
  lemma SetMetricsInUnit(predicted: seq<string>, gold: seq<string>, k: int, norm: Norm)
    requires DistinctIds(predicted, norm)
    ensures 0.0 <= PrecisionAtK(predicted, gold, k, norm) <= 1.0
    ensures 0.0 <= RecallAtK(predicted, gold, k, norm) <= 1.0
  {
    var top, goldSet := TakePy(predicted, k), GoldSet(gold, norm);
    if k > 0 {
      HitsAtMostLength(top, goldSet, norm);
      ShareInUnit(HitCount(top, goldSet, norm), k);
    }
    if gold != [] {
      GoldSetNonempty(gold, norm);
      PrefixDistinct(predicted, k, norm);
      HitsAreKeys(top, goldSet, norm);
      SubsetCardinality(HitKeys(top, goldSet, norm), goldSet);
      ShareInUnit(HitCount(top, goldSet, norm), |goldSet|);
    }
  }

  /** MRR lies in [0, 1] and is positive exactly when some gold model was recalled. */
  lemma MrrAndRecall(predicted: seq<string>, gold: seq<string>, norm: Norm)
    requires DistinctIds(predicted, norm)
    ensures 0.0 <= ReciprocalRank(predicted, gold, norm) <= 1.0
    ensures ReciprocalRank(predicted, gold, norm) > 0.0 <==> RecallAtK(predicted, gold, |predicted|, norm) > 0.0
  {
    var goldSet := GoldSet(gold, norm);
    HitsAtMostLength(predicted, goldSet, norm);
    ShareInUnit(1, Misses(predicted, goldSet, norm) + 1);
    if gold != [] {
      GoldSetNonempty(gold, norm);
      HitsAreKeys(predicted, goldSet, norm);
      SubsetCardinality(HitKeys(predicted, goldSet, norm), goldSet);
      ShareInUnit(HitCount(predicted, goldSet, norm), |goldSet|);
    } else {
      assert goldSet == {};
    }
  }

  // ----- nDCG -----

  /** The dictionary holds each key once, and grades that differ and are at least `least`. */
  ghost predicate GradesAtLeast(grades: Dict<string, nat>, least: nat) {
    && Valid(grades)
    && (forall i :: 0 <= i < |grades| ==> grades[i].value >= least)
    && forall i, j :: 0 <= i < j < |grades| ==> grades[i].value != grades[j].value
  }

  /** Gold ids that coincide after normalisation leave one entry, with the last grade. */
  lemma {:induction false} GradesDiffer(gold: seq<string>, norm: Norm, m: nat)
    requires m <= |gold|
    ensures GradesAtLeast(GradesOf(gold, norm, m), |gold| - m + 1)
    ensures m > 0 ==> GradesOf(gold, norm, m) != []
  {
    if m > 0 {
      GradesDiffer(gold, norm, m - 1);
      PutKeys(GradesOf(gold, norm, m - 1), norm(gold[m - 1]), |gold| - (m - 1));
    }
  }

  lemma {:induction false} GradesOfDistinct(gold: seq<string>, norm: Norm, m: nat)
    requires DistinctIds(gold, norm) && m <= |gold|
    ensures |GradesOf(gold, norm, m)| == m
    ensures forall i :: 0 <= i < m ==> GradesOf(gold, norm, m)[i] == Entry(norm(gold[i]), |gold| - i)
  {
    if m > 0 {
      GradesOfDistinct(gold, norm, m - 1);
    }
  }

  /** The grades of a gold list, best first. */
  function GradeList(gold: seq<string>, norm: Norm): seq<nat> {
    Sort(Values(GradesOf(gold, norm, |gold|)), NatGe)
  }

  lemma SortDescends(values: seq<nat>)
    requires Distinct(values) && forall i :: 0 <= i < |values| ==> values[i] > 0
    ensures Descending(Sort(values, NatGe)) && |Sort(values, NatGe)| == |values|
    ensures forall g :: g in Sort(values, NatGe) <==> g in values
  {
    var list := Sort(values, NatGe);
    SortMultiset(values, NatGe);
    SortMembers(values, NatGe);
    SortSorted(values, NatGe);
    DistinctByMultiset(values, list);
    forall i | 0 <= i < |list| ensures list[i] > 0 {
      assert list[i] in values;
    }
    forall i, j | 0 <= i < j < |list| ensures list[i] > list[j] {
      assert NatGe(list[i], list[j]);
    }
  }

  lemma GradeListDescends(gold: seq<string>, norm: Norm)
    ensures Descending(GradeList(gold, norm))
    ensures forall g :: g in GradeList(gold, norm) <==> g in Values(GradesOf(gold, norm, |gold|))
    ensures gold != [] ==> GradeList(gold, norm) != []
  {
    GradesDiffer(gold, norm, |gold|);
    SortDescends(Values(GradesOf(gold, norm, |gold|)));
  }

  ghost function GoldGrade(gold: seq<string>, norm: Norm): string -> nat {
    Lookup(GradesOf(gold, norm, |gold|))
  }

  /** Positive grades come from the list, and no two keys share one. */
  ghost predicate IsGradeTable(grade: string -> nat, best: seq<nat>) {
    && (forall key :: grade(key) == 0 || grade(key) in best)
    && forall a: string, b: string :: grade(a) == grade(b) > 0 ==> a == b
  }

  lemma LookupIsTable(gold: seq<string>, norm: Norm)
    ensures IsGradeTable(GoldGrade(gold, norm), GradeList(gold, norm))
  {
    var grades := GradesOf(gold, norm, |gold|);
    GradesDiffer(gold, norm, |gold|);
    GradeListDescends(gold, norm);
    forall key ensures GoldGrade(gold, norm)(key) == 0 || GoldGrade(gold, norm)(key) in GradeList(gold, norm) {
      if Has(grades, key) {
        assert Values(grades)[Find(grades, key)] == Grade(grades, key);
      }
    }
    forall x: string, y: string | Grade(grades, x) == Grade(grades, y) > 0 ensures x == y {
      assert grades[Find(grades, x)].key == x && grades[Find(grades, y)].key == y;
    }
  }

  /** Gold position `i` has grade |gold| - i; everything else has grade 0. */
  ghost predicate IsGrading(grade: string -> nat, gold: seq<string>, norm: Norm) {
    && (forall i :: 0 <= i < |gold| ==> grade(norm(gold[i])) == |gold| - i)
    && forall key :: grade(key) > 0 ==> grade(key) <= |gold| && norm(gold[|gold| - grade(key)]) == key
  }

  lemma TableIsGrading(grades: Dict<string, nat>, gold: seq<string>, norm: Norm)
    requires |grades| == |gold| && Valid(grades)
    requires forall i :: 0 <= i < |gold| ==> grades[i] == Entry(norm(gold[i]), |gold| - i)
    ensures IsGrading(Lookup(grades), gold, norm)
  {
    forall i | 0 <= i < |gold| ensures Lookup(grades)(norm(gold[i])) == |gold| - i {
      FindAt(grades, i);
    }
    forall key | Lookup(grades)(key) > 0
      ensures Lookup(grades)(key) <= |gold| && norm(gold[|gold| - Lookup(grades)(key)]) == key
    {
      assert grades[Find(grades, key)].key == key;
    }
  }

  lemma LookupIsGrading(gold: seq<string>, norm: Norm)
    requires DistinctIds(gold, norm)
    ensures IsGrading(GoldGrade(gold, norm), gold, norm)
  {
    GradesOfDistinct(gold, norm, |gold|);
    TableIsGrading(GradesOf(gold, norm, |gold|), gold, norm);
  }

  /** The gains over exactly `k` positions, the missing ones filled with zeros. */
  ghost function PaddedGains(predicted: seq<string>, grade: string -> nat, k: nat, norm: Norm): (r: seq<nat>)
    ensures |r| == k
    ensures forall i :: 0 <= i < k ==> r[i] == if i < |predicted| then grade(norm(predicted[i])) else 0
  {
    seq(k, i requires 0 <= i < k => if i < |predicted| then grade(norm(predicted[i])) else 0)
  }

  lemma GainsAreGains(predicted: seq<string>, grade: string -> nat, best: seq<nat>, k: nat, norm: Norm)
    requires DistinctIds(predicted, norm) && IsGradeTable(grade, best)
    ensures IsGains(PaddedGains(predicted, grade, k, norm), best)
  {
  }

  /** n, n - 1, ..., 1. */
  function Countdown(n: nat): (r: seq<nat>)
    ensures |r| == n && forall i :: 0 <= i < n ==> r[i] == n - i
  {
    seq(n, i requires 0 <= i < n => n - i)
  }

  lemma {:induction false} GradeListOfDistinct(gold: seq<string>, norm: Norm)
    requires DistinctIds(gold, norm)
    ensures GradeList(gold, norm) == Countdown(|gold|)
  {
    GradesOfDistinct(gold, norm, |gold|);
    assert Values(GradesOf(gold, norm, |gold|)) == Countdown(|gold|);
    assert SortedBy(Countdown(|gold|), NatGe);
    SortOfSorted(Countdown(|gold|), NatGe);
  }

  lemma DcgPadded(predicted: seq<string>, grade: string -> nat, k: nat, norm: Norm, disc: nat -> real)
    ensures DCG(Gains(TakePy(predicted, k), grade, norm), disc) == DCG(PaddedGains(predicted, grade, k, norm), disc)
  {
    var short := Gains(TakePy(predicted, k), grade, norm);
    var padded := PaddedGains(predicted, grade, k, norm);
    assert padded == short + seq(k - |short|, _ => 0);
    DCGPadded(short, k - |short|, disc, padded);
  }

  lemma IdealPadded(best: seq<nat>, k: nat, disc: nat -> real)
    ensures DCG(TakePy(best, k), disc) == DCG(Ideal(best, k), disc)
  {
    var top := TakePy(best, k);
    assert Ideal(best, k) == top + seq(k - |top|, _ => 0);
    DCGPadded(top, k - |top|, disc, Ideal(best, k));
  }

  lemma {:induction false} IdealPositive(best: seq<nat>, k: nat, disc: nat -> real)
    requires Descending(best) && best != [] && k > 0 && IsDiscount(disc)
    ensures DCG(Ideal(best, k), disc) > 0.0
  {
    IdealInit(best, k);
    WeightedGrows(Best(best, k - 1), disc(k), 0.0);
    if k > 1 {
      IdealPositive(best, k - 1, disc);
    } else {
      assert DCG(Ideal(best, 0), disc) == 0.0;
    }
  }

  /** The discounted gains of the answer and of the best answer. */
  ghost function AnswerGains(predicted: seq<string>, gold: seq<string>, k: nat, norm: Norm): (r: seq<nat>)
    ensures |r| == k
  {
    PaddedGains(predicted, GoldGrade(gold, norm), k, norm)
  }

  lemma NdcgAsQuotient(predicted: seq<string>, gold: seq<string>, k: nat, norm: Norm, disc: nat -> real)
    requires gold != [] && k > 0 && IsDiscount(disc)
    ensures DCG(Ideal(GradeList(gold, norm), k), disc) > 0.0
    ensures NdcgAtK(predicted, gold, k, norm, disc)
         == DCG(AnswerGains(predicted, gold, k, norm), disc) / DCG(Ideal(GradeList(gold, norm), k), disc)
  {
    DcgPadded(predicted, GoldGrade(gold, norm), k, norm, disc);
    GradeListDescends(gold, norm);
    IdealPadded(GradeList(gold, norm), k, disc);
    IdealPositive(GradeList(gold, norm), k, disc);
  }

  /** The first `m` predictions are the first `m` gold ids, in order. */
  ghost predicate ReproducesGold(predicted: seq<string>, gold: seq<string>, m: nat, norm: Norm)
    requires m <= |gold|
  {
    m <= |predicted| && forall i :: 0 <= i < m ==> norm(predicted[i]) == norm(gold[i])
  }

  lemma IdealNamesGold(predicted: seq<string>, gold: seq<string>, grade: string -> nat, k: nat, norm: Norm, i: nat)
    requires IsGrading(grade, gold, norm) && i < k && i < |gold|
    requires PaddedGains(predicted, grade, k, norm)[i] == |gold| - i
    ensures i < |predicted| && norm(predicted[i]) == norm(gold[i])
  {
  }

  lemma {:induction false} IdealReproduces(predicted: seq<string>, gold: seq<string>, grade: string -> nat, k: nat, norm: Norm, m: nat)
    requires IsGrading(grade, gold, norm) && m <= k && m <= |gold|
    requires PaddedGains(predicted, grade, k, norm) == Ideal(Countdown(|gold|), k)
    ensures ReproducesGold(predicted, gold, m, norm)
  {
    var ideal := Ideal(Countdown(|gold|), k);
    forall i: nat | i < m ensures i < |predicted| && norm(predicted[i]) == norm(gold[i]) {
      assert ideal[i] == |gold| - i;
      IdealNamesGold(predicted, gold, grade, k, norm, i);
    }
    if m > 0 {
      assert ideal[m - 1] == |gold| - (m - 1);
      IdealNamesGold(predicted, gold, grade, k, norm, m - 1);
    }
  }

  lemma {:induction false} GoldEarnsIdeal(predicted: seq<string>, gold: seq<string>, grade: string -> nat, k: nat, norm: Norm)
    requires DistinctIds(predicted, norm) && IsGrading(grade, gold, norm)
    requires ReproducesGold(predicted, gold, if k < |gold| then k else |gold|, norm)
    ensures PaddedGains(predicted, grade, k, norm) == Ideal(Countdown(|gold|), k)
  {
    var gains := PaddedGains(predicted, grade, k, norm);
    forall i | 0 <= i < k ensures gains[i] == Best(Countdown(|gold|), i) {
      if |gold| <= i < |predicted| {
        forall j | 0 <= j < |gold| ensures norm(gold[j]) != norm(predicted[i]) {
          assert norm(predicted[j]) != norm(predicted[i]);
        }
      }
    }
  }

  lemma UnitQuotient(x: real, y: real)
    requires 0.0 <= x <= y && y > 0.0
    ensures 0.0 <= x / y <= 1.0
    ensures x / y == 1.0 <==> x == y
  {
  }

  lemma {:induction false} DCGNonnegative(gains: seq<nat>, disc: nat -> real)
    requires IsDiscount(disc)
    ensures DCG(gains, disc) >= 0.0
  {
    if gains != [] {
      DCGNonnegative(gains[..|gains| - 1], disc);
      WeightedGrows(gains[|gains| - 1], disc(|gains|), 0.0);
    }
  }

  /** Gains that are never ahead of the grades score at most 1, and 1 only if ideal. */
  lemma NdcgOfNeverAhead(predicted: seq<string>, gold: seq<string>, k: nat, norm: Norm, disc: nat -> real)
    requires gold != [] && k > 0 && IsDiscount(disc)
    requires NeverAhead(AnswerGains(predicted, gold, k, norm), GradeList(gold, norm))
    ensures 0.0 <= NdcgAtK(predicted, gold, k, norm, disc) <= 1.0
    ensures NdcgAtK(predicted, gold, k, norm, disc) == 1.0
       <==> AnswerGains(predicted, gold, k, norm) == Ideal(GradeList(gold, norm), k)
  {
    var gains, best := AnswerGains(predicted, gold, k, norm), GradeList(gold, norm);
    NdcgAsQuotient(predicted, gold, k, norm, disc);
    Dominated(gains, best, disc);
    DCGNonnegative(gains, disc);
    UnitQuotient(DCG(gains, disc), DCG(Ideal(best, k), disc));
  }

  lemma DistinctNeverAhead(predicted: seq<string>, gold: seq<string>, k: nat, norm: Norm)
    requires DistinctIds(predicted, norm)
    ensures NeverAhead(AnswerGains(predicted, gold, k, norm), GradeList(gold, norm))
  {
    LookupIsTable(gold, norm);
    GradeListDescends(gold, norm);
    GainsAreGains(predicted, GoldGrade(gold, norm), GradeList(gold, norm), k, norm);
    GainsNeverAhead(AnswerGains(predicted, gold, k, norm), GradeList(gold, norm));
  }

  /** For pairwise different predictions nDCG lies in [0, 1], whatever the gold list. */
  lemma NdcgInUnit(predicted: seq<string>, gold: seq<string>, k: int, norm: Norm, disc: nat -> real)
    requires DistinctIds(predicted, norm) && IsDiscount(disc)
    ensures 0.0 <= NdcgAtK(predicted, gold, k, norm, disc) <= 1.0
  {
    if gold != [] && k > 0 {
      DistinctNeverAhead(predicted, gold, k, norm);
      NdcgOfNeverAhead(predicted, gold, k, norm, disc);
    }
  }

  /** nDCG is at most 1, and 1 exactly for answers that start with the gold ranking. */
  lemma {:induction false} NdcgPerfectIffGoldOrder(predicted: seq<string>, gold: seq<string>, k: nat, norm: Norm, disc: nat -> real)
    requires DistinctIds(predicted, norm) && DistinctIds(gold, norm) && gold != [] && k > 0 && IsDiscount(disc)
    ensures 0.0 <= NdcgAtK(predicted, gold, k, norm, disc) <= 1.0
    ensures NdcgAtK(predicted, gold, k, norm, disc) == 1.0
       <==> ReproducesGold(predicted, gold, if k < |gold| then k else |gold|, norm)
  {
    var grade := GoldGrade(gold, norm);
    LookupIsGrading(gold, norm);
    GradeListOfDistinct(gold, norm);
    DistinctNeverAhead(predicted, gold, k, norm);
    NdcgOfNeverAhead(predicted, gold, k, norm, disc);
    var m := if k < |gold| then k else |gold|;
    if AnswerGains(predicted, gold, k, norm) == Ideal(Countdown(|gold|), k) {
      IdealReproduces(predicted, gold, grade, k, norm, m);
    } else if ReproducesGold(predicted, gold, m, norm) {
      GoldEarnsIdeal(predicted, gold, grade, k, norm);
    }
  }

  lemma QuotientGrows(x: real, y: real, d: real)
    requires x < y && d > 0.0
    ensures x / d < y / d
  {
  }

  lemma SwapGains(predicted: seq<string>, swapped: seq<string>, grade: string -> nat, k: nat, norm: Norm, i: nat, j: nat)
    requires i < j < |predicted| && j < k && swapped == predicted[i := predicted[j]][j := predicted[i]]
    ensures var gains := PaddedGains(predicted, grade, k, norm);
      PaddedGains(swapped, grade, k, norm) == gains[i := gains[j]][j := gains[i]]
  {
  }

  /** Putting two of the top k predictions in the order of their grades strictly helps. */
  lemma {:induction false} SwapHelps(predicted: seq<string>, swapped: seq<string>, gold: seq<string>, k: nat, norm: Norm, disc: nat -> real, i: nat, j: nat)
    requires gold != [] && IsDiscount(disc)
    requires i < j < |predicted| && j < k && swapped == predicted[i := predicted[j]][j := predicted[i]]
    requires GoldGrade(gold, norm)(norm(predicted[i])) < GoldGrade(gold, norm)(norm(predicted[j]))
    ensures NdcgAtK(swapped, gold, k, norm, disc) > NdcgAtK(predicted, gold, k, norm, disc)
  {
    var gains, better := AnswerGains(predicted, gold, k, norm), AnswerGains(swapped, gold, k, norm);
    NdcgAsQuotient(predicted, gold, k, norm, disc);
    NdcgAsQuotient(swapped, gold, k, norm, disc);
    SwapGains(predicted, swapped, GoldGrade(gold, norm), k, norm, i, j);
    ExchangeRaises(gains, i, j, disc);
    QuotientGrows(DCG(gains, disc), DCG(better, disc), DCG(Ideal(GradeList(gold, norm), k), disc));
  }

  // ----- Repeated predictions -----

  lemma AtMostOneIff(x: real, y: real)
    requires y > 0.0
    ensures x / y <= 1.0 <==> x <= y
  {
    if x <= y {
      QuotientAtMost(x, y);
    } else {
      QuotientGrows(y, x, y);
      assert y / y == 1.0;
    }
  }

  lemma QuotientAtMost(x: real, y: real)
    requires y > 0.0 && x <= y
    ensures x / y <= 1.0
  {
    if x < y {
      QuotientGrows(x, y, y);
    }
    assert y / y == 1.0;
  }

  lemma AtMostOneAtDiscount(predicted: seq<string>, gold: seq<string>, k: nat, norm: Norm, disc: nat -> real)
    requires gold != [] && k > 0 && IsDiscount(disc)
    ensures NdcgAtK(predicted, gold, k, norm, disc) <= 1.0
       <==> DCG(AnswerGains(predicted, gold, k, norm), disc) <= DCG(Ideal(GradeList(gold, norm), k), disc)
  {
    NdcgAsQuotient(predicted, gold, k, norm, disc);
    AtMostOneIff(DCG(AnswerGains(predicted, gold, k, norm), disc), DCG(Ideal(GradeList(gold, norm), k), disc));
  }

  /** Whether or not predictions repeat: nDCG is at most 1 under every discount exactly
      when, for each m up to k, the first m predictions earn no more in grades than the m
      best grades. */
  lemma NdcgBoundedIffNeverAhead(predicted: seq<string>, gold: seq<string>, k: nat, norm: Norm)
    ensures (forall disc: nat -> real :: IsDiscount(disc) ==> NdcgAtK(predicted, gold, k, norm, disc) <= 1.0)
       <==> NeverAhead(AnswerGains(predicted, gold, k, norm), GradeList(gold, norm))
  {
    var gains, best := AnswerGains(predicted, gold, k, norm), GradeList(gold, norm);
    BoundedIffNeverAhead(gains, best);
    if gold != [] && k > 0 {
      forall disc: nat -> real | IsDiscount(disc)
        ensures NdcgAtK(predicted, gold, k, norm, disc) <= 1.0 <==> DCG(gains, disc) <= DCG(Ideal(best, k), disc)
      {
        AtMostOneAtDiscount(predicted, gold, k, norm, disc);
      }
    } else {
      NothingEarned(predicted, gold, k, norm);
    }
  }

  lemma NothingEarned(predicted: seq<string>, gold: seq<string>, k: nat, norm: Norm)
    requires gold == [] || k == 0
    ensures NeverAhead(AnswerGains(predicted, gold, k, norm), GradeList(gold, norm))
  {
    var gains := AnswerGains(predicted, gold, k, norm);
    forall m: nat | m <= |gains| ensures Total(gains[..m]) <= BestTotal(GradeList(gold, norm), m) {
      TotalZero(gains[..m]);
    }
  }

  /** Without pairwise different predictions nDCG can exceed 1. */
  lemma RepetitionExceedsOne(id: string, norm: Norm, disc: nat -> real)
    requires IsDiscount(disc)
    ensures NdcgAtK([id, id], [id], 2, norm, disc) > 1.0
  {
    AtMostOneAtDiscount([id, id], [id], 2, norm, disc);
    LookupIsGrading([id], norm);
    GradeListOfDistinct([id], norm);
    var gains, ideal := AnswerGains([id, id], [id], 2, norm), Ideal(Countdown(1), 2);
    assert GoldGrade([id], norm)(norm([id][0])) == 1;
    assert gains[0] == gains[1] == 1 && ideal[0] == 1 && ideal[1] == 0;
    TwoTerms(gains, disc);
    TwoTerms(ideal, disc);
  }

  lemma TwoTerms(gains: seq<nat>, disc: nat -> real)
    requires |gains| == 2
    ensures DCG(gains, disc) == Weighted(gains[0], disc(1)) + Weighted(gains[1], disc(2))
  {
    var first := gains[..1];
    assert DCG(first[..0], disc) == 0.0;
    assert DCG(first, disc) == Weighted(gains[0], disc(1));
  }
}
