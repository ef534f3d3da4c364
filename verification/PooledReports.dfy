/** What a comparison row reports, question by question, and that the order and repetition
    of the question ids do not matter. */
module PooledReports {
  import opened Basics
  import opened Sorting
  import opened SignFlip
  import opened Pooled

  /** The questions with a mean in both systems that are judged `v`. */
  ghost function Judged(a: map<string, real>, b: map<string, real>, v: Verdict): set<string> {
    set q | q in a.Keys * b.Keys && Judge(a[q] - b[q]) == v
  }

  lemma {:induction false} CommonMembers(qids: seq<string>, keys: set<string>)
    ensures Distinct(Common(qids, keys))
    ensures forall q :: q in Common(qids, keys) <==> q in qids && q in keys
  {
    if qids != [] {
      var n := |qids| - 1;
      CommonMembers(qids[..n], keys);
      assert qids == qids[..n] + [qids[n]];
    }
  }

  lemma SharedMembers(qids: seq<string>, a: map<string, real>, b: map<string, real>)
    ensures Distinct(Shared(qids, a, b))
    ensures forall q :: q in Shared(qids, a, b) <==> q in qids && q in a.Keys * b.Keys
  {
    var common := Common(qids, a.Keys * b.Keys);
    CommonMembers(qids, a.Keys * b.Keys);
    SortMultiset(common, StringLe);
    SortMembers(common, StringLe);
    DistinctByMultiset(common, Shared(qids, a, b));
  }

  ghost function Among<T>(s: seq<T>, keep: T -> bool): set<T> {
    set x | x in s && keep(x)
  }

  lemma AmongGrows<T>(init: seq<T>, last: T, s: seq<T>, keep: T -> bool)
    requires s == init + [last] && last !in init
    ensures |Among(s, keep)| == |Among(init, keep)| + (if keep(last) then 1 else 0)
  {
    if keep(last) {
      assert Among(s, keep) == Among(init, keep) + {last};
    } else {
      assert Among(s, keep) == Among(init, keep);
    }
  }

  lemma {:induction false} AllAmong<T>(s: seq<T>, keep: T -> bool)
    requires Distinct(s) && forall x :: x in s ==> keep(x)
    ensures |s| == |Among(s, keep)|
  {
    if s != [] {
      var n := |s| - 1;
      AllAmong(s[..n], keep);
      AmongGrows(s[..n], s[n], s, keep);
    }
  }

  /** `v` is the verdict on a question. */
  ghost function Verdicts(a: map<string, real>, b: map<string, real>, v: Verdict): string -> bool {
    q => Judge(Get(a, q) - Get(b, q)) == v
  }

  lemma TallyLast(shared: seq<string>, a: map<string, real>, b: map<string, real>, v: Verdict)
    requires shared != []
    ensures var n := |shared| - 1;
      Tally(Diffs(a, b, shared), v)
        == Tally(Diffs(a, b, shared[..n]), v) + (if Verdicts(a, b, v)(shared[n]) then 1 else 0)
  {
    assert Diffs(a, b, shared)[..|shared| - 1] == Diffs(a, b, shared[..|shared| - 1]);
  }

  lemma {:induction false} TallyCounts(shared: seq<string>, a: map<string, real>, b: map<string, real>, v: Verdict)
    requires Distinct(shared)
    ensures Tally(Diffs(a, b, shared), v) == |Among(shared, Verdicts(a, b, v))|
  {
    if shared != [] {
      var n := |shared| - 1;
      TallyCounts(shared[..n], a, b, v);
      TallyLast(shared, a, b, v);
      AmongGrows(shared[..n], shared[n], shared, Verdicts(a, b, v));
    }
  }

  /** The questions scored by both systems on which the first is ahead by more than 1e-9. */
  ghost function AheadOn(a: map<string, real>, b: map<string, real>): set<string> {
    set q | q in a.Keys * b.Keys && a[q] - b[q] > 0.000000001
  }

  /** Wins and losses are the numbers of questions scored by both systems on which one or
      the other is ahead; the rest are ties. */
  lemma RowCounts(runsA: seq<Run>, runsB: seq<Run>, qids: seq<string>, metric: string)
    requires Comparison(runsA, runsB, qids, metric).Compared?
    ensures var row := Comparison(runsA, runsB, qids, metric).row;
            var a, b := Means(runsA, qids, metric), Means(runsB, qids, metric);
            && row.n == |a.Keys * b.Keys|
            && row.wins == |AheadOn(a, b)| && row.losses == |AheadOn(b, a)|
            && row.ties == |a.Keys * b.Keys - AheadOn(a, b) - AheadOn(b, a)|
  {
    var a, b := Means(runsA, qids, metric), Means(runsB, qids, metric);
    SharedMembers(qids, a, b);
    SharedSize(Shared(qids, a, b), a, b);
    TalliesCount(Shared(qids, a, b), a, b);
  }

  lemma TalliesCount(shared: seq<string>, a: map<string, real>, b: map<string, real>)
    requires Distinct(shared) && forall q :: q in shared <==> q in a.Keys * b.Keys
    ensures Tally(Diffs(a, b, shared), Win) == |AheadOn(a, b)|
    ensures Tally(Diffs(a, b, shared), Loss) == |AheadOn(b, a)|
    ensures Tally(Diffs(a, b, shared), Tie) == |a.Keys * b.Keys - AheadOn(a, b) - AheadOn(b, a)|
  {
    JudgedEverywhere(shared, a, b, Win);
    JudgedEverywhere(shared, a, b, Tie);
    JudgedEverywhere(shared, a, b, Loss);
    assert Judged(a, b, Win) == AheadOn(a, b);
    assert Judged(a, b, Loss) == AheadOn(b, a);
    assert Judged(a, b, Tie) == a.Keys * b.Keys - AheadOn(a, b) - AheadOn(b, a);
  }

  lemma SharedSize(shared: seq<string>, a: map<string, real>, b: map<string, real>)
    requires Distinct(shared) && forall q :: q in shared <==> q in a.Keys * b.Keys
    ensures |shared| == |a.Keys * b.Keys|
  {
    var both := (q: string) => q in a.Keys * b.Keys;
    AllAmong(shared, both);
    assert Among(shared, both) == a.Keys * b.Keys;
  }

  lemma JudgedEverywhere(shared: seq<string>, a: map<string, real>, b: map<string, real>, v: Verdict)
    requires Distinct(shared) && forall q :: q in shared <==> q in a.Keys * b.Keys
    ensures Tally(Diffs(a, b, shared), v) == |Judged(a, b, v)|
  {
    TallyCounts(shared, a, b, v);
    assert Among(shared, Verdicts(a, b, v)) == Judged(a, b, v);
  }

  lemma {:induction false} ExtremesBound(s: seq<real>)
    requires s != []
    ensures Least(s) in s && Greatest(s) in s
    ensures forall i :: 0 <= i < |s| ==> Least(s) <= s[i] <= Greatest(s)
  {
    var n := |s| - 1;
    if n > 0 {
      ExtremesBound(s[..n]);
      assert s == s[..n] + [s[n]];
    }
  }

  /** There is a leave-one-out range exactly for at least three runs, equally many per
      system; it is the tightest around the p-values without one run. */
  lemma LeaveOneOutRange(runsA: seq<Run>, runsB: seq<Run>, qids: seq<string>, metric: string)
    requires Comparison(runsA, runsB, qids, metric).Compared?
    ensures var range := Comparison(runsA, runsB, qids, metric).row.leaveOneOut;
            && (range.Some? <==> |runsA| >= 3 && |runsA| == |runsB|)
            && (range.Some? ==> IsRange(range.value, AllPWithout(runsA, runsB, |runsA|, qids, metric,
                                          Shared(qids, Means(runsA, qids, metric), Means(runsB, qids, metric)))))
  {
    if Jackknifed(runsA, runsB) {
      var shared := Shared(qids, Means(runsA, qids, metric), Means(runsB, qids, metric));
      ExtremesBound(AllPWithout(runsA, runsB, |runsA|, qids, metric, shared));
    }
  }

  ghost predicate IsRange(range: (real, real), ps: seq<real>) {
    range.0 in ps && range.1 in ps && forall i :: 0 <= i < |ps| ==> range.0 <= ps[i] <= range.1
  }

  // ----- Order and repetition of the question ids -----

  predicate StringLt(a: string, b: string) { StringLe(a, b) && a != b }

  lemma StringLtAsymmetric()
    ensures Asymmetric(StringLt)
  {
    forall x, y ensures !(StringLt(x, y) && StringLt(y, x)) {
      if StringLe(x, y) && StringLe(y, x) {
        StringLeAntisymmetric(x, y);
      }
    }
  }

  ghost predicate SameIds(qids: seq<string>, other: seq<string>) {
    forall q :: q in qids <==> q in other
  }

  lemma SharedByIds(qids: seq<string>, other: seq<string>, a: map<string, real>, b: map<string, real>)
    requires SameIds(qids, other)
    ensures Shared(qids, a, b) == Shared(other, a, b)
  {
    SharedMembers(qids, a, b);
    SharedMembers(other, a, b);
    SharedAscending(qids, a, b);
    SharedAscending(other, a, b);
    StringLtAsymmetric();
    ListedOnce(Shared(qids, a, b), Shared(other, a, b), StringLt);
  }

  lemma SharedAscending(qids: seq<string>, a: map<string, real>, b: map<string, real>)
    ensures Ascending(Shared(qids, a, b), StringLt)
  {
    SharedMembers(qids, a, b);
    SharedSorted(qids, a, b);
  }

  lemma SharedSorted(qids: seq<string>, a: map<string, real>, b: map<string, real>)
    ensures SortedBy(Shared(qids, a, b), StringLe)
  {
    forall x, y ensures StringLe(x, y) || StringLe(y, x) {
      StringLeTotal(x, y);
    }
    forall x, y, z | StringLe(x, y) && StringLe(y, z) ensures StringLe(x, z) {
      StringLeTransitive(x, y, z);
    }
    SortSorted(Common(qids, a.Keys * b.Keys), StringLe);
  }

  lemma MeansByIds(runs: seq<Run>, qids: seq<string>, other: seq<string>, metric: string)
    requires SameIds(qids, other)
    ensures Means(runs, qids, metric) == Means(runs, other, metric)
  {
  }

  lemma LeaveOneOutByIds(runs: seq<Run>, qids: seq<string>, other: seq<string>, metric: string, i: nat)
    requires SameIds(qids, other) && i < |runs|
    ensures Means(Without(runs, i), qids, metric) == Means(Without(runs, i), other, metric)
  {
    MeansByIds(Without(runs, i), qids, other, metric);
  }

  /** The question ids may come in any order and repeatedly. */
  lemma OrderOfIdsIrrelevant(runsA: seq<Run>, runsB: seq<Run>, qids: seq<string>, other: seq<string>, metric: string)
    requires SameIds(qids, other)
    ensures Comparison(runsA, runsB, qids, metric) == Comparison(runsA, runsB, other, metric)
  {
    MeansByIds(runsA, qids, other, metric);
    MeansByIds(runsB, qids, other, metric);
    var a, b := Means(runsA, qids, metric), Means(runsB, qids, metric);
    SharedByIds(qids, other, a, b);
    if |runsA| == |runsB| {
      LeaveOneOutAllByIds(runsA, runsB, qids, other, metric, Shared(qids, a, b));
    }
  }

  lemma LeaveOneOutAllByIds(runsA: seq<Run>, runsB: seq<Run>, qids: seq<string>, other: seq<string>, metric: string, shared: seq<string>)
    requires SameIds(qids, other) && |runsA| == |runsB|
    ensures AllPWithout(runsA, runsB, |runsA|, qids, metric, shared) == AllPWithout(runsA, runsB, |runsA|, other, metric, shared)
    ensures AllDispensable(runsA, runsB, |runsA|, qids, metric, shared) <==> AllDispensable(runsA, runsB, |runsA|, other, metric, shared)
  {
    forall i: nat | i < |runsA|
      ensures PWithout(runsA, runsB, i, qids, metric, shared) == PWithout(runsA, runsB, i, other, metric, shared)
      ensures RunDispensable(runsA, i, qids, metric, shared) <==> RunDispensable(runsA, i, other, metric, shared)
      ensures RunDispensable(runsB, i, qids, metric, shared) <==> RunDispensable(runsB, i, other, metric, shared)
    {
      LeaveOneOutByIds(runsA, qids, other, metric, i);
      LeaveOneOutByIds(runsB, qids, other, metric, i);
    }
  }
}
