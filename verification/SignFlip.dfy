/** The exact paired sign-flip permutation test of evaluation/pooled.py.

    `Hits` counts the extreme assignments by trying both signs of every difference;
    module SignVectors shows that this is the number of sign vectors with an extreme
    signed sum. The program counts by meet-in-the-middle: it enumerates the two
    halves, sorts one and bisects it twice per element of the other. Floats are
    modelled as reals. */
module SignFlip {
  import opened Sorting

  const TOLERANCE: real := 0.000000000001

  function Abs(x: real): real { if x < 0.0 then -x else x }

  function Sum(s: seq<real>): real {
    if s == [] then 0.0 else Sum(s[..|s| - 1]) + s[|s| - 1]
  }

  function Pow2(n: nat): (r: nat)
    ensures r >= 1
  {
    if n == 0 then 1 else 2 * Pow2(n - 1)
  }

  predicate RealLe(a: real, b: real) { a <= b }

  predicate Extreme(x: real, observed: real) { x >= observed || x <= -observed }

  /** Of the 2^n ways to add or subtract every value to `offset`, how many end up extreme. */
  ghost function Hits(values: seq<real>, offset: real, observed: real): nat {
    if values == [] then (if Extreme(offset, observed) then 1 else 0)
    else
      var init, v := values[..|values| - 1], values[|values| - 1];
      Hits(init, offset + v, observed) + Hits(init, offset - v, observed)
  }

  /** The share that `hits` make of the 2^n assignments: halved once per difference. */
  ghost function Share(hits: nat, n: nat): real {
    if n == 0 then hits as real else Share(hits, n - 1) / 2.0
  }

  lemma {:induction false} ShareTimesAll(hits: nat, n: nat)
    ensures Share(hits, n) * Pow2(n) as real == hits as real
  {
    if n > 0 {
      ShareTimesAll(hits, n - 1);
      assert Pow2(n) as real == 2.0 * Pow2(n - 1) as real;
    }
  }

  lemma ShareIsQuotient(hits: nat, n: nat)
    ensures Share(hits, n) == hits as real / Pow2(n) as real
  {
    ShareTimesAll(hits, n);
    QuotientUnique(Share(hits, n), Pow2(n) as real, hits as real);
  }

  lemma QuotientUnique(q: real, d: real, x: real)
    requires d > 0.0 && q * d == x
    ensures q == x / d
  {
  }

  /** The p-value by brute force over all 2^n assignments. */
  ghost function PValue(diffs: seq<real>): real {
    if Abs(Sum(diffs)) <= TOLERANCE then 1.0
    else Share(Hits(diffs, 0.0, Abs(Sum(diffs)) - TOLERANCE), |diffs|)
  }

  lemma HitsAppend(init: seq<real>, v: real, offset: real, observed: real)
    ensures Hits(init + [v], offset, observed) == Hits(init, offset + v, observed) + Hits(init, offset - v, observed)
  {
    assert (init + [v])[..|init + [v]| - 1] == init;
  }

  // ----- The program's enumeration of one half -----

  function Shift(s: seq<real>, d: real): (r: seq<real>)
    ensures |r| == |s|
  {
    seq(|s|, i requires 0 <= i < |s| => s[i] + d)
  }

  ghost function SignedSums(values: seq<real>): seq<real> {
    if values == [] then [0.0]
    else
      var sums := SignedSums(values[..|values| - 1]);
      Shift(sums, values[|values| - 1]) + Shift(sums, -values[|values| - 1])
  }

  method EnumerateSignedSums(values: seq<real>) returns (sums: seq<real>)
    ensures sums == SignedSums(values)
    ensures |sums| == Pow2(|values|)
  {
    sums := [0.0];
    for i := 0 to |values|
      invariant sums == SignedSums(values[..i])
      invariant |sums| == Pow2(i)
    {
      assert values[..i + 1][..i] == values[..i];
      sums := Shift(sums, values[i]) + Shift(sums, -values[i]);
    }
    assert values[..|values|] == values;
  }

  /** How many of the sums are extreme once `offset` is added. */
  ghost function CountExtreme(sums: seq<real>, offset: real, observed: real): nat {
    if sums == [] then 0
    else
      var here := if Extreme(sums[|sums| - 1] + offset, observed) then 1 else 0;
      CountExtreme(sums[..|sums| - 1], offset, observed) + here
  }

  lemma {:induction false} CountConcat(a: seq<real>, b: seq<real>, offset: real, observed: real)
    ensures CountExtreme(a + b, offset, observed) == CountExtreme(a, offset, observed) + CountExtreme(b, offset, observed)
  {
    if b == [] {
      assert a + b == a;
    } else {
      CountConcat(a, b[..|b| - 1], offset, observed);
      assert (a + b)[..|a + b| - 1] == a + b[..|b| - 1];
    }
  }

  lemma {:induction false} CountShift(s: seq<real>, d: real, offset: real, observed: real)
    ensures CountExtreme(Shift(s, d), offset, observed) == CountExtreme(s, offset + d, observed)
  {
    if s != [] {
      var n := |s| - 1;
      CountShift(s[..n], d, offset, observed);
      assert Shift(s, d)[..n] == Shift(s[..n], d);
      assert Shift(s, d)[n] + offset == s[n] + (offset + d);
    }
  }

  /** Appending a value splits the count into its two signs. */
  lemma CountAppend(values: seq<real>, v: real, offset: real, observed: real)
    ensures CountExtreme(SignedSums(values + [v]), offset, observed)
         == CountExtreme(SignedSums(values), offset + v, observed) + CountExtreme(SignedSums(values), offset - v, observed)
  {
    assert (values + [v])[..|values + [v]| - 1] == values;
    var sums := SignedSums(values);
    CountConcat(Shift(sums, v), Shift(sums, -v), offset, observed);
    CountShift(sums, v, offset, observed);
    CountShift(sums, -v, offset, observed);
  }

  lemma {:induction false} EnumerationCountsHits(values: seq<real>, offset: real, observed: real)
    ensures CountExtreme(SignedSums(values), offset, observed) == Hits(values, offset, observed)
  {
    if values == [] {
      CountZero(offset, observed);
    } else {
      var init, v := values[..|values| - 1], values[|values| - 1];
      assert values == init + [v];
      EnumerationCountsHits(init, offset + v, observed);
      EnumerationCountsHits(init, offset - v, observed);
      CountAppend(init, v, offset, observed);
    }
  }

  lemma CountZero(offset: real, observed: real)
    ensures CountExtreme([0.0], offset, observed) == if Extreme(offset, observed) then 1 else 0
  {
    assert [0.0][..0] == [];
    assert 0.0 + offset == offset;
  }

  // ----- Meet in the middle -----

  /** Extreme pairs: for each left sum, the right sums that complete it. */
  ghost function PairHits(left: seq<real>, right: seq<real>, offset: real, observed: real): nat {
    if left == [] then 0
    else PairHits(left[..|left| - 1], right, offset, observed) + CountExtreme(right, left[|left| - 1] + offset, observed)
  }

  lemma {:induction false} PairHitsSplit(left: seq<real>, values: seq<real>, v: real, offset: real, observed: real)
    ensures PairHits(left, SignedSums(values + [v]), offset, observed)
         == PairHits(left, SignedSums(values), offset + v, observed) + PairHits(left, SignedSums(values), offset - v, observed)
  {
    if left != [] {
      var n := |left| - 1;
      PairHitsSplit(left[..n], values, v, offset, observed);
      CountAppend(values, v, left[n] + offset, observed);
      assert left[n] + offset + v == left[n] + (offset + v);
      assert left[n] + offset - v == left[n] + (offset - v);
    }
  }

  lemma {:induction false} PairHitsZero(left: seq<real>, offset: real, observed: real)
    ensures PairHits(left, [0.0], offset, observed) == CountExtreme(left, offset, observed)
  {
    if left != [] {
      PairHitsZero(left[..|left| - 1], offset, observed);
      CountZero(left[|left| - 1] + offset, observed);
    }
  }

  /** Counting over pairs of half sums counts every full assignment once. */
  lemma {:induction false} MeetInTheMiddle(a: seq<real>, b: seq<real>, offset: real, observed: real)
    ensures PairHits(SignedSums(a), SignedSums(b), offset, observed) == Hits(a + b, offset, observed)
    decreases |b|
  {
    if b == [] {
      assert a + b == a;
      PairHitsZero(SignedSums(a), offset, observed);
      EnumerationCountsHits(a, offset, observed);
    } else {
      var init, v := b[..|b| - 1], b[|b| - 1];
      assert b == init + [v];
      assert a + b == (a + init) + [v];
      MeetInTheMiddle(a, init, offset + v, observed);
      MeetInTheMiddle(a, init, offset - v, observed);
      MeetStep(SignedSums(a), init, a + init, v, offset, observed);
    }
  }

  lemma MeetStep(left: seq<real>, init: seq<real>, both: seq<real>, v: real, offset: real, observed: real)
    requires PairHits(left, SignedSums(init), offset + v, observed) == Hits(both, offset + v, observed)
    requires PairHits(left, SignedSums(init), offset - v, observed) == Hits(both, offset - v, observed)
    ensures PairHits(left, SignedSums(init + [v]), offset, observed) == Hits(both + [v], offset, observed)
  {
    PairHitsSplit(left, init, v, offset, observed);
    HitsAppend(both, v, offset, observed);
  }

  // ----- Bisection -----

  method BisectLeft(a: seq<real>, x: real) returns (lo: nat)
    requires SortedBy(a, RealLe)
    ensures lo <= |a|
    ensures forall i :: 0 <= i < lo ==> a[i] < x
    ensures forall i :: lo <= i < |a| ==> a[i] >= x
  {
    lo := 0;
    var hi := |a|;
    while lo < hi
      invariant lo <= hi <= |a|
      invariant forall i :: 0 <= i < lo ==> a[i] < x
      invariant forall i :: hi <= i < |a| ==> a[i] >= x
    {
      var mid := (lo + hi) / 2;
      if a[mid] < x {
        assert forall i :: 0 <= i < mid ==> RealLe(a[i], a[mid]);
        lo := mid + 1;
      } else {
        assert forall i :: mid < i < |a| ==> RealLe(a[mid], a[i]);
        hi := mid;
      }
    }
  }

  method BisectRight(a: seq<real>, x: real) returns (lo: nat)
    requires SortedBy(a, RealLe)
    ensures lo <= |a|
    ensures forall i :: 0 <= i < lo ==> a[i] <= x
    ensures forall i :: lo <= i < |a| ==> a[i] > x
  {
    lo := 0;
    var hi := |a|;
    while lo < hi
      invariant lo <= hi <= |a|
      invariant forall i :: 0 <= i < lo ==> a[i] <= x
      invariant forall i :: hi <= i < |a| ==> a[i] > x
    {
      var mid := (lo + hi) / 2;
      if x < a[mid] {
        assert forall i :: mid < i < |a| ==> RealLe(a[mid], a[i]);
        hi := mid;
      } else {
        assert forall i :: 0 <= i < mid ==> RealLe(a[i], a[mid]);
        lo := mid + 1;
      }
    }
  }

  lemma {:induction false} CountUniform(s: seq<real>, offset: real, observed: real, all: bool)
    requires forall i :: 0 <= i < |s| ==> Extreme(s[i] + offset, observed) == all
    ensures CountExtreme(s, offset, observed) == if all then |s| else 0
  {
    if s != [] {
      CountUniform(s[..|s| - 1], offset, observed, all);
    }
  }

  /** Two cut points delimit the extreme elements of a sequence. */
  lemma CountByCuts(s: seq<real>, offset: real, observed: real, low: nat, high: nat)
    requires low <= high <= |s|
    requires forall i :: 0 <= i < |s| ==> (Extreme(s[i] + offset, observed) <==> i < low || high <= i)
    ensures CountExtreme(s, offset, observed) == (|s| - high) + low
  {
    var a, b, c := s[..low], s[low..high], s[high..];
    CountUniform(a, offset, observed, true);
    CountUniform(b, offset, observed, false);
    CountUniform(c, offset, observed, true);
    CountThree(a, b, c, offset, observed);
    assert s == a + b + c;
  }

  lemma CountThree(a: seq<real>, b: seq<real>, c: seq<real>, offset: real, observed: real)
    ensures CountExtreme(a + b + c, offset, observed)
         == CountExtreme(a, offset, observed) + CountExtreme(b, offset, observed) + CountExtreme(c, offset, observed)
  {
    CountConcat(a, b, offset, observed);
    CountConcat(a + b, c, offset, observed);
  }

  lemma CountWithout(t: seq<real>, i: nat, offset: real, observed: real)
    requires i < |t|
    ensures CountExtreme(t, offset, observed)
         == CountExtreme(Without(t, i), offset, observed) + (if Extreme(t[i] + offset, observed) then 1 else 0)
  {
    var head := t[..i + 1];
    assert t == head + t[i + 1..];
    CountConcat(head, t[i + 1..], offset, observed);
    assert head[..i] == t[..i];
    CountConcat(t[..i], t[i + 1..], offset, observed);
  }

  lemma {:induction false} CountPermuted(s: seq<real>, t: seq<real>, offset: real, observed: real)
    requires multiset(s) == multiset(t)
    ensures CountExtreme(s, offset, observed) == CountExtreme(t, offset, observed)
  {
    if s == [] {
      assert t == [] by { assert |multiset(s)| == |multiset(t)|; }
    } else {
      var i := FindInPermutation(s, t);
      CountWithout(t, i, offset, observed);
      CountWithout(s, 0, offset, observed);
      assert Without(s, 0) == s[1..];
      CountPermuted(s[1..], Without(t, i), offset, observed);
    }
  }

  lemma {:induction false} PairHitsPermuted(left: seq<real>, s: seq<real>, t: seq<real>, offset: real, observed: real)
    requires multiset(s) == multiset(t)
    ensures PairHits(left, s, offset, observed) == PairHits(left, t, offset, observed)
  {
    if left != [] {
      PairHitsPermuted(left[..|left| - 1], s, t, offset, observed);
      CountPermuted(s, t, left[|left| - 1] + offset, observed);
    }
  }

  /** The two bisections of one iteration delimit the extreme elements. */
  lemma CutsCount(right: seq<real>, value: real, observed: real, atMost: nat, atLeast: nat)
    requires observed > 0.0 && atMost <= |right| && atLeast <= |right|
    requires forall i :: 0 <= i < atLeast ==> right[i] < observed - value
    requires forall i :: atLeast <= i < |right| ==> right[i] >= observed - value
    requires forall i :: 0 <= i < atMost ==> right[i] <= -observed - value
    requires forall i :: atMost <= i < |right| ==> right[i] > -observed - value
    ensures CountExtreme(right, value, observed) == |right| - atLeast + atMost
  {
    if atLeast < |right| {
      assert right[atLeast] >= observed - value;
    }
    CountByCuts(right, value, observed, atMost, atLeast);
  }

  lemma HalvesCountAll(a: seq<real>, b: seq<real>, all: seq<real>, observed: real)
    requires a + b == all
    ensures PairHits(SignedSums(a), Sort(SignedSums(b), RealLe), 0.0, observed) == Hits(all, 0.0, observed)
  {
    var left, right := SignedSums(a), SignedSums(b);
    MeetInTheMiddle(a, b, 0.0, observed);
    SortMultiset(right, RealLe);
    PairHitsPermuted(left, Sort(right, RealLe), right, 0.0, observed);
  }

  /** For each left sum, the right sums that complete it to an extreme one, by two bisections. */
  method CountPairs(left: seq<real>, right: seq<real>, observed: real) returns (hits: nat)
    requires SortedBy(right, RealLe) && observed > 0.0
    ensures hits == PairHits(left, right, 0.0, observed)
  {
    hits := 0;
    for i := 0 to |left|
      invariant hits == PairHits(left[..i], right, 0.0, observed)
    {
      var atLeast := BisectLeft(right, observed - left[i]);
      hits := hits + |right| - atLeast;
      var atMost := BisectRight(right, -observed - left[i]);
      hits := hits + atMost;
      CutsCount(right, left[i], observed, atMost, atLeast);
      assert left[..i + 1][..i] == left[..i];
      assert left[i] + 0.0 == left[i];
    }
    assert left[..|left|] == left;
  }

  /** Meet in the middle: the extreme assignments, counted from the two halves. */
  method CountHits(diffs: seq<real>, observed: real) returns (hits: nat)
    requires observed > 0.0
    ensures hits == Hits(diffs, 0.0, observed)
  {
    var half := |diffs| / 2;
    var left := EnumerateSignedSums(diffs[..half]);
    var sums := EnumerateSignedSums(diffs[half..]);
    var right := Sort(sums, RealLe);
    SortSorted(sums, RealLe);
    hits := CountPairs(left, right, observed);
    HalvesCountAll(diffs[..half], diffs[half..], diffs, observed);
  }

  /** The fast test returns the brute-force p-value, on every input. */
  method ExactSignFlipP(diffs: seq<real>) returns (p: real)
    ensures p == PValue(diffs)
  {
    var total := Abs(Sum(diffs));
    if total <= TOLERANCE {
      return 1.0;
    }
    var hits := CountHits(diffs, total - TOLERANCE);
    ShareIsQuotient(hits, |diffs|);
    p := hits as real / Pow2(|diffs|) as real;
  }
}
