/** Python's built-in `sorted`: a stable sort, modelled by insertion. Clients pass
    the comparison as a total preorder `le`. */
module Sorting {

  ghost predicate TotalPreorder<T(!new)>(le: (T, T) -> bool) {
    && (forall a, b :: le(a, b) || le(b, a))
    && (forall a, b, c :: le(a, b) && le(b, c) ==> le(a, c))
  }

  ghost predicate SortedBy<T>(s: seq<T>, le: (T, T) -> bool) {
    forall i, j :: 0 <= i < j < |s| ==> le(s[i], s[j])
  }

  ghost predicate Distinct<T>(s: seq<T>) {
    forall i, j :: 0 <= i < j < |s| ==> s[i] != s[j]
  }

  /** `a` stands somewhere in `s` before `b` does. */
  ghost predicate Before<T>(s: seq<T>, a: T, b: T) {
    exists i, j :: 0 <= i < j < |s| && s[i] == a && s[j] == b
  }

  /** `s` with the element at position `i` taken out. */
  function Without<T>(s: seq<T>, i: nat): seq<T>
    requires i < |s|
  {
    s[..i] + s[i + 1..]
  }

  lemma WithoutMultiset<T>(s: seq<T>, i: nat)
    requires i < |s|
    ensures multiset(s) == multiset(Without(s, i)) + multiset{s[i]}
  {
    assert s == s[..i] + [s[i]] + s[i + 1..];
  }

  lemma WithoutMembers<T>(s: seq<T>, i: nat)
    requires i < |s| && Distinct(s)
    ensures Distinct(Without(s, i))
    ensures forall x :: x in Without(s, i) <==> x in s && x != s[i]
  {
    var rest := Without(s, i);
    assert forall k :: 0 <= k < |rest| ==> rest[k] == s[if k < i then k else k + 1];
    forall x | x in s && x != s[i] ensures x in rest {
      var k :| 0 <= k < |s| && s[k] == x;
      assert rest[if k < i then k else k - 1] == x;
    }
  }

  /** The head of a sequence can be cut out of any permutation of it. */
  lemma FindInPermutation<T>(s: seq<T>, t: seq<T>) returns (i: nat)
    requires multiset(s) == multiset(t) && s != []
    ensures i < |t| && t[i] == s[0]
    ensures multiset(s[1..]) == multiset(Without(t, i))
  {
    assert s[0] in multiset(t);
    i :| 0 <= i < |t| && t[i] == s[0];
    WithoutMultiset(t, i);
    assert s == [s[0]] + s[1..];
    assert multiset(s[1..]) == multiset(s) - multiset{s[0]};
    assert multiset(Without(t, i)) == multiset(t) - multiset{s[0]};
  }

  function Insert<T>(x: T, s: seq<T>, le: (T, T) -> bool): seq<T> {
    if s == [] || le(x, s[0]) then [x] + s else [s[0]] + Insert(x, s[1..], le)
  }

  function Sort<T>(s: seq<T>, le: (T, T) -> bool): seq<T> {
    if s == [] then [] else Insert(s[0], Sort(s[1..], le), le)
  }

  lemma {:induction false} InsertMultiset<T>(x: T, s: seq<T>, le: (T, T) -> bool)
    ensures multiset(Insert(x, s, le)) == multiset(s) + multiset{x}
  {
    if s == [] || le(x, s[0]) {
    } else {
      InsertMultiset(x, s[1..], le);
      assert s == [s[0]] + s[1..];
    }
  }

  lemma {:induction false} SortMultiset<T>(s: seq<T>, le: (T, T) -> bool)
    ensures multiset(Sort(s, le)) == multiset(s)
    ensures |Sort(s, le)| == |s|
  {
    if s == [] {
    } else {
      SortMultiset(s[1..], le);
      InsertMultiset(s[0], Sort(s[1..], le), le);
      assert s == [s[0]] + s[1..];
    }
    assert |multiset(Sort(s, le))| == |multiset(s)|;
  }

  lemma {:induction false} InsertSorted<T(!new)>(x: T, s: seq<T>, le: (T, T) -> bool)
    requires TotalPreorder(le) && SortedBy(s, le)
    ensures SortedBy(Insert(x, s, le), le)
  {
    if s == [] || le(x, s[0]) {
    } else {
      InsertSorted(x, s[1..], le);
      InsertMultiset(x, s[1..], le);
      var r := Insert(x, s[1..], le);
      forall j | 0 <= j < |r| ensures le(s[0], r[j]) {
        assert r[j] in multiset(r);
        assert r[j] == x || r[j] in s[1..];
      }
    }
  }

  lemma {:induction false} SortSorted<T(!new)>(s: seq<T>, le: (T, T) -> bool)
    requires TotalPreorder(le)
    ensures SortedBy(Sort(s, le), le)
  {
    if s == [] {
    } else {
      SortSorted(s[1..], le);
      InsertSorted(s[0], Sort(s[1..], le), le);
    }
  }

  lemma {:induction false} SortOfSorted<T>(s: seq<T>, le: (T, T) -> bool)
    requires SortedBy(s, le)
    ensures Sort(s, le) == s
  {
    if s != [] {
      SortOfSorted(s[1..], le);
      assert s == [s[0]] + s[1..];
    }
  }

  lemma SortMembers<T>(s: seq<T>, le: (T, T) -> bool)
    ensures forall x :: x in Sort(s, le) <==> x in s
  {
    SortMultiset(s, le);
    forall x ensures x in Sort(s, le) <==> x in s {
      assert x in Sort(s, le) <==> x in multiset(Sort(s, le));
      assert x in s <==> x in multiset(s);
    }
  }

  lemma DistinctCountsOne<T>(s: seq<T>, x: T)
    requires Distinct(s)
    ensures multiset(s)[x] <= 1
  {
    if x in s {
      var a :| 0 <= a < |s| && s[a] == x;
      assert s == s[..a] + [x] + s[a + 1..];
      assert x !in s[..a] && x !in s[a + 1..];
    }
  }

  /** A sequence with the elements of a duplicate-free one has no duplicates. */
  lemma DistinctByMultiset<T>(s: seq<T>, t: seq<T>)
    requires multiset(s) == multiset(t) && Distinct(s)
    ensures Distinct(t)
  {
    forall i, j | 0 <= i < j < |t| ensures t[i] != t[j] {
      DistinctCountsOne(s, t[i]);
      assert t == t[..i] + [t[i]] + t[i + 1..j] + [t[j]] + t[j + 1..];
    }
  }

  lemma BeforeLater<T>(x: T, s: seq<T>, a: T, b: T)
    requires Before(s, a, b)
    ensures Before([x] + s, a, b)
  {
    var i, j :| 0 <= i < j < |s| && s[i] == a && s[j] == b;
    assert ([x] + s)[i + 1] == a && ([x] + s)[j + 1] == b;
  }

  lemma BeforeHead<T>(x: T, s: seq<T>, b: T)
    requires b in s
    ensures Before([x] + s, x, b)
  {
    var j :| 0 <= j < |s| && s[j] == b;
    assert ([x] + s)[0] == x && ([x] + s)[j + 1] == b;
  }

  lemma BeforeCases<T>(x: T, s: seq<T>, a: T, b: T)
    requires Before([x] + s, a, b)
    ensures b in s && (a == x || Before(s, a, b))
  {
    var i, j :| 0 <= i < j < |[x] + s| && ([x] + s)[i] == a && ([x] + s)[j] == b;
    assert s[j - 1] == b;
    if i > 0 {
      assert s[i - 1] == a;
    }
  }

  lemma InsertBehind<T>(x: T, y: T, rest: seq<T>, le: (T, T) -> bool, z: T)
    requires z in Insert(x, rest, le) && le(z, y) && !le(x, y)
    ensures z in rest
  {
    InsertMultiset(x, rest, le);
    assert z in multiset(Insert(x, rest, le));
  }

  /** Where two elements of `Insert(x, s)` compare equal, they are in the order of `[x] + s`. */
  lemma {:induction false} InsertStable<T(!new)>(x: T, s: seq<T>, le: (T, T) -> bool, i: nat, j: nat)
    requires TotalPreorder(le) && SortedBy(s, le)
    requires i < j < |Insert(x, s, le)|
    requires le(Insert(x, s, le)[j], Insert(x, s, le)[i])
    ensures Before([x] + s, Insert(x, s, le)[i], Insert(x, s, le)[j])
  {
    var r := Insert(x, s, le);
    if s == [] || le(x, s[0]) {
      assert r == [x] + s;
    } else {
      var y, rest := s[0], s[1..];
      assert s == [y] + rest;
      if i > 0 {
        InsertStable(x, rest, le, i - 1, j - 1);
        BeforeCases(x, rest, r[i], r[j]);
        if r[i] == x {
          BeforeHead(x, s, r[j]);
        } else {
          BeforeLater(y, rest, r[i], r[j]);
          BeforeLater(x, s, r[i], r[j]);
        }
      } else {
        InsertBehind(x, y, rest, le, r[j]);
        BeforeHead(y, rest, r[j]);
        BeforeLater(x, s, r[i], r[j]);
      }
    }
  }

  /** `sorted` is stable: elements that compare equal keep their original order. */
  lemma {:induction false} SortStable<T(!new)>(s: seq<T>, le: (T, T) -> bool, i: nat, j: nat)
    requires TotalPreorder(le)
    requires i < j < |Sort(s, le)|
    requires le(Sort(s, le)[j], Sort(s, le)[i])
    ensures Before(s, Sort(s, le)[i], Sort(s, le)[j])
  {
    var r := Sort(s, le);
    var x, rest, t := s[0], s[1..], Sort(s[1..], le);
    assert s == [x] + rest;
    SortSorted(rest, le);
    SortMembers(rest, le);
    InsertStable(x, t, le, i, j);
    BeforeCases(x, t, r[i], r[j]);
    if r[i] == x {
      BeforeHead(x, rest, r[j]);
    } else {
      var a, b :| 0 <= a < b < |t| && t[a] == r[i] && t[b] == r[j];
      SortStable(rest, le, a, b);
      BeforeLater(x, rest, r[i], r[j]);
    }
  }

  // ----- Strict orders -----

  ghost predicate Asymmetric<T(!new)>(lt: (T, T) -> bool) {
    forall x, y :: !(lt(x, y) && lt(y, x))
  }

  ghost predicate Ascending<T>(s: seq<T>, lt: (T, T) -> bool) {
    forall i, j :: 0 <= i < j < |s| ==> lt(s[i], s[j])
  }

  ghost predicate SameElements<T(!new)>(s: seq<T>, t: seq<T>) { forall x :: x in s <==> x in t }

  lemma HeadFirst<T>(s: seq<T>, x: T, lt: (T, T) -> bool)
    requires Ascending(s, lt) && x in s
    ensures s[0] == x || lt(s[0], x)
  {
    var i :| 0 <= i < |s| && s[i] == x;
  }

  lemma HeadsAgree<T(!new)>(s: seq<T>, t: seq<T>, lt: (T, T) -> bool)
    requires Asymmetric(lt) && Ascending(s, lt) && Ascending(t, lt) && SameElements(s, t) && s != []
    ensures t != [] && s[0] == t[0]
  {
    assert s[0] in t;
    assert t[0] in s;
    HeadFirst(t, s[0], lt);
    HeadFirst(s, t[0], lt);
  }

  lemma TailElements<T(!new)>(s: seq<T>, lt: (T, T) -> bool)
    requires Asymmetric(lt) && Ascending(s, lt) && s != []
    ensures forall x :: x in s[1..] <==> x in s && x != s[0]
  {
    forall x ensures x in s[1..] <==> x in s && x != s[0] {
      if x in s[1..] {
        var i :| 0 <= i < |s[1..]| && s[1..][i] == x;
        assert lt(s[0], s[i + 1]);
      }
      if x in s && x != s[0] {
        var i :| 0 <= i < |s| && s[i] == x;
        assert s[1..][i - 1] == x;
      }
    }
  }

  lemma BothEmpty<T(!new)>(s: seq<T>, t: seq<T>)
    requires SameElements(s, t)
    ensures s == [] <==> t == []
  {
    if s != [] {
      assert s[0] in t;
    }
    if t != [] {
      assert t[0] in s;
    }
  }

  /** A strict order leaves one way to list the same elements. */
  lemma {:induction false} ListedOnce<T(!new)>(s: seq<T>, t: seq<T>, lt: (T, T) -> bool)
    requires Asymmetric(lt) && Ascending(s, lt) && Ascending(t, lt) && SameElements(s, t)
    ensures s == t
  {
    BothEmpty(s, t);
    if s != [] {
      HeadsAgree(s, t, lt);
      TailElements(s, lt);
      TailElements(t, lt);
      ListedOnce(s[1..], t[1..], lt);
      assert s == [s[0]] + s[1..] && t == [t[0]] + t[1..];
    }
  }

  // ----- Strings -----

  /** Python's order on strings. */
  predicate StringLe(a: string, b: string)
    decreases |a|
  {
    a == [] || (b != [] && (a[0] < b[0] || (a[0] == b[0] && StringLe(a[1..], b[1..]))))
  }

  lemma {:induction false} StringLeTotal(a: string, b: string)
    ensures StringLe(a, b) || StringLe(b, a)
  {
    if a != [] && b != [] && a[0] == b[0] {
      StringLeTotal(a[1..], b[1..]);
    }
  }

  lemma {:induction false} StringLeTransitive(a: string, b: string, c: string)
    requires StringLe(a, b) && StringLe(b, c)
    ensures StringLe(a, c)
  {
    if a != [] && b[0] == a[0] && b[0] == c[0] {
      StringLeTransitive(a[1..], b[1..], c[1..]);
    }
  }

  lemma {:induction false} StringLeAntisymmetric(a: string, b: string)
    requires StringLe(a, b) && StringLe(b, a)
    ensures a == b
  {
    if a != "" && b != "" {
      StringLeAntisymmetric(a[1..], b[1..]);
      assert a == [a[0]] + a[1..] && b == [b[0]] + b[1..];
    }
  }
}
