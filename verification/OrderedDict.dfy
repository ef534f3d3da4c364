/** Python's dict as far as the modelled code relies on it: keys keep the place of their
    first insertion, also when the value is overwritten. */
module OrderedDict {
  import opened Basics

  datatype Entry<+K, +V> = Entry(key: K, value: V)

  type Dict<+K, +V> = seq<Entry<K, V>>

  /** The index of the entry with key `k`, or the length when there is none. */
  function Find<K(==), V>(d: Dict<K, V>, k: K): (i: nat)
    ensures i <= |d|
    ensures i < |d| ==> d[i].key == k
    ensures forall j :: 0 <= j < i ==> d[j].key != k
  {
    if d == [] then 0
    else
      var n := |d| - 1;
      var i := Find(d[..n], k);
      if i < n then i else if d[n].key == k then n else |d|
  }

  predicate Has<K(==), V>(d: Dict<K, V>, k: K) { Find(d, k) < |d| }

  function Get<K(==), V>(d: Dict<K, V>, k: K): V
    requires Has(d, k)
  {
    d[Find(d, k)].value
  }

  function Put<K(==), V>(d: Dict<K, V>, k: K, v: V): Dict<K, V> {
    var i := Find(d, k);
    if i < |d| then d[i := Entry(k, v)] else d + [Entry(k, v)]
  }

  ghost predicate Valid<K, V>(d: Dict<K, V>) {
    forall i, j :: 0 <= i < j < |d| ==> d[i].key != d[j].key
  }

  ghost predicate Lists<K, V>(d: Dict<K, V>, k: K) {
    exists i :: 0 <= i < |d| && d[i].key == k
  }

  function Values<K, V>(d: Dict<K, V>): (r: seq<V>)
    ensures |r| == |d|
  {
    seq(|d|, i requires 0 <= i < |d| => d[i].value)
  }

  lemma FindAt<K, V>(d: Dict<K, V>, i: nat)
    requires Valid(d) && i < |d|
    ensures Find(d, d[i].key) == i
  {
  }

  lemma HasIffLists<K, V>(d: Dict<K, V>, k: K)
    ensures Has(d, k) <==> Lists(d, k)
  {
  }

  /** Overwriting keeps the keys and their order; a new key goes last. */
  lemma PutKeys<K, V>(d: Dict<K, V>, k: K, v: V)
    ensures Valid(d) ==> Valid(Put(d, k, v))
    ensures |Put(d, k, v)| == if Has(d, k) then |d| else |d| + 1
    ensures forall i :: 0 <= i < |d| ==> Put(d, k, v)[i].key == d[i].key
    ensures forall other :: Lists(Put(d, k, v), other) <==> other == k || Lists(d, other)
  {
    var e, f := Put(d, k, v), Find(d, k);
    assert e[f].key == k;
    forall other ensures Lists(e, other) <==> other == k || Lists(d, other) {
      if i :| 0 <= i < |d| && d[i].key == other {
        assert e[i].key == other;
      }
    }
  }

  lemma FindFirst<K, V>(d: Dict<K, V>, k: K, i: nat)
    requires i < |d| && d[i].key == k && forall j :: 0 <= j < i ==> d[j].key != k
    ensures Find(d, k) == i
  {
  }

  /** Reading after writing: the new value under the key, the old ones elsewhere. */
  lemma GetOfPut<K, V>(d: Dict<K, V>, k: K, v: V, other: K)
    ensures Has(Put(d, k, v), other) <==> other == k || Has(d, other)
    ensures Has(Put(d, k, v), other) ==> Get(Put(d, k, v), other) == if other == k then v else Get(d, other)
  {
    var e, f := Put(d, k, v), Find(d, k);
    assert forall i :: 0 <= i < |d| ==> e[i].key == d[i].key;
    if other == k {
      assert e[f] == Entry(k, v);
      FindFirst(e, k, f);
    } else if Has(d, other) {
      FindFirst(e, other, Find(d, other));
    }
  }
}
