/** Structured filter over the model table (backend/src/catalog.py). Nullable columns are
    options; name matching and the test-artifact pattern are inputs. */
module FilterModels {
  import opened Basics
  import opened Sorting

  /** `pipelineTag` is in lower case. */
  datatype Row = Row(id: string, pipelineTag: Option<string>, tags: Option<seq<string>>, parameterCount: Option<int>,
                     downloads: Option<int>, likes: Option<int>, lastModified: Option<int>)

  datatype SortKey = Downloads | Likes | Smallest | Largest | Newest

  /** The request after trimming; an absent or "general" task type is None. */
  datatype Filter = Filter(taskType: Option<string>, tag: Option<string>, nameMatches: Option<string -> bool>,
                           minParams: Option<int>, maxParams: Option<int>, sortBy: SortKey, limit: int)

  const SPARSE_TAG_THRESHOLD := 25
  const MAX_LIMIT := 25

  /** SQL truth: a comparison with NULL is unknown. */
  datatype Truth = True | False | Unknown

  function And(a: Truth, b: Truth): Truth {
    if a == False || b == False then False else if a == True && b == True then True else Unknown
  }

  function Compared(x: Option<int>, holds: int -> bool): Truth {
    if x == None then Unknown else if holds(x.value) then True else False
  }

  /** A bound that is absent adds no clause. */
  function SizeTruth(r: Row, f: Filter): Truth {
    And(if f.minParams == None then True else Compared(r.parameterCount, n => n >= f.minParams.value),
        if f.maxParams == None then True else Compared(r.parameterCount, n => n <= f.maxParams.value))
  }

  predicate HasSize(f: Filter) { f.minParams.Some? || f.maxParams.Some? }

  /** The clauses on everything but the size; NULL in a compared column fails them. */
  predicate PassesOthers(r: Row, f: Filter, isTest: string -> bool) {
    && !isTest(r.id)
    && (f.taskType.Some? ==> r.pipelineTag == f.taskType)
    && (f.tag.Some? ==> r.tags.Some? && f.tag.value in r.tags.value)
    && (f.nameMatches.Some? ==> f.nameMatches.value(r.id))
  }

  function IsMatch(f: Filter, isTest: string -> bool): Row -> bool {
    (r: Row) => PassesOthers(r, f, isTest) && SizeTruth(r, f) == True
  }

  function IsUnknown(f: Filter, isTest: string -> bool): Row -> bool {
    (r: Row) => PassesOthers(r, f, isTest) && r.parameterCount == None
  }

  function IsOutOfRange(f: Filter, isTest: string -> bool): Row -> bool {
    (r: Row) => PassesOthers(r, f, isTest) && r.parameterCount.Some? && !InRange(r.parameterCount.value, f)
  }

  function IsOther(f: Filter, isTest: string -> bool): Row -> bool { (r: Row) => PassesOthers(r, f, isTest) }

  /** What the bounds ask of a known size. */
  predicate InRange(size: int, f: Filter) {
    (f.minParams.Some? ==> f.minParams.value <= size) && (f.maxParams.Some? ==> size <= f.maxParams.value)
  }

  function Where(rows: seq<Row>, p: Row -> bool): seq<Row> {
    if rows == [] then []
    else
      var before := Where(rows[..|rows| - 1], p);
      if p(rows[|rows| - 1]) then before + [rows[|rows| - 1]] else before
  }

  function Count(rows: seq<Row>, p: Row -> bool): nat { |Where(rows, p)| }

  // ----- Sorting -----

  function KeyOf(r: Row, key: SortKey): Option<int> {
    match key
    case Downloads => r.downloads
    case Likes => r.likes
    case Smallest => r.parameterCount
    case Largest => r.parameterCount
    case Newest => r.lastModified
  }

  /** Ascending for `smallest`, descending for the others, NULLS LAST in both. */
  function Order(key: SortKey): (Row, Row) -> bool {
    (a: Row, b: Row) =>
      var x, y := KeyOf(a, key), KeyOf(b, key);
      y == None || (x.Some? && if key == Smallest then x.value <= y.value else x.value >= y.value)
  }

  function Clamp(limit: int): (l: nat)
    ensures limit < 1 ==> l == 1
    ensures 1 <= limit <= 25 ==> l == limit
    ensures limit > 25 ==> l == 25
  {
    var capped := if limit < MAX_LIMIT then limit else MAX_LIMIT;
    if capped < 1 then 1 else capped
  }

  // ----- The query and its warnings -----

  datatype Warning = SparseTag(total: nat) | UnknownSize(count: nat) | ToySizes

  datatype Response = Response(models: seq<Row>, totalMatches: nat, warnings: seq<Warning>)

  /** `models` are the first `limit` of `matched` in some order by `le`. */
  ghost predicate IsPage(models: seq<Row>, matched: seq<Row>, le: (Row, Row) -> bool, limit: nat) {
    && |models| == (if limit < |matched| then limit else |matched|)
    && exists rest :: multiset(models + rest) == multiset(matched) && SortedBy(models + rest, le)
  }

  predicate Unconstrained(f: Filter) {
    f.taskType == None && f.tag == None && f.nameMatches == None && f.minParams == None
  }

  /** The warnings that `total` matches and `unknown` rows of unknown size call for. */
  predicate Applies(w: Warning, f: Filter, total: nat, unknown: nat) {
    match w
    case SparseTag(n) => f.tag.Some? && n == total < SPARSE_TAG_THRESHOLD
    case UnknownSize(n) => HasSize(f) && n == unknown > 0
    case ToySizes => f.sortBy == Smallest && Unconstrained(f)
  }

  /** Where a warning stands among the others. */
  function Place(w: Warning): nat {
    match w
    case SparseTag(_) => 0
    case UnknownSize(_) => 1
    case ToySizes => 2
  }

  /** Each warning that applies is given once, in their order. */
  method Warnings(f: Filter, total: nat, unknown: nat) returns (warnings: seq<Warning>)
    ensures forall w :: w in warnings <==> Applies(w, f, total, unknown)
    ensures forall i, j :: 0 <= i < j < |warnings| ==> Place(warnings[i]) < Place(warnings[j])
  {
    warnings := [];
    if f.tag.Some? && total < SPARSE_TAG_THRESHOLD {
      warnings := warnings + [SparseTag(total)];
    }
    if HasSize(f) && unknown > 0 {
      warnings := warnings + [UnknownSize(unknown)];
    }
    if f.sortBy == Smallest && Unconstrained(f) {
      warnings := warnings + [ToySizes];
    }
  }

  /** `total_matches` counts all matches whatever the limit, and the warnings are exactly
      the ones that apply. No result and no warning: no row, of known or unknown size,
      can satisfy the request. */
  method Run(rows: seq<Row>, f: Filter, isTest: string -> bool) returns (response: Response)
    ensures response.totalMatches == Count(rows, IsMatch(f, isTest))
    ensures IsPage(response.models, Where(rows, IsMatch(f, isTest)), Order(f.sortBy), Clamp(f.limit))
    ensures forall w :: w in response.warnings <==>
      Applies(w, f, Count(rows, IsMatch(f, isTest)), Count(rows, IsUnknown(f, isTest)))
    ensures response.models == [] && response.warnings == [] ==>
      forall r :: r in rows && PassesOthers(r, f, isTest) ==> r.parameterCount.Some? && !InRange(r.parameterCount.value, f)
  {
    var matched := Where(rows, IsMatch(f, isTest));
    var unknown := Count(rows, IsUnknown(f, isTest));
    var models := TakePy(Sort(matched, Order(f.sortBy)), Clamp(f.limit));
    SortedPage(matched, f.sortBy, Clamp(f.limit));
    // The window count comes with the rows: without a row there is no count.
    var total := if models == [] then 0 else |matched|;
    var warnings := Warnings(f, total, unknown);
    response := Response(models, total, warnings);
    if models == [] && warnings == [] {
      assert !Applies(UnknownSize(unknown), f, total, unknown);
      NothingFits(rows, f, isTest);
    }
  }

  lemma OrderIsTotal(key: SortKey)
    ensures TotalPreorder(Order(key))
  {
  }

  lemma SortedPage(matched: seq<Row>, key: SortKey, limit: nat)
    requires limit > 0
    ensures IsPage(TakePy(Sort(matched, Order(key)), limit), matched, Order(key), limit)
  {
    var sorted := Sort(matched, Order(key));
    var models := TakePy(sorted, limit);
    SortMultiset(matched, Order(key));
    OrderIsTotal(key);
    SortSorted(matched, Order(key));
    assert models + sorted[|models|..] == sorted;
  }

  lemma {:induction false} Partition(rows: seq<Row>, p: Row -> bool, a: Row -> bool, b: Row -> bool, c: Row -> bool)
    requires forall r :: p(r) <==> a(r) || b(r) || c(r)
    requires forall r :: !(a(r) && b(r)) && !(a(r) && c(r)) && !(b(r) && c(r))
    ensures multiset(Where(rows, p)) == multiset(Where(rows, a)) + multiset(Where(rows, b)) + multiset(Where(rows, c))
  {
    if rows != [] {
      Partition(rows[..|rows| - 1], p, a, b, c);
    }
  }

  /** With a size bound, the rows that pass the other clauses split into the matches, the
      rows of unknown size and the rows of known size out of range. */
  lemma {:induction false} SizeFilterPartition(rows: seq<Row>, f: Filter, isTest: string -> bool)
    requires HasSize(f)
    ensures multiset(Where(rows, IsOther(f, isTest)))
         == multiset(Where(rows, IsMatch(f, isTest))) + multiset(Where(rows, IsUnknown(f, isTest)))
            + multiset(Where(rows, IsOutOfRange(f, isTest)))
    ensures Count(rows, IsOther(f, isTest))
         == Count(rows, IsMatch(f, isTest)) + Count(rows, IsUnknown(f, isTest)) + Count(rows, IsOutOfRange(f, isTest))
  {
    Partition(rows, IsOther(f, isTest), IsMatch(f, isTest), IsUnknown(f, isTest), IsOutOfRange(f, isTest));
    var other, matched := Where(rows, IsOther(f, isTest)), Where(rows, IsMatch(f, isTest));
    var unknown, out := Where(rows, IsUnknown(f, isTest)), Where(rows, IsOutOfRange(f, isTest));
    assert |multiset(other)| == |multiset(matched)| + |multiset(unknown)| + |multiset(out)|;
  }

  lemma {:induction false} WhereMembers(rows: seq<Row>, p: Row -> bool, r: Row)
    ensures r in Where(rows, p) <==> r in rows && p(r)
  {
    if rows != [] {
      assert rows == rows[..|rows| - 1] + [rows[|rows| - 1]];
      WhereMembers(rows[..|rows| - 1], p, r);
    }
  }

  /** There is no match and, under a size bound, no row of unknown size exactly when each
      row that passes the other clauses has a known size out of range. */
  lemma NothingFits(rows: seq<Row>, f: Filter, isTest: string -> bool)
    ensures Count(rows, IsMatch(f, isTest)) == 0 && (HasSize(f) ==> Count(rows, IsUnknown(f, isTest)) == 0)
       <==> forall r :: r in rows && PassesOthers(r, f, isTest) ==>
              r.parameterCount.Some? && !InRange(r.parameterCount.value, f)
  {
    var matches, unknowns := Where(rows, IsMatch(f, isTest)), Where(rows, IsUnknown(f, isTest));
    forall r ensures r in matches <==> r in rows && IsMatch(f, isTest)(r) {
      WhereMembers(rows, IsMatch(f, isTest), r);
    }
    forall r ensures r in unknowns <==> r in rows && IsUnknown(f, isTest)(r) {
      WhereMembers(rows, IsUnknown(f, isTest), r);
    }
    if matches != [] {
      assert matches[0] in matches;
    }
    if unknowns != [] {
      assert unknowns[0] in unknowns;
    }
  }

  // ----- Rows, pages and warnings in plain terms -----

  /** What the request asks of a row, without three-valued logic: a row whose size is not
      known never matches a size bound. */
  predicate Fits(r: Row, f: Filter, isTest: string -> bool) {
    && !isTest(r.id)
    && (f.taskType == None || (r.pipelineTag.Some? && r.pipelineTag.value == f.taskType.value))
    && (f.tag == None || (r.tags.Some? && f.tag.value in r.tags.value))
    && (f.nameMatches == None || f.nameMatches.value(r.id))
    && (f.minParams == None || (r.parameterCount.Some? && r.parameterCount.value >= f.minParams.value))
    && (f.maxParams == None || (r.parameterCount.Some? && r.parameterCount.value <= f.maxParams.value))
  }

  /** Exactly the fitting rows match, and every page shows fitting rows of the table. */
  lemma MatchesFit(rows: seq<Row>, f: Filter, isTest: string -> bool, r: Row, models: seq<Row>)
    requires IsPage(models, Where(rows, IsMatch(f, isTest)), Order(f.sortBy), Clamp(f.limit))
    ensures r in Where(rows, IsMatch(f, isTest)) <==> r in rows && Fits(r, f, isTest)
    ensures r in models ==> r in rows && Fits(r, f, isTest)
  {
    var matched := Where(rows, IsMatch(f, isTest));
    WhereMembers(rows, IsMatch(f, isTest), r);
    var rest :| multiset(models + rest) == multiset(matched) && SortedBy(models + rest, Order(f.sortBy));
    if r in models {
      assert r in multiset(models + rest);
    }
  }

  ghost predicate DescendsBy(models: seq<Row>, column: Row -> Option<int>) {
    forall i, j :: 0 <= i < j < |models| && column(models[j]).Some? ==>
      column(models[i]).Some? && column(models[i]).value >= column(models[j]).value
  }

  /** Pages are sorted by the column asked for, largest or newest first and the smallest
      first for `smallest`; rows without a value come last. */
  lemma PagesSorted(models: seq<Row>, matched: seq<Row>, key: SortKey, limit: nat)
    requires IsPage(models, matched, Order(key), limit)
    ensures key == Downloads ==> DescendsBy(models, (r: Row) => r.downloads)
    ensures key == Likes ==> DescendsBy(models, (r: Row) => r.likes)
    ensures key == Largest ==> DescendsBy(models, (r: Row) => r.parameterCount)
    ensures key == Newest ==> DescendsBy(models, (r: Row) => r.lastModified)
    ensures key == Smallest ==> forall i, j :: 0 <= i < j < |models| && models[j].parameterCount.Some? ==>
      models[i].parameterCount.Some? && models[i].parameterCount.value <= models[j].parameterCount.value
  {
    var rest :| multiset(models + rest) == multiset(matched) && SortedBy(models + rest, Order(key));
    forall i, j | 0 <= i < j < |models| ensures Order(key)(models[i], models[j]) {
      assert (models + rest)[i] == models[i] && (models + rest)[j] == models[j];
    }
  }

  /** The conditions of the three warnings, with their numbers. */
  lemma WarningsInFull(f: Filter, total: nat, unknown: nat)
    ensures forall n: nat :: Applies(SparseTag(n), f, total, unknown) <==> f.tag.Some? && total < 25 && n == total
    ensures forall n: nat :: Applies(UnknownSize(n), f, total, unknown) <==>
      (f.minParams.Some? || f.maxParams.Some?) && unknown > 0 && n == unknown
    ensures Applies(ToySizes, f, total, unknown)
      <==> f.sortBy == Smallest && f.taskType == None && f.tag == None && f.nameMatches == None && f.minParams == None
  {
  }
}
