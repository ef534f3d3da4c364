/** Shaping of semantic search results (backend/src/catalog.py): chunk hits become one
    entry per model, models are ranked by their best chunk, and each family of re-uploads
    collapses to one representative. Hits and metadata are inputs. */
module SemanticSearch {
  import opened Basics
  import opened OrderedDict
  import opened Sorting
  import opened FamilyKeys

  /** A retrieved chunk; `text` is the payload text without surrounding blanks. */
  datatype Hit = Hit(modelId: Option<string>, score: real, text: string)

  datatype Best = Best(score: Option<real>, excerpt: string)

  datatype Meta = Meta(downloads: Option<int>, cardExcerpt: string)

  datatype Row = Row(modelId: string, excerpt: string)

  /** How ids are judged; `CatalogRules` are the ones of the catalog. */
  datatype Rules = Rules(testArtifact: string -> bool, family: string -> string, quantized: string -> bool)

  type Ranking = Dict<string, Best>

  const CARD_EXCERPT_CHARS := 400

  predicate Contains(s: string, part: string) {
    exists i :: 0 <= i <= |s| && part <= s[i..]
  }

  predicate IsTestArtifact(id: string) {
    Contains(Lower(id), "tiny-random") || Contains(Lower(id), "internal-testing")
  }

  function CatalogRules(): Rules {
    Rules(id => IsTestArtifact(id), id => FamilyKey(id), id => IsQuantizedReupload(id))
  }

  /** The hit counts: it names a model, and not a test artifact. */
  predicate Admissible(h: Hit, rules: Rules) {
    h.modelId.Some? && h.modelId.value != "" && !rules.testArtifact(h.modelId.value)
  }

  // ----- Best chunk per model -----

  predicate IsHitOf(h: Hit, id: string, rules: Rules) { Admissible(h, rules) && h.modelId.value == id }

  ghost predicate IsBestScore(score: real, id: string, points: seq<Hit>, rules: Rules) {
    && (exists h :: h in points && IsHitOf(h, id, rules) && h.score == score)
    && forall h :: h in points && IsHitOf(h, id, rules) ==> h.score <= score
  }

  /** Hit `i` of the model scores at least as high as its earlier ones, and has text. */
  ghost predicate SetsExcerpt(points: seq<Hit>, i: nat, id: string, rules: Rules)
    requires i < |points|
  {
    && IsHitOf(points[i], id, rules) && points[i].text != ""
    && forall j :: 0 <= j < i && IsHitOf(points[j], id, rules) ==> points[j].score <= points[i].score
  }

  /** The last hit that sets the excerpt. */
  ghost predicate IsLastSetter(points: seq<Hit>, i: nat, id: string, rules: Rules) {
    && i < |points| && SetsExcerpt(points, i, id, rules)
    && forall j :: i < j < |points| ==> !SetsExcerpt(points, j, id, rules)
  }

  ghost predicate IsExcerpt(excerpt: string, id: string, points: seq<Hit>, rules: Rules) {
    || (excerpt == "" && forall i :: 0 <= i < |points| ==> !SetsExcerpt(points, i, id, rules))
    || exists i: nat :: IsLastSetter(points, i, id, rules) && excerpt == TakePy(points[i].text, CARD_EXCERPT_CHARS)
  }

  /** Score and excerpt of a model after these hits. */
  ghost predicate IsModelBest(e: Entry<string, Best>, points: seq<Hit>, rules: Rules) {
    && e.value.score.Some?
    && IsBestScore(e.value.score.value, e.key, points, rules)
    && IsExcerpt(e.value.excerpt, e.key, points, rules)
  }

  ghost predicate Covers(agg: Ranking, points: seq<Hit>, rules: Rules) {
    forall h :: h in points && Admissible(h, rules) ==> Lists(agg, h.modelId.value)
  }

  /** One entry with score and excerpt for each model that was hit. */
  ghost predicate IsSummary(agg: Ranking, points: seq<Hit>, rules: Rules) {
    && Valid(agg)
    && (forall i {:trigger IsModelBest(agg[i], points, rules)} :: 0 <= i < |agg| ==> IsModelBest(agg[i], points, rules))
    && Covers(agg, points, rules)
  }

  /** The first hit of a model. */
  function FirstHit(points: seq<Hit>, id: string, rules: Rules): (r: nat)
    ensures r <= |points|
    ensures r < |points| ==> IsHitOf(points[r], id, rules)
    ensures forall j :: 0 <= j < r ==> !IsHitOf(points[j], id, rules)
  {
    if points == [] then 0
    else
      var n := |points| - 1;
      var r := FirstHit(points[..n], id, rules);
      if r < n then r else if IsHitOf(points[n], id, rules) then n else |points|
  }

  ghost predicate InHitOrder(agg: Ranking, points: seq<Hit>, rules: Rules) {
    forall i, j :: 0 <= i < j < |agg| ==> FirstHit(points, agg[i].key, rules) < FirstHit(points, agg[j].key, rules)
  }

  /** The models in the order in which they were hit first. */
  ghost predicate IsAggregate(agg: Ranking, points: seq<Hit>, rules: Rules) {
    IsSummary(agg, points, rules) && InHitOrder(agg, points, rules)
  }

  function Improve(before: Best, h: Hit): Best {
    if before.score.Some? && h.score < before.score.value then before
    else Best(Some(h.score), if h.text != "" then TakePy(h.text, CARD_EXCERPT_CHARS) else before.excerpt)
  }

  method Aggregate(points: seq<Hit>, rules: Rules) returns (agg: Ranking)
    ensures IsAggregate(agg, points, rules)
  {
    agg := [];
    for n := 0 to |points|
      invariant IsAggregate(agg, points[..n], rules)
    {
      var p := points[n];
      assert points[..n + 1] == points[..n] + [p];
      if Admissible(p, rules) {
        var id := p.modelId.value;
        var before := if Has(agg, id) then Get(agg, id) else Best(None, "");
        ghost var previous := agg;
        agg := Put(agg, id, Improve(before, p));
        AggregateStep(previous, points[..n], p, id, agg, rules);
      } else {
        AggregateSkip(agg, points[..n], p, rules);
      }
    }
    assert points[..|points|] == points;
  }

  lemma HitsAppend(points: seq<Hit>, p: Hit, id: string, i: nat, rules: Rules)
    requires i <= |points|
    ensures i < |points| ==> (SetsExcerpt(points + [p], i, id, rules) <==> SetsExcerpt(points, i, id, rules))
    ensures i == |points| ==> (SetsExcerpt(points + [p], i, id, rules)
      <==> IsHitOf(p, id, rules) && p.text != "" && forall h :: h in points && IsHitOf(h, id, rules) ==> h.score <= p.score)
  {
    var more := points + [p];
    assert forall j :: 0 <= j < |points| ==> more[j] == points[j];
    if i == |points| && SetsExcerpt(more, i, id, rules) {
      forall h | h in points && IsHitOf(h, id, rules) ensures h.score <= p.score {
        var j :| 0 <= j < |points| && points[j] == h;
        assert more[j] == h;
      }
    }
  }

  lemma ExcerptUnchanged(excerpt: string, id: string, points: seq<Hit>, p: Hit, rules: Rules)
    requires IsExcerpt(excerpt, id, points, rules) && !SetsExcerpt(points + [p], |points|, id, rules)
    ensures IsExcerpt(excerpt, id, points + [p], rules)
  {
    var more := points + [p];
    forall i | 0 <= i < |points| ensures SetsExcerpt(more, i, id, rules) <==> SetsExcerpt(points, i, id, rules) {
      HitsAppend(points, p, id, i, rules);
    }
    if i: nat :| IsLastSetter(points, i, id, rules) && excerpt == TakePy(points[i].text, CARD_EXCERPT_CHARS) {
      assert more[i] == points[i];
      assert IsLastSetter(more, i, id, rules);
    }
  }

  lemma ExcerptReplaced(id: string, points: seq<Hit>, p: Hit, rules: Rules)
    requires SetsExcerpt(points + [p], |points|, id, rules)
    ensures IsExcerpt(TakePy(p.text, CARD_EXCERPT_CHARS), id, points + [p], rules)
  {
    assert IsLastSetter(points + [p], |points|, id, rules);
  }

  lemma BestUnchanged(score: real, id: string, points: seq<Hit>, p: Hit, rules: Rules)
    requires IsBestScore(score, id, points, rules) && (IsHitOf(p, id, rules) ==> p.score <= score)
    ensures IsBestScore(score, id, points + [p], rules)
  {
    var h :| h in points && IsHitOf(h, id, rules) && h.score == score;
    assert h in points + [p];
  }

  lemma ModelBestUnchanged(e: Entry<string, Best>, points: seq<Hit>, p: Hit, rules: Rules)
    requires IsModelBest(e, points, rules) && !IsHitOf(p, e.key, rules)
    ensures IsModelBest(e, points + [p], rules)
  {
    BestUnchanged(e.value.score.value, e.key, points, p, rules);
    ExcerptUnchanged(e.value.excerpt, e.key, points, p, rules);
  }

  lemma FirstHitAppend(points: seq<Hit>, p: Hit, id: string, rules: Rules)
    ensures FirstHit(points, id, rules) < |points| ==> FirstHit(points + [p], id, rules) == FirstHit(points, id, rules)
    ensures FirstHit(points, id, rules) == |points| && IsHitOf(p, id, rules) ==> FirstHit(points + [p], id, rules) == |points|
  {
    assert (points + [p])[..|points|] == points;
  }

  lemma ModelWasHit(e: Entry<string, Best>, points: seq<Hit>, rules: Rules)
    requires IsModelBest(e, points, rules)
    ensures FirstHit(points, e.key, rules) < |points|
  {
    var h :| h in points && IsHitOf(h, e.key, rules) && h.score == e.value.score.value;
    var i :| 0 <= i < |points| && points[i] == h;
  }

  lemma OrderKept(agg: Ranking, points: seq<Hit>, p: Hit, rules: Rules)
    requires IsAggregate(agg, points, rules)
    ensures InHitOrder(agg, points + [p], rules)
    ensures forall i :: 0 <= i < |agg| ==> FirstHit(points + [p], agg[i].key, rules) < |points|
  {
    forall i | 0 <= i < |agg|
      ensures FirstHit(points + [p], agg[i].key, rules) == FirstHit(points, agg[i].key, rules) < |points|
    {
      ModelWasHit(agg[i], points, rules);
      FirstHitAppend(points, p, agg[i].key, rules);
    }
  }

  lemma AggregateSkip(agg: Ranking, points: seq<Hit>, p: Hit, rules: Rules)
    requires IsAggregate(agg, points, rules) && !Admissible(p, rules)
    ensures IsAggregate(agg, points + [p], rules)
  {
    OrderKept(agg, points, p, rules);
    forall i | 0 <= i < |agg| ensures IsModelBest(agg[i], points + [p], rules) {
      ModelBestUnchanged(agg[i], points, p, rules);
    }
  }

  lemma ImproveFirst(points: seq<Hit>, p: Hit, id: string, rules: Rules)
    requires IsHitOf(p, id, rules) && forall h :: h in points ==> !IsHitOf(h, id, rules)
    ensures IsBestScore(p.score, id, points + [p], rules)
    ensures IsExcerpt(Improve(Best(None, ""), p).excerpt, id, points + [p], rules)
  {
    assert (points + [p])[|points|] == p;
    HitsAppend(points, p, id, |points|, rules);
    forall i | 0 <= i < |points| ensures !SetsExcerpt(points, i, id, rules) {
      assert points[i] in points;
    }
    if p.text == "" {
      ExcerptUnchanged("", id, points, p, rules);
    } else {
      ExcerptReplaced(id, points, p, rules);
    }
  }

  lemma ImproveAgain(before: Best, points: seq<Hit>, p: Hit, id: string, rules: Rules)
    requires IsHitOf(p, id, rules) && before.score.Some?
    requires IsBestScore(before.score.value, id, points, rules) && IsExcerpt(before.excerpt, id, points, rules)
    ensures IsBestScore(Improve(before, p).score.value, id, points + [p], rules)
    ensures IsExcerpt(Improve(before, p).excerpt, id, points + [p], rules)
  {
    HitsAppend(points, p, id, |points|, rules);
    if p.score < before.score.value {
      BestUnchanged(before.score.value, id, points, p, rules);
      ExcerptUnchanged(before.excerpt, id, points, p, rules);
    } else {
      assert (points + [p])[|points|] == p;
      if p.text == "" {
        ExcerptUnchanged(before.excerpt, id, points, p, rules);
      } else {
        ExcerptReplaced(id, points, p, rules);
      }
    }
  }

  lemma ImprovedModel(agg: Ranking, points: seq<Hit>, p: Hit, id: string, rules: Rules)
    requires IsAggregate(agg, points, rules) && IsHitOf(p, id, rules)
    ensures IsModelBest(Entry(id, Improve(if Has(agg, id) then Get(agg, id) else Best(None, ""), p)), points + [p], rules)
  {
    if Has(agg, id) {
      assert IsModelBest(agg[Find(agg, id)], points, rules);
      ImproveAgain(Get(agg, id), points, p, id, rules);
    } else {
      HasIffLists(agg, id);
      ImproveFirst(points, p, id, rules);
    }
  }

  lemma SummaryStep(agg: Ranking, points: seq<Hit>, p: Hit, id: string, updated: Ranking, rules: Rules)
    requires IsAggregate(agg, points, rules) && IsHitOf(p, id, rules)
    requires updated == Put(agg, id, Improve(if Has(agg, id) then Get(agg, id) else Best(None, ""), p))
    ensures IsSummary(updated, points + [p], rules)
  {
    var f := Find(agg, id);
    PutKeys(agg, id, updated[f].value);
    ImprovedModel(agg, points, p, id, rules);
    forall i | 0 <= i < |updated| ensures IsModelBest(updated[i], points + [p], rules) {
      if i != f {
        assert updated[i] == agg[i];
        ModelBestUnchanged(agg[i], points, p, rules);
      }
    }
  }

  lemma NotHitBefore(agg: Ranking, points: seq<Hit>, id: string, rules: Rules)
    requires IsSummary(agg, points, rules) && !Has(agg, id)
    ensures FirstHit(points, id, rules) == |points|
  {
    HasIffLists(agg, id);
    forall i | 0 <= i < |points| ensures !IsHitOf(points[i], id, rules) {
      assert points[i] in points;
    }
  }

  lemma OrderStep(agg: Ranking, points: seq<Hit>, p: Hit, id: string, best: Best, rules: Rules)
    requires IsAggregate(agg, points, rules) && IsHitOf(p, id, rules)
    ensures InHitOrder(Put(agg, id, best), points + [p], rules)
  {
    OrderKept(agg, points, p, rules);
    PutKeys(agg, id, best);
    if !Has(agg, id) {
      NotHitBefore(agg, points, id, rules);
      FirstHitAppend(points, p, id, rules);
    }
  }

  lemma AggregateStep(agg: Ranking, points: seq<Hit>, p: Hit, id: string, updated: Ranking, rules: Rules)
    requires IsAggregate(agg, points, rules) && IsHitOf(p, id, rules)
    requires updated == Put(agg, id, Improve(if Has(agg, id) then Get(agg, id) else Best(None, ""), p))
    ensures IsAggregate(updated, points + [p], rules)
  {
    SummaryStep(agg, points, p, id, updated, rules);
    OrderStep(agg, points, p, id, Improve(if Has(agg, id) then Get(agg, id) else Best(None, ""), p), rules);
  }

  // ----- Ranking -----

  function ScoreOf(e: Entry<string, Best>): real {
    if e.value.score.Some? then e.value.score.value else 0.0
  }

  predicate RanksBefore(a: Entry<string, Best>, b: Entry<string, Best>) { ScoreOf(a) >= ScoreOf(b) }

  /** Models of equal score stay in the order in which they were hit first. */
  ghost predicate TiesInHitOrder(ranked: Ranking, points: seq<Hit>, rules: Rules) {
    forall i, j :: 0 <= i < j < |ranked| && ScoreOf(ranked[i]) == ScoreOf(ranked[j]) ==>
      FirstHit(points, ranked[i].key, rules) < FirstHit(points, ranked[j].key, rules)
  }

  ghost predicate IsRanked(ranked: Ranking, points: seq<Hit>, rules: Rules) {
    && IsSummary(ranked, points, rules)
    && (forall i, j :: 0 <= i < j < |ranked| ==> ScoreOf(ranked[i]) >= ScoreOf(ranked[j]))
    && TiesInHitOrder(ranked, points, rules)
  }

  lemma SortedKeys(agg: Ranking, ranked: Ranking)
    requires Valid(agg) && ranked == Sort(agg, RanksBefore)
    ensures Valid(ranked)
  {
    SortMultiset(agg, RanksBefore);
    SortMembers(agg, RanksBefore);
    assert Distinct(agg);
    DistinctByMultiset(agg, ranked);
    forall i, j | 0 <= i < j < |ranked| ensures ranked[i].key != ranked[j].key {
      assert ranked[i] in agg && ranked[j] in agg && ranked[i] != ranked[j];
    }
  }

  lemma SortedCovers(agg: Ranking, ranked: Ranking, points: seq<Hit>, rules: Rules)
    requires Covers(agg, points, rules) && forall e :: e in agg ==> e in ranked
    ensures Covers(ranked, points, rules)
  {
    forall h | h in points && Admissible(h, rules) ensures Lists(ranked, h.modelId.value) {
      var i :| 0 <= i < |agg| && agg[i].key == h.modelId.value;
      assert agg[i] in ranked;
      var j :| 0 <= j < |ranked| && ranked[j] == agg[i];
    }
  }

  lemma SortedByScore(agg: Ranking, ranked: Ranking)
    requires ranked == Sort(agg, RanksBefore)
    ensures forall i, j :: 0 <= i < j < |ranked| ==> ScoreOf(ranked[i]) >= ScoreOf(ranked[j])
  {
    SortSorted(agg, RanksBefore);
    forall i, j | 0 <= i < j < |ranked| ensures ScoreOf(ranked[i]) >= ScoreOf(ranked[j]) {
      assert RanksBefore(ranked[i], ranked[j]);
    }
  }

  lemma SortedModels(agg: Ranking, ranked: Ranking, points: seq<Hit>, rules: Rules)
    requires forall e :: e in ranked ==> e in agg
    requires forall i :: 0 <= i < |agg| ==> IsModelBest(agg[i], points, rules)
    ensures forall i :: 0 <= i < |ranked| ==> IsModelBest(ranked[i], points, rules)
  {
    forall i | 0 <= i < |ranked| ensures IsModelBest(ranked[i], points, rules) {
      assert ranked[i] in ranked;
    }
  }

  lemma SortedTies(agg: Ranking, ranked: Ranking, points: seq<Hit>, rules: Rules)
    requires InHitOrder(agg, points, rules) && ranked == Sort(agg, RanksBefore)
    ensures TiesInHitOrder(ranked, points, rules)
  {
    forall i, j | 0 <= i < j < |ranked| && ScoreOf(ranked[i]) == ScoreOf(ranked[j])
      ensures FirstHit(points, ranked[i].key, rules) < FirstHit(points, ranked[j].key, rules)
    {
      SortStable(agg, RanksBefore, i, j);
    }
  }

  lemma {:induction false} SortedAggregate(agg: Ranking, ranked: Ranking, points: seq<Hit>, rules: Rules)
    requires IsAggregate(agg, points, rules) && ranked == Sort(agg, RanksBefore)
    ensures IsRanked(ranked, points, rules)
  {
    SortMembers(agg, RanksBefore);
    SortedKeys(agg, ranked);
    SortedByScore(agg, ranked);
    SortedModels(agg, ranked, points, rules);
    SortedCovers(agg, ranked, points, rules);
    SortedTies(agg, ranked, points, rules);
  }

  // ----- One representative per family -----

  function Downloads(meta: map<string, Meta>, id: string): int {
    if id in meta && meta[id].downloads.Some? then meta[id].downloads.value else 0
  }

  /** Originals before quantized re-uploads, then more downloads first. */
  predicate Preferred(a: string, b: string, meta: map<string, Meta>, rules: Rules) {
    if rules.quantized(a) != rules.quantized(b) then rules.quantized(b)
    else Downloads(meta, a) > Downloads(meta, b)
  }

  type Families = Dict<string, Entry<string, Best>>

  /** The rank of the best-scoring member of a family. */
  function FirstRank(ranked: Ranking, key: string, rules: Rules): (r: nat)
    ensures r <= |ranked|
    ensures r < |ranked| ==> rules.family(ranked[r].key) == key
    ensures forall j :: 0 <= j < r ==> rules.family(ranked[j].key) != key
  {
    if ranked == [] then 0
    else
      var n := |ranked| - 1;
      var r := FirstRank(ranked[..n], key, rules);
      if r < n then r else if rules.family(ranked[n].key) == key then n else |ranked|
  }

  /** Model `r` represents its family among the first `n`: nobody is preferred to it, and
      it is preferred to everybody ranked higher. */
  ghost predicate Represents(ranked: Ranking, meta: map<string, Meta>, r: nat, n: nat, rules: Rules)
    requires r < n <= |ranked|
  {
    forall j :: 0 <= j < n && rules.family(ranked[j].key) == rules.family(ranked[r].key) ==>
      && !Preferred(ranked[j].key, ranked[r].key, meta, rules)
      && (j < r ==> Preferred(ranked[r].key, ranked[j].key, meta, rules))
  }

  ghost predicate IsRepresentative(e: Entry<string, Best>, key: string, ranked: Ranking, meta: map<string, Meta>, n: nat, rules: Rules)
    requires n <= |ranked|
  {
    exists r :: 0 <= r < n && ranked[r] == e && rules.family(e.key) == key && Represents(ranked, meta, r, n, rules)
  }

  lemma RepresentativeStays(e: Entry<string, Best>, key: string, ranked: Ranking, meta: map<string, Meta>, n: nat, rules: Rules)
    requires n < |ranked| && IsRepresentative(e, key, ranked, meta, n, rules)
    requires rules.family(ranked[n].key) != key || !Preferred(ranked[n].key, e.key, meta, rules)
    ensures IsRepresentative(e, key, ranked, meta, n + 1, rules)
  {
    var r :| 0 <= r < n && ranked[r] == e && rules.family(e.key) == key && Represents(ranked, meta, r, n, rules);
    assert Represents(ranked, meta, r, n + 1, rules);
  }

  lemma RepresentativeReplaced(e: Entry<string, Best>, key: string, ranked: Ranking, meta: map<string, Meta>, n: nat, rules: Rules)
    requires n < |ranked| && IsRepresentative(e, key, ranked, meta, n, rules)
    requires rules.family(ranked[n].key) == key && Preferred(ranked[n].key, e.key, meta, rules)
    ensures IsRepresentative(ranked[n], key, ranked, meta, n + 1, rules)
  {
    var r :| 0 <= r < n && ranked[r] == e && rules.family(e.key) == key && Represents(ranked, meta, r, n, rules);
    assert Represents(ranked, meta, n, n + 1, rules);
  }

  ghost predicate IsFamily(f: Entry<string, Entry<string, Best>>, ranked: Ranking, meta: map<string, Meta>, n: nat, rules: Rules)
    requires n <= |ranked|
  {
    FirstRank(ranked, f.key, rules) < n && IsRepresentative(f.value, f.key, ranked, meta, n, rules)
  }

  ghost predicate InRankOrder(families: Families, ranked: Ranking, rules: Rules) {
    forall i, j :: 0 <= i < j < |families| ==> FirstRank(ranked, families[i].key, rules) < FirstRank(ranked, families[j].key, rules)
  }

  ghost predicate IsCollapse(families: Families, ranked: Ranking, meta: map<string, Meta>, n: nat, rules: Rules)
    requires n <= |ranked|
  {
    && (forall i {:trigger IsFamily(families[i], ranked, meta, n, rules)} :: 0 <= i < |families| ==> IsFamily(families[i], ranked, meta, n, rules))
    && InRankOrder(families, ranked, rules)
    && forall r :: 0 <= r < n ==> Lists(families, rules.family(ranked[r].key))
  }

  lemma FamilyStep(families: Families, ranked: Ranking, meta: map<string, Meta>, n: nat, i: nat, rules: Rules)
    requires n < |ranked| && i < |families| && IsFamily(families[i], ranked, meta, n, rules)
    ensures var e, key := families[i].value, families[i].key;
      var next := if rules.family(ranked[n].key) == key && Preferred(ranked[n].key, e.key, meta, rules) then ranked[n] else e;
      IsFamily(Entry(key, next), ranked, meta, n + 1, rules)
  {
    var e, key := families[i].value, families[i].key;
    if rules.family(ranked[n].key) == key && Preferred(ranked[n].key, e.key, meta, rules) {
      RepresentativeReplaced(e, key, ranked, meta, n, rules);
    } else {
      RepresentativeStays(e, key, ranked, meta, n, rules);
    }
  }

  lemma NewFamily(ranked: Ranking, meta: map<string, Meta>, n: nat, key: string, rules: Rules)
    requires n < |ranked| && key == rules.family(ranked[n].key)
    requires forall r :: 0 <= r < n ==> rules.family(ranked[r].key) != key
    ensures FirstRank(ranked, key, rules) == n && IsFamily(Entry(key, ranked[n]), ranked, meta, n + 1, rules)
  {
    assert Represents(ranked, meta, n, n + 1, rules);
  }

  lemma KeyOnce(families: Families, ranked: Ranking, i: nat, key: string, rules: Rules)
    requires InRankOrder(families, ranked, rules) && i < |families| && families[i].key == key
    ensures Find(families, key) == i
  {
    var f := Find(families, key);
    assert f < |families| && families[f].key == key;
    assert FirstRank(ranked, families[f].key, rules) == FirstRank(ranked, families[i].key, rules);
  }

  lemma FamiliesStep(families: Families, ranked: Ranking, meta: map<string, Meta>, n: nat, key: string, updated: Families, rules: Rules)
    requires n < |ranked| && IsCollapse(families, ranked, meta, n, rules) && key == rules.family(ranked[n].key)
    requires Has(families, key)
    requires updated == if Preferred(ranked[n].key, Get(families, key).key, meta, rules) then Put(families, key, ranked[n]) else families
    ensures |updated| == |families|
    ensures forall i :: 0 <= i < |updated| ==> updated[i].key == families[i].key && IsFamily(updated[i], ranked, meta, n + 1, rules)
  {
    forall i | 0 <= i < |updated|
      ensures updated[i].key == families[i].key && IsFamily(updated[i], ranked, meta, n + 1, rules)
    {
      FamilyStep(families, ranked, meta, n, i, rules);
      if families[i].key == key {
        KeyOnce(families, ranked, i, key, rules);
      }
    }
  }

  lemma SameKeys(families: Families, updated: Families, ranked: Ranking, rules: Rules)
    requires |updated| == |families| && forall i :: 0 <= i < |updated| ==> updated[i].key == families[i].key
    ensures InRankOrder(families, ranked, rules) ==> InRankOrder(updated, ranked, rules)
    ensures forall key :: Lists(families, key) ==> Lists(updated, key)
  {
    forall key | Lists(families, key) ensures Lists(updated, key) {
      var i :| 0 <= i < |families| && families[i].key == key;
      assert updated[i].key == key;
    }
  }

  lemma CollapseKept(families: Families, ranked: Ranking, meta: map<string, Meta>, n: nat, updated: Families, rules: Rules)
    requires n < |ranked| && IsCollapse(families, ranked, meta, n, rules) && Lists(families, rules.family(ranked[n].key))
    requires |updated| == |families|
    requires forall i :: 0 <= i < |updated| ==> updated[i].key == families[i].key && IsFamily(updated[i], ranked, meta, n + 1, rules)
    ensures IsCollapse(updated, ranked, meta, n + 1, rules)
  {
    SameKeys(families, updated, ranked, rules);
  }

  lemma OldFamily(families: Families, ranked: Ranking, meta: map<string, Meta>, n: nat, key: string, updated: Families, rules: Rules)
    requires n < |ranked| && IsCollapse(families, ranked, meta, n, rules) && key == rules.family(ranked[n].key)
    requires Has(families, key)
    requires updated == if Preferred(ranked[n].key, Get(families, key).key, meta, rules) then Put(families, key, ranked[n]) else families
    ensures IsCollapse(updated, ranked, meta, n + 1, rules)
  {
    FamiliesStep(families, ranked, meta, n, key, updated, rules);
    HasIffLists(families, key);
    CollapseKept(families, ranked, meta, n, updated, rules);
  }

  lemma AddedInOrder(families: Families, ranked: Ranking, meta: map<string, Meta>, n: nat, last: Entry<string, Entry<string, Best>>, rules: Rules)
    requires n < |ranked| && FirstRank(ranked, last.key, rules) == n && InRankOrder(families, ranked, rules)
    requires forall i :: 0 <= i < |families| ==> IsFamily(families[i], ranked, meta, n, rules)
    ensures InRankOrder(families + [last], ranked, rules)
  {
    forall i | 0 <= i < |families| ensures FirstRank(ranked, families[i].key, rules) < n {
      assert IsFamily(families[i], ranked, meta, n, rules);
    }
  }

  lemma AddedFamily(families: Families, ranked: Ranking, meta: map<string, Meta>, n: nat, key: string, updated: Families, rules: Rules)
    requires n < |ranked| && IsCollapse(families, ranked, meta, n, rules) && key == rules.family(ranked[n].key)
    requires !Has(families, key) && updated == Put(families, key, ranked[n])
    ensures IsCollapse(updated, ranked, meta, n + 1, rules)
  {
    assert updated == families + [Entry(key, ranked[n])];
    PutKeys(families, key, ranked[n]);
    HasIffLists(families, key);
    NewFamily(ranked, meta, n, key, rules);
    AddedInOrder(families, ranked, meta, n, Entry(key, ranked[n]), rules);
    forall i | 0 <= i < |updated| ensures IsFamily(updated[i], ranked, meta, n + 1, rules) {
      if i < |families| {
        FamilyStep(families, ranked, meta, n, i, rules);
      }
    }
  }

  /** A family keeps the place of its best-scoring member, whoever ends up representing it. */
  method Collapse(ranked: Ranking, meta: map<string, Meta>, rules: Rules) returns (families: Families)
    ensures IsCollapse(families, ranked, meta, |ranked|, rules)
  {
    families := [];
    for n := 0 to |ranked|
      invariant IsCollapse(families, ranked, meta, n, rules)
    {
      var key := rules.family(ranked[n].key);
      ghost var before := families;
      if !Has(families, key) || Preferred(ranked[n].key, Get(families, key).key, meta, rules) {
        families := Put(families, key, ranked[n]);
      }
      if Has(before, key) {
        OldFamily(before, ranked, meta, n, key, families, rules);
      } else {
        AddedFamily(before, ranked, meta, n, key, families, rules);
      }
    }
  }

  function RowOf(e: Entry<string, Best>, meta: map<string, Meta>): Row {
    Row(e.key, if e.value.excerpt != "" then e.value.excerpt
               else if e.key in meta then meta[e.key].cardExcerpt else "")
  }

  ghost predicate AreRows(rows: seq<Row>, families: Families, meta: map<string, Meta>, limit: int) {
    && |rows| == |TakePy(families, limit)|
    && forall i :: 0 <= i < |rows| ==> rows[i] == RowOf(families[i].value, meta)
  }

  ghost predicate IsShaped(rows: seq<Row>, ranked: Ranking, families: Families, points: seq<Hit>, meta: map<string, Meta>,
                           limit: int, rules: Rules) {
    && IsRanked(ranked, points, rules)
    && IsCollapse(families, ranked, meta, |ranked|, rules)
    && AreRows(rows, families, meta, limit)
  }

  ghost predicate IsSearchResult(rows: seq<Row>, points: seq<Hit>, meta: map<string, Meta>, limit: int, rules: Rules) {
    exists ranked: Ranking, families: Families :: IsShaped(rows, ranked, families, points, meta, limit, rules)
  }

  method Rows(families: Families, meta: map<string, Meta>, limit: int) returns (rows: seq<Row>)
    ensures AreRows(rows, families, meta, limit)
  {
    var shown := TakePy(families, limit);
    rows := [];
    for i := 0 to |shown|
      invariant |rows| == i
      invariant forall j :: 0 <= j < i ==> rows[j] == RowOf(shown[j].value, meta)
    {
      rows := rows + [RowOf(shown[i].value, meta)];
    }
  }

  method SemanticSearch(points: seq<Hit>, meta: map<string, Meta>, limit: int, rules: Rules) returns (rows: seq<Row>)
    ensures IsSearchResult(rows, points, meta, limit, rules)
  {
    var agg := Aggregate(points, rules);
    var ranked := Sort(agg, RanksBefore);
    SortedAggregate(agg, ranked, points, rules);
    var families := Collapse(ranked, meta, rules);
    rows := Rows(families, meta, limit);
    assert IsShaped(rows, ranked, families, points, meta, limit, rules);
  }
}
