/** The search result is determined by the hits and the metadata, and what that means with
    the catalog's own rules (backend/src/catalog.py). */
module SearchDeterminism {
  import opened Basics
  import opened OrderedDict
  import opened Sorting
  import opened FamilyKeys
  import opened SemanticSearch
  import opened SearchLaws

  // ----- The ranking -----

  predicate Ranks(a: Entry<string, Best>, b: Entry<string, Best>, points: seq<Hit>, rules: Rules) {
    ScoreOf(a) > ScoreOf(b)
    || (ScoreOf(a) == ScoreOf(b) && FirstHit(points, a.key, rules) < FirstHit(points, b.key, rules))
  }

  function Ranker(points: seq<Hit>, rules: Rules): (Entry<string, Best>, Entry<string, Best>) -> bool {
    (a: Entry<string, Best>, b: Entry<string, Best>) => Ranks(a, b, points, rules)
  }

  lemma RankedAscends(ranked: Ranking, points: seq<Hit>, rules: Rules)
    requires IsRanked(ranked, points, rules)
    ensures Ascending(ranked, Ranker(points, rules))
  {
    forall i, j | 0 <= i < j < |ranked| ensures Ranker(points, rules)(ranked[i], ranked[j]) {
      assert ScoreOf(ranked[i]) >= ScoreOf(ranked[j]);
    }
  }

  lemma ModelBestIsUnique(a: Entry<string, Best>, b: Entry<string, Best>, points: seq<Hit>, rules: Rules)
    requires IsModelBest(a, points, rules) && IsModelBest(b, points, rules) && a.key == b.key
    ensures a == b
  {
    ExcerptIsUnique(a.value.excerpt, b.value.excerpt, a.key, points, rules);
  }

  lemma RankedElsewhere(ranked: Ranking, other: Ranking, points: seq<Hit>, rules: Rules, e: Entry<string, Best>)
    requires IsRanked(ranked, points, rules) && IsRanked(other, points, rules) && e in ranked
    ensures e in other
  {
    var i :| 0 <= i < |ranked| && ranked[i] == e;
    assert IsModelBest(ranked[i], points, rules);
    var h :| h in points && IsHitOf(h, e.key, rules);
    var j := MemberRank(other, points, h, rules);
    assert IsModelBest(other[j], points, rules);
    ModelBestIsUnique(e, other[j], points, rules);
  }

  lemma RankingIsUnique(ranked: Ranking, other: Ranking, points: seq<Hit>, rules: Rules)
    requires IsRanked(ranked, points, rules) && IsRanked(other, points, rules)
    ensures ranked == other
  {
    forall e ensures e in ranked <==> e in other {
      if e in ranked {
        RankedElsewhere(ranked, other, points, rules, e);
      }
      if e in other {
        RankedElsewhere(other, ranked, points, rules, e);
      }
    }
    RankedAscends(ranked, points, rules);
    RankedAscends(other, points, rules);
    ListedOnce(ranked, other, Ranker(points, rules));
  }

  // ----- The families -----

  function FamilyOrder(ranked: Ranking, rules: Rules): (Entry<string, Entry<string, Best>>, Entry<string, Entry<string, Best>>) -> bool {
    (f: Entry<string, Entry<string, Best>>, g: Entry<string, Entry<string, Best>>) =>
      FirstRank(ranked, f.key, rules) < FirstRank(ranked, g.key, rules)
  }

  lemma RepresentativeIsUnique(a: Entry<string, Best>, b: Entry<string, Best>, key: string, ranked: Ranking,
                               meta: map<string, Meta>, rules: Rules)
    requires IsRepresentative(a, key, ranked, meta, |ranked|, rules) && IsRepresentative(b, key, ranked, meta, |ranked|, rules)
    ensures a == b
  {
    var n := |ranked|;
    var q :| 0 <= q < n && ranked[q] == a && rules.family(a.key) == key && Represents(ranked, meta, q, n, rules);
    var r :| 0 <= r < n && ranked[r] == b && rules.family(b.key) == key && Represents(ranked, meta, r, n, rules);
  }

  lemma FamilyElsewhere(families: Families, other: Families, ranked: Ranking, meta: map<string, Meta>, rules: Rules,
                        f: Entry<string, Entry<string, Best>>)
    requires IsCollapse(families, ranked, meta, |ranked|, rules) && IsCollapse(other, ranked, meta, |ranked|, rules)
    requires f in families
    ensures f in other
  {
    var i :| 0 <= i < |families| && families[i] == f;
    assert IsFamily(families[i], ranked, meta, |ranked|, rules);
    var r := FirstRank(ranked, f.key, rules);
    assert Lists(other, rules.family(ranked[r].key));
    var j :| 0 <= j < |other| && other[j].key == f.key;
    assert IsFamily(other[j], ranked, meta, |ranked|, rules);
    RepresentativeIsUnique(f.value, other[j].value, f.key, ranked, meta, rules);
  }

  lemma CollapseIsUnique(families: Families, other: Families, ranked: Ranking, meta: map<string, Meta>, rules: Rules)
    requires IsCollapse(families, ranked, meta, |ranked|, rules) && IsCollapse(other, ranked, meta, |ranked|, rules)
    ensures families == other
  {
    forall f ensures f in families <==> f in other {
      if f in families {
        FamilyElsewhere(families, other, ranked, meta, rules, f);
      }
      if f in other {
        FamilyElsewhere(other, families, ranked, meta, rules, f);
      }
    }
    ListedOnce(families, other, FamilyOrder(ranked, rules));
  }

  lemma ShapedOnce(rows: seq<Row>, ranked: Ranking, families: Families, other: seq<Row>, otherRanked: Ranking,
                   otherFamilies: Families, points: seq<Hit>, meta: map<string, Meta>, limit: int, rules: Rules)
    requires IsShaped(rows, ranked, families, points, meta, limit, rules)
    requires IsShaped(other, otherRanked, otherFamilies, points, meta, limit, rules)
    ensures rows == other
  {
    RankingIsUnique(ranked, otherRanked, points, rules);
    CollapseIsUnique(families, otherFamilies, ranked, meta, rules);
  }

  /** The rows leave no choice, also among models of equal score and preference. */
  lemma {:induction false} SearchIsDetermined(rows: seq<Row>, other: seq<Row>, points: seq<Hit>, meta: map<string, Meta>, limit: int, rules: Rules)
    requires IsSearchResult(rows, points, meta, limit, rules) && IsSearchResult(other, points, meta, limit, rules)
    ensures rows == other
  {
    var ranked: Ranking, families: Families :| IsShaped(rows, ranked, families, points, meta, limit, rules);
    var otherRanked: Ranking, otherFamilies: Families :| IsShaped(other, otherRanked, otherFamilies, points, meta, limit, rules);
    ShapedOnce(rows, ranked, families, other, otherRanked, otherFamilies, points, meta, limit, rules);
  }

  // ----- With the rules of the catalog -----

  ghost predicate IsCatalogResult(rows: seq<Row>, points: seq<Hit>, meta: map<string, Meta>, limit: int) {
    IsSearchResult(rows, points, meta, limit, CatalogRules())
  }

  lemma RowFamilyBest(rows: seq<Row>, ranked: Ranking, families: Families, points: seq<Hit>, meta: map<string, Meta>,
                      limit: int, rules: Rules, i: nat) returns (s: real)
    requires IsShaped(rows, ranked, families, points, meta, limit, rules) && i < |rows|
    ensures IsFamilyBest(s, RowFamily(rows[i], rules), points, rules)
  {
    var _ := RowOrigin(rows, ranked, families, meta, limit, rules, i);
    var r := FirstRank(ranked, families[i].key, rules);
    FirstIsBest(ranked, points, families[i].key, r, rules);
    s := ScoreOf(ranked[r]);
  }

  lemma FamiliesDiffer(rows: seq<Row>, points: seq<Hit>, meta: map<string, Meta>, limit: int, rules: Rules, i: nat, j: nat)
    requires IsSearchResult(rows, points, meta, limit, rules) && i < j < |rows|
    ensures RowFamily(rows[i], rules) != RowFamily(rows[j], rules)
  {
    var ranked: Ranking, families: Families :| IsShaped(rows, ranked, families, points, meta, limit, rules);
    var s := RowFamilyBest(rows, ranked, families, points, meta, limit, rules, i);
    var t := RowFamilyBest(rows, ranked, families, points, meta, limit, rules, j);
    ShapedInOrder(rows, ranked, families, points, meta, limit, rules, i, j, s, t);
  }

  /** A catalog search never shows a model and a re-upload of it that only appends a format
      marker to its name. */
  lemma NoReuploadBesideOriginal(rows: seq<Row>, points: seq<Hit>, meta: map<string, Meta>, limit: int, i: nat, j: nat,
                                 gap: string, q: string)
    requires IsCatalogResult(rows, points, meta, limit) && i < |rows| && j < |rows|
    requires AreSeparators(gap) && gap != "" && IsToken(q) && Lower(q) in QUANT_TOKENS
    requires '/' in rows[i].modelId || '/' !in gap
    ensures rows[j].modelId != rows[i].modelId + gap + q
  {
    if rows[j].modelId == rows[i].modelId + gap + q {
      KeyIgnoresAppendedMarker(rows[i].modelId, gap, q, rows[j].modelId);
      assert |rows[j].modelId| > |rows[i].modelId|;
      if i < j {
        FamiliesDiffer(rows, points, meta, limit, CatalogRules(), i, j);
      } else if j < i {
        FamiliesDiffer(rows, points, meta, limit, CatalogRules(), j, i);
      }
    }
  }

  /** A catalog search shows a quantized re-upload only if no original of its family was
      hit, and never a test artifact. */
  lemma OriginalsFirst(rows: seq<Row>, points: seq<Hit>, meta: map<string, Meta>, limit: int, i: nat, h: Hit, s: real)
    requires IsCatalogResult(rows, points, meta, limit) && i < |rows|
    requires h in points && IsFamilyHit(h, FamilyKey(rows[i].modelId), CatalogRules())
    requires IsBestScore(s, rows[i].modelId, points, CatalogRules())
    ensures IsQuantizedReupload(rows[i].modelId) ==> IsQuantizedReupload(h.modelId.value)
    ensures !IsTestArtifact(rows[i].modelId)
  {
    RowIsBestMember(rows, points, meta, limit, CatalogRules(), i, h, s);
    RowsWereHit(rows, points, meta, limit, CatalogRules(), i);
  }
}
