/** What the shaping of search results guarantees, in terms of the hits alone. */
module SearchLaws {
  import opened Basics
  import opened OrderedDict
  import opened SemanticSearch

  predicate IsFamilyHit(h: Hit, key: string, rules: Rules) {
    Admissible(h, rules) && rules.family(h.modelId.value) == key
  }

  /** The best chunk score over all members of a family. */
  ghost predicate IsFamilyBest(score: real, key: string, points: seq<Hit>, rules: Rules) {
    && (exists h :: h in points && IsFamilyHit(h, key, rules) && h.score == score)
    && forall h :: h in points && IsFamilyHit(h, key, rules) ==> h.score <= score
  }

  /** Family of the row's model. */
  function RowFamily(row: Row, rules: Rules): string { rules.family(row.modelId) }

  lemma MemberRank(ranked: Ranking, points: seq<Hit>, h: Hit, rules: Rules) returns (j: nat)
    requires IsRanked(ranked, points, rules) && h in points && Admissible(h, rules)
    ensures j < |ranked| && ranked[j].key == h.modelId.value && h.score <= ScoreOf(ranked[j])
  {
    assert Lists(ranked, h.modelId.value);
    j :| 0 <= j < |ranked| && ranked[j].key == h.modelId.value;
    assert IsModelBest(ranked[j], points, rules);
    assert IsHitOf(h, ranked[j].key, rules);
  }

  lemma FirstIsHighest(ranked: Ranking, points: seq<Hit>, key: string, r: nat, rules: Rules, h: Hit)
    requires IsRanked(ranked, points, rules) && r == FirstRank(ranked, key, rules) < |ranked|
    requires h in points && IsFamilyHit(h, key, rules)
    ensures h.score <= ScoreOf(ranked[r])
  {
    var j := MemberRank(ranked, points, h, rules);
    assert j >= r;
  }

  /** The first member of a family in the ranking has the family's best score. */
  lemma FirstIsBest(ranked: Ranking, points: seq<Hit>, key: string, r: nat, rules: Rules)
    requires IsRanked(ranked, points, rules) && r == FirstRank(ranked, key, rules) < |ranked|
    ensures IsFamilyBest(ScoreOf(ranked[r]), key, points, rules)
  {
    assert IsModelBest(ranked[r], points, rules);
    var best :| best in points && IsHitOf(best, ranked[r].key, rules) && best.score == ScoreOf(ranked[r]);
    assert IsFamilyHit(best, key, rules);
    forall h | h in points && IsFamilyHit(h, key, rules) ensures h.score <= ScoreOf(ranked[r]) {
      FirstIsHighest(ranked, points, key, r, rules, h);
    }
  }

  lemma BestIsUnique(s: real, t: real, key: string, points: seq<Hit>, rules: Rules)
    requires IsFamilyBest(s, key, points, rules) && IsFamilyBest(t, key, points, rules)
    ensures s == t
  {
  }

  /** The row at position `i`, its family and the rank of its model. */
  lemma RowOrigin(rows: seq<Row>, ranked: Ranking, families: Families, meta: map<string, Meta>, limit: int, rules: Rules, i: nat)
      returns (r: nat)
    requires IsCollapse(families, ranked, meta, |ranked|, rules) && AreRows(rows, families, meta, limit) && i < |rows|
    ensures i < |families| && families[i].key == RowFamily(rows[i], rules)
    ensures FirstRank(ranked, families[i].key, rules) < |ranked|
    ensures r < |ranked| && ranked[r].key == rows[i].modelId && Represents(ranked, meta, r, |ranked|, rules)
  {
    assert rows[i] == RowOf(families[i].value, meta);
    assert IsFamily(families[i], ranked, meta, |ranked|, rules);
    r :| 0 <= r < |ranked| && ranked[r] == families[i].value && rules.family(ranked[r].key) == families[i].key
      && Represents(ranked, meta, r, |ranked|, rules);
  }

  lemma RowScore(rows: seq<Row>, ranked: Ranking, families: Families, points: seq<Hit>, meta: map<string, Meta>, limit: int,
                 rules: Rules, i: nat, s: real) returns (a: nat)
    requires IsShaped(rows, ranked, families, points, meta, limit, rules) && i < |rows|
    requires IsFamilyBest(s, RowFamily(rows[i], rules), points, rules)
    ensures i < |families| && a == FirstRank(ranked, families[i].key, rules) < |ranked|
    ensures families[i].key == RowFamily(rows[i], rules) && ScoreOf(ranked[a]) == s
  {
    var _ := RowOrigin(rows, ranked, families, meta, limit, rules, i);
    a := FirstRank(ranked, families[i].key, rules);
    FirstIsBest(ranked, points, families[i].key, a, rules);
    BestIsUnique(s, ScoreOf(ranked[a]), families[i].key, points, rules);
  }

  lemma ShapedInOrder(rows: seq<Row>, ranked: Ranking, families: Families, points: seq<Hit>, meta: map<string, Meta>,
                      limit: int, rules: Rules, i: nat, j: nat, s: real, t: real)
    requires IsShaped(rows, ranked, families, points, meta, limit, rules) && i < j < |rows|
    requires IsFamilyBest(s, RowFamily(rows[i], rules), points, rules)
    requires IsFamilyBest(t, RowFamily(rows[j], rules), points, rules)
    ensures s >= t && RowFamily(rows[i], rules) != RowFamily(rows[j], rules)
  {
    var a := RowScore(rows, ranked, families, points, meta, limit, rules, i, s);
    var b := RowScore(rows, ranked, families, points, meta, limit, rules, j, t);
    assert a < b;
  }

  /** Rows stand for different families, best-scoring family first, whichever member
      represents it. */
  lemma {:induction false} RowsAreRankedFamilies(rows: seq<Row>, points: seq<Hit>, meta: map<string, Meta>, limit: int, rules: Rules,
                              i: nat, j: nat, s: real, t: real)
    requires IsSearchResult(rows, points, meta, limit, rules) && i < j < |rows|
    requires IsFamilyBest(s, RowFamily(rows[i], rules), points, rules)
    requires IsFamilyBest(t, RowFamily(rows[j], rules), points, rules)
    ensures s >= t && RowFamily(rows[i], rules) != RowFamily(rows[j], rules)
  {
    var ranked: Ranking, families: Families :| IsShaped(rows, ranked, families, points, meta, limit, rules);
    ShapedInOrder(rows, ranked, families, points, meta, limit, rules, i, j, s, t);
  }

  /** A row shows a model that was hit, so never a test artifact. */
  lemma RowsWereHit(rows: seq<Row>, points: seq<Hit>, meta: map<string, Meta>, limit: int, rules: Rules, i: nat)
    requires IsSearchResult(rows, points, meta, limit, rules) && i < |rows|
    ensures exists h :: h in points && IsHitOf(h, rows[i].modelId, rules)
    ensures !rules.testArtifact(rows[i].modelId)
  {
    var ranked: Ranking, families: Families :| IsShaped(rows, ranked, families, points, meta, limit, rules);
    var r := RowOrigin(rows, ranked, families, meta, limit, rules, i);
    assert IsModelBest(ranked[r], points, rules);
  }

  lemma RankedApart(ranked: Ranking, points: seq<Hit>, rules: Rules, r: nat, j: nat)
    requires IsRanked(ranked, points, rules) && r <= j < |ranked|
    ensures ScoreOf(ranked[r]) >= ScoreOf(ranked[j])
    ensures ScoreOf(ranked[r]) == ScoreOf(ranked[j]) ==>
      FirstHit(points, ranked[r].key, rules) <= FirstHit(points, ranked[j].key, rules)
  {
  }

  lemma RepresentativeOver(ranked: Ranking, meta: map<string, Meta>, rules: Rules, r: nat, j: nat)
    requires r < |ranked| && j < |ranked| && Represents(ranked, meta, r, |ranked|, rules)
    requires rules.family(ranked[j].key) == rules.family(ranked[r].key)
    ensures !Preferred(ranked[j].key, ranked[r].key, meta, rules)
    ensures j < r ==> Preferred(ranked[r].key, ranked[j].key, meta, rules)
  {
  }

  lemma RepresentativeIsBest(ranked: Ranking, points: seq<Hit>, meta: map<string, Meta>, rules: Rules, r: nat, h: Hit)
    requires IsRanked(ranked, points, rules) && r < |ranked| && Represents(ranked, meta, r, |ranked|, rules)
    requires h in points && IsFamilyHit(h, rules.family(ranked[r].key), rules)
    ensures !Preferred(h.modelId.value, ranked[r].key, meta, rules)
    ensures Preferred(ranked[r].key, h.modelId.value, meta, rules) || h.score <= ScoreOf(ranked[r])
    ensures !Preferred(ranked[r].key, h.modelId.value, meta, rules) && h.score == ScoreOf(ranked[r]) ==>
      FirstHit(points, ranked[r].key, rules) <= FirstHit(points, h.modelId.value, rules)
  {
    var j := MemberRank(ranked, points, h, rules);
    RepresentativeOver(ranked, meta, rules, r, j);
    if j >= r {
      RankedApart(ranked, points, rules, r, j);
    }
  }

  /** No hit model of the family is preferred to the one shown; of those that are equally
      good none scores higher, and of those that also score the same none was hit first. */
  lemma {:induction false} RowIsBestMember(rows: seq<Row>, points: seq<Hit>, meta: map<string, Meta>, limit: int, rules: Rules,
                        i: nat, h: Hit, s: real)
    requires IsSearchResult(rows, points, meta, limit, rules) && i < |rows|
    requires h in points && IsFamilyHit(h, RowFamily(rows[i], rules), rules)
    requires IsBestScore(s, rows[i].modelId, points, rules)
    ensures !Preferred(h.modelId.value, rows[i].modelId, meta, rules)
    ensures Preferred(rows[i].modelId, h.modelId.value, meta, rules) || h.score <= s
    ensures !Preferred(rows[i].modelId, h.modelId.value, meta, rules) && h.score == s ==>
      FirstHit(points, rows[i].modelId, rules) <= FirstHit(points, h.modelId.value, rules)
  {
    var ranked: Ranking, families: Families :| IsShaped(rows, ranked, families, points, meta, limit, rules);
    ShownIsBest(rows, ranked, families, points, meta, limit, rules, i, h, s);
  }

  lemma ShownIsBest(rows: seq<Row>, ranked: Ranking, families: Families, points: seq<Hit>, meta: map<string, Meta>,
                    limit: int, rules: Rules, i: nat, h: Hit, s: real)
    requires IsShaped(rows, ranked, families, points, meta, limit, rules) && i < |rows|
    requires h in points && IsFamilyHit(h, RowFamily(rows[i], rules), rules)
    requires IsBestScore(s, rows[i].modelId, points, rules)
    ensures !Preferred(h.modelId.value, rows[i].modelId, meta, rules)
    ensures Preferred(rows[i].modelId, h.modelId.value, meta, rules) || h.score <= s
    ensures !Preferred(rows[i].modelId, h.modelId.value, meta, rules) && h.score == s ==>
      FirstHit(points, rows[i].modelId, rules) <= FirstHit(points, h.modelId.value, rules)
  {
    var r := RowOrigin(rows, ranked, families, meta, limit, rules, i);
    RepresentativeIsBest(ranked, points, meta, rules, r, h);
    assert IsModelBest(ranked[r], points, rules);
  }

  lemma FamilyShown(rows: seq<Row>, ranked: Ranking, families: Families, points: seq<Hit>, meta: map<string, Meta>, limit: int,
                    rules: Rules, key: string) returns (f: nat)
    requires IsShaped(rows, ranked, families, points, meta, limit, rules) && Lists(families, key)
    ensures f < |families| && families[f].key == key
    ensures f < |rows| ==> RowFamily(rows[f], rules) == key
  {
    f :| 0 <= f < |families| && families[f].key == key;
    if f < |rows| {
      var _ := RowOrigin(rows, ranked, families, meta, limit, rules, f);
    }
  }

  lemma ShapedMissing(rows: seq<Row>, ranked: Ranking, families: Families, points: seq<Hit>, meta: map<string, Meta>,
                      limit: int, rules: Rules, h: Hit) returns (f: nat)
    requires IsShaped(rows, ranked, families, points, meta, limit, rules) && limit >= 0
    requires h in points && Admissible(h, rules)
    requires forall k :: 0 <= k < |rows| ==> RowFamily(rows[k], rules) != rules.family(h.modelId.value)
    ensures |rows| == limit
    ensures |rows| <= f < |families| && families[f].key == rules.family(h.modelId.value)
  {
    var j := MemberRank(ranked, points, h, rules);
    f := FamilyShown(rows, ranked, families, points, meta, limit, rules, rules.family(h.modelId.value));
  }

  /** A row's family scores at least as high as a hit of a family that comes later. */
  lemma ShownFirst(rows: seq<Row>, ranked: Ranking, families: Families, points: seq<Hit>, meta: map<string, Meta>,
                   limit: int, rules: Rules, h: Hit, f: nat, i: nat, s: real)
    requires IsShaped(rows, ranked, families, points, meta, limit, rules)
    requires h in points && Admissible(h, rules) && i < |rows| <= f < |families|
    requires families[f].key == rules.family(h.modelId.value)
    requires IsFamilyBest(s, RowFamily(rows[i], rules), points, rules)
    ensures h.score <= s
  {
    var j := MemberRank(ranked, points, h, rules);
    var a := RowScore(rows, ranked, families, points, meta, limit, rules, i, s);
    assert a < FirstRank(ranked, families[f].key, rules) <= j;
  }

  /** A hit's family is missing only when `limit` families at least as good are shown. */
  lemma {:induction false} MissingOnlyBeyondLimit(rows: seq<Row>, points: seq<Hit>, meta: map<string, Meta>, limit: int, rules: Rules,
                               h: Hit, i: nat, s: real)
    requires IsSearchResult(rows, points, meta, limit, rules) && limit >= 0
    requires h in points && Admissible(h, rules)
    requires forall k :: 0 <= k < |rows| ==> RowFamily(rows[k], rules) != rules.family(h.modelId.value)
    ensures |rows| == limit
    ensures i < |rows| && IsFamilyBest(s, RowFamily(rows[i], rules), points, rules) ==> h.score <= s
  {
    var ranked: Ranking, families: Families :| IsShaped(rows, ranked, families, points, meta, limit, rules);
    var f := ShapedMissing(rows, ranked, families, points, meta, limit, rules, h);
    if i < |rows| && IsFamilyBest(s, RowFamily(rows[i], rules), points, rules) {
      ShownFirst(rows, ranked, families, points, meta, limit, rules, h, f, i, s);
    }
  }

  lemma ExcerptIsUnique(a: string, b: string, id: string, points: seq<Hit>, rules: Rules)
    requires IsExcerpt(a, id, points, rules) && IsExcerpt(b, id, points, rules)
    ensures a == b
  {
    if i: nat :| IsLastSetter(points, i, id, rules) && a == TakePy(points[i].text, CARD_EXCERPT_CHARS) {
      if j: nat :| IsLastSetter(points, j, id, rules) && b == TakePy(points[j].text, CARD_EXCERPT_CHARS) {
        assert i == j;
      }
    }
  }

  /** A row shows its own model's excerpt, also when another member of the family earned
      it its place, and the card's only when no retrieved chunk gave one. */
  lemma RowShowsOwnExcerpt(rows: seq<Row>, points: seq<Hit>, meta: map<string, Meta>, limit: int, rules: Rules,
                           i: nat, excerpt: string)
    requires IsSearchResult(rows, points, meta, limit, rules) && i < |rows|
    requires IsExcerpt(excerpt, rows[i].modelId, points, rules)
    ensures excerpt != "" ==> rows[i].excerpt == excerpt
    ensures excerpt == "" && rows[i].modelId in meta ==> rows[i].excerpt == meta[rows[i].modelId].cardExcerpt
    ensures excerpt == "" && rows[i].modelId !in meta ==> rows[i].excerpt == ""
  {
    var ranked: Ranking, families: Families :| IsShaped(rows, ranked, families, points, meta, limit, rules);
    assert rows[i] == RowOf(families[i].value, meta);
    assert IsFamily(families[i], ranked, meta, |ranked|, rules);
    var r :| 0 <= r < |ranked| && ranked[r] == families[i].value;
    assert IsModelBest(ranked[r], points, rules);
    ExcerptIsUnique(excerpt, ranked[r].value.excerpt, rows[i].modelId, points, rules);
  }
}
