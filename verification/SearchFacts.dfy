/** The search result in plain terms (backend/src/catalog.py): hits, scores, downloads and
    the order of the hits. */
module SearchFacts {
  import opened Basics
  import opened OrderedDict
  import opened FamilyKeys
  import opened FamilyKeyFacts
  import opened SemanticSearch
  import opened SearchLaws
  import opened SearchDeterminism

  /** Hit `j` is one of a model that may be shown. */
  ghost predicate Hits(points: seq<Hit>, j: nat, id: string, rules: Rules) {
    j < |points| && points[j].modelId == Some(id) && id != "" && !rules.testArtifact(id)
  }

  ghost predicate HitsFamily(points: seq<Hit>, j: nat, id: string, row: Row, rules: Rules) {
    Hits(points, j, id, rules) && rules.family(id) == rules.family(row.modelId)
  }

  lemma RowBest(rows: seq<Row>, points: seq<Hit>, meta: map<string, Meta>, limit: int, rules: Rules, i: nat) returns (s: real, k: nat)
    requires IsSearchResult(rows, points, meta, limit, rules) && i < |rows|
    ensures IsBestScore(s, rows[i].modelId, points, rules)
    ensures Hits(points, k, rows[i].modelId, rules) && points[k].score == s
  {
    var ranked: Ranking, families: Families :| IsShaped(rows, ranked, families, points, meta, limit, rules);
    var r := RowOrigin(rows, ranked, families, meta, limit, rules, i);
    assert IsModelBest(ranked[r], points, rules);
    s := ScoreOf(ranked[r]);
    k := HitOfBest(s, rows[i].modelId, points, rules);
  }

  lemma HitOfBest(s: real, id: string, points: seq<Hit>, rules: Rules) returns (k: nat)
    requires IsBestScore(s, id, points, rules)
    ensures Hits(points, k, id, rules) && points[k].score == s
  {
    var h :| h in points && IsHitOf(h, id, rules) && h.score == s;
    k :| 0 <= k < |points| && points[k] == h;
  }

  lemma FirstHitIsHit(points: seq<Hit>, id: string, j: nat, rules: Rules)
    requires Hits(points, j, id, rules)
    ensures Hits(points, FirstHit(points, id, rules), id, rules) && FirstHit(points, id, rules) <= j
  {
    assert IsHitOf(points[j], id, rules);
  }

  /** The model has a hit that scores at least this much. */
  ghost predicate Reaches(points: seq<Hit>, id: string, score: real, rules: Rules) {
    exists k: nat :: Hits(points, k, id, rules) && points[k].score >= score
  }

  ghost predicate Exceeds(points: seq<Hit>, id: string, score: real, rules: Rules) {
    exists k: nat :: Hits(points, k, id, rules) && points[k].score > score
  }

  ghost predicate HitBy(points: seq<Hit>, id: string, j: nat, rules: Rules) {
    exists k: nat :: Hits(points, k, id, rules) && k <= j
  }

  /** A row shows an original if one of its family was hit; among equals the most
      downloaded, then the best-scoring, then the one hit first. Missing download counts
      are 0. */
  lemma ShownIsBest(rows: seq<Row>, points: seq<Hit>, meta: map<string, Meta>, limit: int, rules: Rules,
                    i: nat, j: nat, id: string, own: int, other: int)
    requires IsSearchResult(rows, points, meta, limit, rules) && i < |rows| && HitsFamily(points, j, id, rows[i], rules)
    requires own == if rows[i].modelId in meta && meta[rows[i].modelId].downloads.Some?
                    then meta[rows[i].modelId].downloads.value else 0
    requires other == if id in meta && meta[id].downloads.Some? then meta[id].downloads.value else 0
    ensures rules.quantized(rows[i].modelId) ==> rules.quantized(id)
    ensures rules.quantized(rows[i].modelId) == rules.quantized(id) ==> own >= other
    ensures rules.quantized(rows[i].modelId) == rules.quantized(id) && own == other ==>
      && Reaches(points, rows[i].modelId, points[j].score, rules)
      && (Exceeds(points, rows[i].modelId, points[j].score, rules) || HitBy(points, rows[i].modelId, j, rules))
  {
    var s, k := RowBest(rows, points, meta, limit, rules, i);
    assert points[j] in points && IsFamilyHit(points[j], RowFamily(rows[i], rules), rules);
    RowIsBestMember(rows, points, meta, limit, rules, i, points[j], s);
    FirstHitIsHit(points, rows[i].modelId, k, rules);
    FirstHitIsHit(points, id, j, rules);
    assert Preferred(rows[i].modelId, id, meta, rules) <==>
      if rules.quantized(rows[i].modelId) != rules.quantized(id) then rules.quantized(id) else own > other;
  }

  /** Rows come by the best score in the family: whatever hit a later row's family had, an
      earlier row's family had one that scores at least as high. */
  lemma RowsByBestHit(rows: seq<Row>, points: seq<Hit>, meta: map<string, Meta>, limit: int, rules: Rules,
                      i: nat, l: nat, j: nat, id: string)
    requires IsSearchResult(rows, points, meta, limit, rules) && i < l < |rows| && HitsFamily(points, j, id, rows[l], rules)
    ensures exists k: nat, other: string :: HitsFamily(points, k, other, rows[i], rules) && points[k].score >= points[j].score
  {
    var ranked: Ranking, families: Families :| IsShaped(rows, ranked, families, points, meta, limit, rules);
    var s := RowFamilyBest(rows, ranked, families, points, meta, limit, rules, i);
    var t := RowFamilyBest(rows, ranked, families, points, meta, limit, rules, l);
    ShapedInOrder(rows, ranked, families, points, meta, limit, rules, i, l, s, t);
    assert IsFamilyHit(points[j], RowFamily(rows[l], rules), rules);
    BestFamilyHit(s, rows[i], points, rules);
  }

  lemma BestFamilyHit(s: real, row: Row, points: seq<Hit>, rules: Rules)
    requires IsFamilyBest(s, RowFamily(row, rules), points, rules)
    ensures exists k: nat, other: string :: HitsFamily(points, k, other, row, rules) && points[k].score == s
  {
    var h :| h in points && IsFamilyHit(h, RowFamily(row, rules), rules) && h.score == s;
    var k :| 0 <= k < |points| && points[k] == h;
    assert HitsFamily(points, k, h.modelId.value, row, rules);
  }

  /** With fewer rows than allowed, every family that was hit is shown. */
  lemma AllFamiliesShown(rows: seq<Row>, points: seq<Hit>, meta: map<string, Meta>, limit: int, rules: Rules, j: nat, id: string)
    requires IsSearchResult(rows, points, meta, limit, rules) && Hits(points, j, id, rules) && |rows| < limit
    ensures exists i :: 0 <= i < |rows| && rules.family(rows[i].modelId) == rules.family(id)
  {
    if forall i :: 0 <= i < |rows| ==> RowFamily(rows[i], rules) != rules.family(id) {
      MissingOnlyBeyondLimit(rows, points, meta, limit, rules, points[j], |rows|, 0.0);
    }
  }

  /** Hit `k` gives the excerpt: it has text and no earlier hit of the model scores higher,
      which is true of no later one. */
  ghost predicate GivesExcerpt(points: seq<Hit>, k: nat, id: string, rules: Rules) {
    && Hits(points, k, id, rules) && points[k].text != ""
    && (forall j :: 0 <= j < k && Hits(points, j, id, rules) ==> points[j].score <= points[k].score)
    && forall l :: k < l && Hits(points, l, id, rules) && points[l].text != "" ==>
      exists j :: 0 <= j < l && Hits(points, j, id, rules) && points[j].score > points[l].score
  }

  /** The excerpt is the first 400 characters of that hit's text. */
  lemma ExcerptOfHit(rows: seq<Row>, points: seq<Hit>, meta: map<string, Meta>, limit: int, rules: Rules, i: nat, k: nat)
    requires IsSearchResult(rows, points, meta, limit, rules) && i < |rows| && GivesExcerpt(points, k, rows[i].modelId, rules)
    ensures rows[i].excerpt == if |points[k].text| <= 400 then points[k].text else points[k].text[..400]
  {
    var id := rows[i].modelId;
    forall j: nat | j < |points| ensures IsHitOf(points[j], id, rules) <==> Hits(points, j, id, rules) {
    }
    assert SetsExcerpt(points, k, id, rules);
    forall l | k < l < |points| ensures !SetsExcerpt(points, l, id, rules) {
      if Hits(points, l, id, rules) && points[l].text != "" {
        var j :| 0 <= j < l && Hits(points, j, id, rules) && points[j].score > points[l].score;
      }
    }
    assert IsLastSetter(points, k, id, rules);
    var excerpt := TakePy(points[k].text, CARD_EXCERPT_CHARS);
    assert IsExcerpt(excerpt, id, points, rules);
    RowShowsOwnExcerpt(rows, points, meta, limit, rules, i, excerpt);
  }

  // ----- The rules of the catalog -----

  /** `part` stands at position `i` of the id, in any letter case. */
  ghost predicate FoundAt(id: string, part: string, i: nat) {
    i + |part| <= |id| && SpelledLike(id[i..i + |part|], part)
  }

  ghost predicate HasAnywhere(id: string, part: string) { exists i: nat :: FoundAt(id, part, i) }

  lemma ContainsIff(id: string, part: string)
    requires NoCapitals(part)
    ensures Contains(Lower(id), part) <==> HasAnywhere(id, part)
  {
    if i :| 0 <= i <= |Lower(id)| && part <= Lower(id)[i..] {
      assert Lower(id)[i..][..|part|] == Lower(id)[i..i + |part|] == Lower(id[i..i + |part|]);
      LikeIffLower(id[i..i + |part|], part);
      assert FoundAt(id, part, i);
    }
    if i: nat :| FoundAt(id, part, i) {
      LikeIffLower(id[i..i + |part|], part);
      FoundIsPrefix(id, part, i);
    }
  }

  lemma FoundIsPrefix(id: string, part: string, i: nat)
    requires i + |part| <= |id| && Lower(id[i..i + |part|]) == part
    ensures part <= Lower(id)[i..]
  {
    assert Lower(id)[i..][..|part|] == part;
  }

  /** A catalog search leaves out exactly the ids with one of two names in them, in any
      letter case. */
  lemma TestArtifactIff(id: string)
    ensures CatalogRules().testArtifact(id) <==> HasAnywhere(id, "tiny-random") || HasAnywhere(id, "internal-testing")
  {
    ContainsIff(id, "tiny-random");
    ContainsIff(id, "internal-testing");
  }

  /** It compares ids by family key, and takes an id for a re-upload by its words. */
  lemma CatalogJudges(id: string)
    ensures CatalogRules().family(id) == FamilyKey(id)
    ensures CatalogRules().quantized(id) <==> exists i: nat, j: nat :: WordAt(id, i, j) && IsMarker(id[i..j])
  {
    QuantizedIffMarker(id);
  }
}
