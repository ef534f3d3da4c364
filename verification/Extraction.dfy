/** Extraction of ranked predictions from an answer (evaluation/metrics.py). The regular
    expression matches, the bare-name searches, the catalog and the plausibility check of
    unknown ids are inputs; `norm` is the id normalisation. */
module Extraction {
  import opened Basics
  import opened Sorting
  import opened Metrics
  import Rearrangement

  datatype Mention = Mention(offset: nat, display: string)

  type Entries = map<string, Mention>

  // ----- Umbrella ids -----

  predicate Extends(other: string, key: string) {
    other != key && key + "-" <= other
  }

  function Extensions(key: string, keys: set<string>): set<string> {
    set other | other in keys && Extends(other, key)
  }

  /** The non-gold ids that at least two of the mentioned ids extend. */
  function Umbrellas(keys: set<string>, gold: set<string>): set<string> {
    set key | key in keys && key !in gold && |Extensions(key, keys)| >= 2
  }

  lemma ExtendsTransitive(a: string, b: string, c: string)
    requires Extends(c, b) && Extends(b, a)
    ensures Extends(c, a)
  {
    var dash := a + "-";
    assert |dash| == |a| + 1 <= |b| < |c|;
    assert c[..|b|] == (b + "-")[..|b|] == b;
    assert c[..|dash|] == b[..|dash|];
  }

  /** Among the ids that stay, an id with two extensions keeps two. */
  lemma {:induction false} ExtensionsSurvive(key: string, keys: set<string>, gold: set<string>)
    requires |Extensions(key, keys)| >= 2
    ensures |Extensions(key, keys - Umbrellas(keys, gold))| >= 2
    decreases |Extensions(key, keys)|
  {
    var all, kept := Extensions(key, keys), Extensions(key, keys - Umbrellas(keys, gold));
    if e :| e in all && e in Umbrellas(keys, gold) {
      forall x | x in Extensions(e, keys) ensures x in all - {e} {
        ExtendsTransitive(key, e, x);
      }
      SubsetCardinality(Extensions(e, keys), all - {e});
      ExtensionsSurvive(e, keys, gold);
      var keptByE := Extensions(e, keys - Umbrellas(keys, gold));
      forall x | x in keptByE ensures x in kept {
        ExtendsTransitive(key, e, x);
      }
      SubsetCardinality(keptByE, kept);
    } else {
      assert all <= kept;
      SubsetCardinality(all, kept);
    }
  }

  lemma Pick<T>(s: set<T>) returns (x: T)
    requires |s| > 0
    ensures x in s
  {
    x :| x in s;
  }

  lemma ExtensionsMonotone(key: string, a: set<string>, b: set<string>)
    requires a <= b
    ensures |Extensions(key, a)| <= |Extensions(key, b)|
  {
    SubsetCardinality(Extensions(key, a), Extensions(key, b));
  }

  /** Removing umbrellas never empties an answer. */
  lemma SomethingSurvives(keys: set<string>, gold: set<string>)
    requires keys != {}
    ensures keys - Umbrellas(keys, gold) != {}
  {
    var key :| key in keys;
    if key in Umbrellas(keys, gold) {
      ExtensionsSurvive(key, keys, gold);
      var e := Pick(Extensions(key, keys - Umbrellas(keys, gold)));
      assert e in keys - Umbrellas(keys, gold);
    } else {
      assert key in keys - Umbrellas(keys, gold);
    }
  }

  ghost function Kept(entries: Entries, gone: set<string>): Entries {
    map k | k in entries && k !in gone :: entries[k]
  }

  /** The loop counts extensions among what is left and deletes as it goes, in any order;
      the outcome is the one-shot filter on the original entries. */
  method RemoveUmbrellas(entries: Entries, gold: set<string>, order: seq<string>) returns (rest: Entries)
    requires Distinct(order)
    requires forall k :: k in order ==> k in entries && k !in gold
    requires forall k :: k in entries && k !in gold ==> k in order
    ensures rest == Kept(entries, Umbrellas(entries.Keys, gold))
  {
    rest := entries;
    ghost var umbrellas, gone: set<string> := Umbrellas(entries.Keys, gold), {};
    for i := 0 to |order|
      invariant gone <= umbrellas
      invariant forall k :: k in gone <==> k in order[..i] && k in umbrellas
      invariant rest == Kept(entries, gone)
    {
      var key := order[i];
      assert order[..i + 1] == order[..i] + [key];
      assert key !in order[..i];
      var members := |Extensions(key, rest.Keys)|;
      if |Extensions(key, entries.Keys)| >= 2 {
        ExtensionsSurvive(key, entries.Keys, gold);
        ExtensionsMonotone(key, entries.Keys - umbrellas, rest.Keys);
      }
      ExtensionsMonotone(key, rest.Keys, entries.Keys);
      if members >= 2 {
        rest := rest - {key};
        gone := gone + {key};
      }
    }
    assert order[..|order|] == order;
    assert gone == umbrellas;
  }

  // ----- Collecting mentions -----

  function KeptMatches(matches: seq<Mention>, catalog: set<string>, plausible: string -> bool, norm: Norm): seq<Mention> {
    if matches == [] then []
    else
      var n := |matches| - 1;
      var before := KeptMatches(matches[..n], catalog, plausible, norm);
      var name := matches[n].display;
      if norm(name) in catalog || plausible(name) then before + [matches[n]] else before
  }

  /** Gold models mentioned by bare repository name: `bare[i]` is where, if anywhere. */
  function BareMentions(gold: seq<string>, bare: seq<Option<nat>>): seq<Mention>
    requires |bare| == |gold|
  {
    if gold == [] then []
    else
      var n := |gold| - 1;
      var before := BareMentions(gold[..n], bare[..n]);
      if bare[n].Some? then before + [Mention(bare[n].value, gold[n])] else before
  }

  /** Of the mentions of one id, this is the first in the list with the smallest offset. */
  ghost predicate IsFirstOf(m: Mention, key: string, mentions: seq<Mention>, norm: Norm) {
    norm(m.display) == key && exists i: nat :: i < |mentions| && mentions[i] == m && NoneBefore(mentions, i, norm)
  }

  /** All earlier mentions of the same id have larger offsets. */
  ghost predicate NoneBefore(mentions: seq<Mention>, i: nat, norm: Norm)
    requires i < |mentions|
  {
    forall j :: 0 <= j < i && norm(mentions[j].display) == norm(mentions[i].display) ==>
      mentions[j].offset > mentions[i].offset
  }

  /** Every mentioned id has one entry, at the smallest offset it is mentioned at. */
  ghost predicate FirstMentions(entries: Entries, mentions: seq<Mention>, norm: Norm) {
    && (forall m :: m in mentions ==>
      norm(m.display) in entries && entries[norm(m.display)].offset <= m.offset)
    && forall k :: k in entries ==> IsFirstOf(entries[k], k, mentions, norm)
  }

  /** `order` lists the keys of `entries`, in order of insertion. */
  ghost predicate ListsKeys(order: seq<string>, entries: Entries) {
    Distinct(order) && forall k :: k in order <==> k in entries
  }

  lemma FirstStays(m: Mention, key: string, mentions: seq<Mention>, norm: Norm, last: Mention)
    requires IsFirstOf(m, key, mentions, norm)
    ensures IsFirstOf(m, key, mentions + [last], norm)
  {
    var more := mentions + [last];
    var i: nat :| i < |mentions| && mentions[i] == m && NoneBefore(mentions, i, norm);
    assert more[i] == m && forall j :: 0 <= j < i ==> more[j] == mentions[j];
    assert NoneBefore(more, i, norm);
  }

  lemma FirstReplaced(mentions: seq<Mention>, norm: Norm, m: Mention)
    requires forall x :: x in mentions && norm(x.display) == norm(m.display) ==> x.offset > m.offset
    ensures IsFirstOf(m, norm(m.display), mentions + [m], norm)
  {
    var more := mentions + [m];
    assert more[|mentions|] == m;
    forall j | 0 <= j < |mentions| && norm(more[j].display) == norm(m.display) ensures more[j].offset > m.offset {
      assert more[j] == mentions[j];
    }
    assert NoneBefore(more, |mentions|, norm);
  }

  lemma AddMention(entries: Entries, mentions: seq<Mention>, m: Mention, norm: Norm, updated: Entries)
    requires FirstMentions(entries, mentions, norm)
    requires var k := norm(m.display);
      if k in entries && entries[k].offset <= m.offset then updated == entries else updated == entries[k := m]
    ensures FirstMentions(updated, mentions + [m], norm)
  {
    forall x | x in mentions + [m]
      ensures norm(x.display) in updated && updated[norm(x.display)].offset <= x.offset
    {
      assert x in mentions || x == m;
    }
    forall k | k in updated ensures IsFirstOf(updated[k], k, mentions + [m], norm) {
      if k in entries && updated[k] == entries[k] {
        FirstStays(entries[k], k, mentions, norm, m);
      } else {
        FirstReplaced(mentions, norm, m);
      }
    }
  }

  method CollectMatches(matches: seq<Mention>, catalog: set<string>, plausible: string -> bool, norm: Norm)
      returns (entries: Entries, order: seq<string>)
    requires forall i, j :: 0 <= i < j < |matches| ==> matches[i].offset < matches[j].offset
    ensures FirstMentions(entries, KeptMatches(matches, catalog, plausible, norm), norm)
    ensures ListsKeys(order, entries)
  {
    entries, order := map[], [];
    for i := 0 to |matches|
      invariant FirstMentions(entries, KeptMatches(matches[..i], catalog, plausible, norm), norm)
      invariant ListsKeys(order, entries)
      invariant forall k :: k in entries ==> exists j :: 0 <= j < i && entries[k] == matches[j]
    {
      var candidate := matches[i].display;
      var key := norm(candidate);
      assert matches[..i + 1][..i] == matches[..i];
      if key in catalog || plausible(candidate) {
        ghost var before := entries;
        if key !in entries {
          entries := entries[key := matches[i]];
          order := order + [key];
        }
        AddMention(before, KeptMatches(matches[..i], catalog, plausible, norm), matches[i], norm, entries);
      }
    }
    assert matches[..|matches|] == matches;
  }

  method CollectGold(entries: Entries, order: seq<string>, gold: seq<string>, bare: seq<Option<nat>>, norm: Norm,
                     ghost mentions: seq<Mention>)
      returns (updated: Entries, updatedOrder: seq<string>)
    requires |bare| == |gold|
    requires FirstMentions(entries, mentions, norm) && ListsKeys(order, entries)
    ensures FirstMentions(updated, mentions + BareMentions(gold, bare), norm)
    ensures ListsKeys(updatedOrder, updated)
  {
    updated, updatedOrder := entries, order;
    assert mentions + [] == mentions;
    for i := 0 to |gold|
      invariant FirstMentions(updated, mentions + BareMentions(gold[..i], bare[..i]), norm)
      invariant ListsKeys(updatedOrder, updated)
    {
      var key := norm(gold[i]);
      ghost var before, seen := updated, mentions + BareMentions(gold[..i], bare[..i]);
      assert gold[..i + 1][..i] == gold[..i] && bare[..i + 1][..i] == bare[..i];
      if bare[i].Some? {
        if key !in updated || bare[i].value < updated[key].offset {
          if key !in updated {
            updatedOrder := updatedOrder + [key];
          }
          updated := updated[key := Mention(bare[i].value, gold[i])];
        }
        AddMention(before, seen, Mention(bare[i].value, gold[i]), norm, updated);
        assert mentions + BareMentions(gold[..i + 1], bare[..i + 1]) == seen + [Mention(bare[i].value, gold[i])];
      }
    }
    assert gold[..|gold|] == gold && bare[..|bare|] == bare;
  }

  // ----- The ranked list -----

  predicate MentionLe(a: Mention, b: Mention) {
    a.offset < b.offset || (a.offset == b.offset && StringLe(a.display, b.display))
  }

  lemma MentionLeIsPreorder()
    ensures TotalPreorder(MentionLe)
  {
    forall a, b ensures MentionLe(a, b) || MentionLe(b, a) {
      StringLeTotal(a.display, b.display);
    }
    forall a, b, c | MentionLe(a, b) && MentionLe(b, c) ensures MentionLe(a, c) {
      if a.offset == b.offset == c.offset {
        StringLeTransitive(a.display, b.display, c.display);
      }
    }
  }

  /** The values of the entries that are left, in order of insertion. */
  function Listed(entries: Entries, order: seq<string>): seq<Mention> {
    if order == [] then []
    else
      var n := |order| - 1;
      var before := Listed(entries, order[..n]);
      if order[n] in entries then before + [entries[order[n]]] else before
  }

  function NonGold(order: seq<string>, gold: set<string>): seq<string> {
    if order == [] then []
    else
      var n := |order| - 1;
      var before := NonGold(order[..n], gold);
      if order[n] in gold then before else before + [order[n]]
  }

  lemma {:induction false} NonGoldKeys(order: seq<string>, gold: set<string>)
    requires Distinct(order)
    ensures Distinct(NonGold(order, gold))
    ensures forall k :: k in NonGold(order, gold) <==> k in order && k !in gold
  {
    if order != [] {
      var n := |order| - 1;
      NonGoldKeys(order[..n], gold);
      assert order == order[..n] + [order[n]];
    }
  }

  ghost predicate OwnKeys(entries: Entries, norm: Norm) {
    forall k :: k in entries ==> norm(entries[k].display) == k
  }

  lemma {:induction false} ListedMembers(entries: Entries, order: seq<string>, norm: Norm)
    requires Distinct(order) && OwnKeys(entries, norm)
    ensures Distinct(Listed(entries, order))
    ensures forall m :: m in Listed(entries, order) <==> norm(m.display) in order && IsEntry(m, entries, norm)
  {
    if order != [] {
      var n := |order| - 1;
      ListedMembers(entries, order[..n], norm);
      assert order == order[..n] + [order[n]];
    }
  }

  ghost predicate IsEntry(m: Mention, entries: Entries, norm: Norm) {
    norm(m.display) in entries && entries[norm(m.display)] == m
  }

  /** What an answer's predictions are: the first mentions of the ids that are left,
      once each, by offset. */
  ghost predicate IsRanking(ranked: seq<Mention>, entries: Entries, norm: Norm) {
    && (forall m :: m in ranked <==> IsEntry(m, entries, norm))
    && (forall i, j :: 0 <= i < j < |ranked| ==>
      norm(ranked[i].display) != norm(ranked[j].display) && MentionLe(ranked[i], ranked[j]))
  }

  lemma SortedListIsRanking(entries: Entries, order: seq<string>, norm: Norm)
    requires Distinct(order) && OwnKeys(entries, norm) && forall k :: k in entries ==> k in order
    ensures IsRanking(Sort(Listed(entries, order), MentionLe), entries, norm)
  {
    var listed := Listed(entries, order);
    var ranked := Sort(listed, MentionLe);
    ListedMembers(entries, order, norm);
    MentionLeIsPreorder();
    SortSorted(listed, MentionLe);
    SortMultiset(listed, MentionLe);
    SortMembers(listed, MentionLe);
    DistinctByMultiset(listed, ranked);
    forall i, j | 0 <= i < j < |ranked| ensures norm(ranked[i].display) != norm(ranked[j].display) {
      assert ranked[i] in ranked && ranked[j] in ranked;
      assert ranked[i] != ranked[j];
    }
  }

  function Displays(ranked: seq<Mention>): (r: seq<string>)
    ensures |r| == |ranked|
  {
    seq(|ranked|, i requires 0 <= i < |ranked| => ranked[i].display)
  }

  ghost predicate IsExtraction(ids: seq<string>, mentions: seq<Mention>, gold: set<string>, norm: Norm) {
    exists entries: Entries, ranked: seq<Mention> ::
      && FirstMentions(entries, mentions, norm)
      && IsRanking(ranked, Kept(entries, Umbrellas(entries.Keys, gold)), norm)
      && ids == Displays(ranked)
  }

  method ExtractPredictions(matches: seq<Mention>, catalog: set<string>, plausible: string -> bool,
                            gold: seq<string>, bare: seq<Option<nat>>, norm: Norm) returns (ids: seq<string>)
    requires |bare| == |gold|
    requires forall i, j :: 0 <= i < j < |matches| ==> matches[i].offset < matches[j].offset
    ensures IsExtraction(ids, KeptMatches(matches, catalog, plausible, norm) + BareMentions(gold, bare), GoldSet(gold, norm), norm)
  {
    var entries, order := CollectMatches(matches, catalog, plausible, norm);
    entries, order := CollectGold(entries, order, gold, bare, norm, KeptMatches(matches, catalog, plausible, norm));
    var goldKeys := GoldSet(gold, norm);
    var candidates := NonGold(order, goldKeys);
    NonGoldKeys(order, goldKeys);
    var rest := RemoveUmbrellas(entries, goldKeys, candidates);
    var ranked := Sort(Listed(rest, order), MentionLe);
    SortedListIsRanking(rest, order, norm);
    ids := Displays(ranked);
  }

  // ----- What every extraction guarantees -----

  ghost function MentionedKeys(mentions: seq<Mention>, norm: Norm): set<string> {
    set m | m in mentions :: norm(m.display)
  }

  /** `offset` is where the id with this key is mentioned first. */
  ghost predicate IsFirstOffset(offset: nat, key: string, mentions: seq<Mention>, norm: Norm) {
    && (exists m :: m in mentions && norm(m.display) == key && m.offset == offset)
    && forall m :: m in mentions && norm(m.display) == key ==> offset <= m.offset
  }

  lemma EntryIsFirst(entries: Entries, mentions: seq<Mention>, norm: Norm, m: Mention, offset: nat)
    requires FirstMentions(entries, mentions, norm) && IsEntry(m, entries, norm)
    requires IsFirstOffset(offset, norm(m.display), mentions, norm)
    ensures offset == m.offset
  {
    assert m in mentions;
  }

  /** Predictions are pairwise different and in the order of their first mentions. */
  lemma {:induction false} ExtractionIsRanked(ids: seq<string>, mentions: seq<Mention>, gold: set<string>, norm: Norm, i: nat, j: nat, a: nat, b: nat)
    requires IsExtraction(ids, mentions, gold, norm) && i < j < |ids|
    requires IsFirstOffset(a, norm(ids[i]), mentions, norm) && IsFirstOffset(b, norm(ids[j]), mentions, norm)
    ensures a <= b && norm(ids[i]) != norm(ids[j])
  {
    var entries: Entries, ranked: seq<Mention> :|
      && FirstMentions(entries, mentions, norm)
      && IsRanking(ranked, Kept(entries, Umbrellas(entries.Keys, gold)), norm)
      && ids == Displays(ranked);
    assert ranked[i] in ranked && ranked[j] in ranked;
    assert IsEntry(ranked[i], entries, norm) && IsEntry(ranked[j], entries, norm);
    EntryIsFirst(entries, mentions, norm, ranked[i], a);
    EntryIsFirst(entries, mentions, norm, ranked[j], b);
  }

  ghost predicate Predicts(ids: seq<string>, key: string, norm: Norm) {
    exists i :: 0 <= i < |ids| && norm(ids[i]) == key
  }

  lemma RankingIsComplete(ranked: seq<Mention>, entries: Entries, norm: Norm)
    requires OwnKeys(entries, norm) && IsRanking(ranked, entries, norm)
    ensures DistinctIds(Displays(ranked), norm)
    ensures forall key :: Predicts(Displays(ranked), key, norm) <==> key in entries
  {
    forall key ensures Predicts(Displays(ranked), key, norm) <==> key in entries {
      if key in entries {
        assert IsEntry(entries[key], entries, norm);
        var i :| 0 <= i < |ranked| && ranked[i] == entries[key];
        assert norm(Displays(ranked)[i]) == key;
      }
      if i :| 0 <= i < |ranked| && norm(Displays(ranked)[i]) == key {
        assert ranked[i] in ranked;
      }
    }
  }

  lemma EntriesAreMentioned(entries: Entries, mentions: seq<Mention>, norm: Norm)
    requires FirstMentions(entries, mentions, norm)
    ensures entries.Keys == MentionedKeys(mentions, norm)
  {
  }

  /** Exactly the mentioned ids that are not umbrellas are predicted, and an answer that
      mentions something predicts something. */
  lemma ExtractionIsComplete(ids: seq<string>, mentions: seq<Mention>, gold: set<string>, norm: Norm)
    requires IsExtraction(ids, mentions, gold, norm)
    ensures DistinctIds(ids, norm)
    ensures var keys := MentionedKeys(mentions, norm);
      forall key :: Predicts(ids, key, norm) <==> key in keys - Umbrellas(keys, gold)
    ensures mentions != [] ==> ids != []
  {
    var entries: Entries, ranked: seq<Mention> :|
      && FirstMentions(entries, mentions, norm)
      && IsRanking(ranked, Kept(entries, Umbrellas(entries.Keys, gold)), norm)
      && ids == Displays(ranked);
    RankedIsComplete(entries, ranked, mentions, gold, norm);
    if mentions != [] {
      SomethingPredicted(ids, mentions, gold, norm);
    }
  }

  lemma RankedIsComplete(entries: Entries, ranked: seq<Mention>, mentions: seq<Mention>, gold: set<string>, norm: Norm)
    requires FirstMentions(entries, mentions, norm)
    requires IsRanking(ranked, Kept(entries, Umbrellas(entries.Keys, gold)), norm)
    ensures DistinctIds(Displays(ranked), norm)
    ensures var keys := MentionedKeys(mentions, norm);
      forall key :: Predicts(Displays(ranked), key, norm) <==> key in keys - Umbrellas(keys, gold)
  {
    EntriesAreMentioned(entries, mentions, norm);
    RankingIsComplete(ranked, Kept(entries, Umbrellas(entries.Keys, gold)), norm);
  }

  lemma SomethingPredicted(ids: seq<string>, mentions: seq<Mention>, gold: set<string>, norm: Norm)
    requires mentions != []
    requires var keys := MentionedKeys(mentions, norm);
      forall key :: Predicts(ids, key, norm) <==> key in keys - Umbrellas(keys, gold)
    ensures ids != []
  {
    var keys := MentionedKeys(mentions, norm);
    assert norm(mentions[0].display) in keys;
    SomethingSurvives(keys, gold);
    var key :| key in keys - Umbrellas(keys, gold);
    assert Predicts(ids, key, norm);
  }

  lemma EntriesAreDetermined(a: Entries, b: Entries, mentions: seq<Mention>, norm: Norm)
    requires FirstMentions(a, mentions, norm) && FirstMentions(b, mentions, norm)
    ensures a == b
  {
    EntriesAreMentioned(a, mentions, norm);
    EntriesAreMentioned(b, mentions, norm);
    forall k | k in a ensures a[k] == b[k] {
      FirstIsDetermined(a[k], b[k], k, mentions, norm);
    }
  }

  lemma FirstIsDetermined(a: Mention, b: Mention, key: string, mentions: seq<Mention>, norm: Norm)
    requires IsFirstOf(a, key, mentions, norm) && IsFirstOf(b, key, mentions, norm)
    requires forall m :: m in mentions && norm(m.display) == key ==> a.offset <= m.offset && b.offset <= m.offset
    ensures a == b
  {
    var i: nat :| i < |mentions| && mentions[i] == a && NoneBefore(mentions, i, norm);
    var k: nat :| k < |mentions| && mentions[k] == b && NoneBefore(mentions, k, norm);
    assert a in mentions && b in mentions;
  }

  predicate MentionLt(a: Mention, b: Mention) { MentionLe(a, b) && a != b }

  lemma MentionLtAsymmetric()
    ensures Asymmetric(MentionLt)
  {
    forall a, b ensures !(MentionLt(a, b) && MentionLt(b, a)) {
      if StringLe(a.display, b.display) && StringLe(b.display, a.display) {
        StringLeAntisymmetric(a.display, b.display);
      }
    }
  }

  lemma RankingIsDetermined(a: seq<Mention>, b: seq<Mention>, entries: Entries, norm: Norm)
    requires IsRanking(a, entries, norm) && IsRanking(b, entries, norm)
    ensures a == b
  {
    MentionLtAsymmetric();
    RankingAscends(a, entries, norm);
    RankingAscends(b, entries, norm);
    ListedOnce(a, b, MentionLt);
  }

  lemma RankingAscends(ranked: seq<Mention>, entries: Entries, norm: Norm)
    requires IsRanking(ranked, entries, norm)
    ensures Ascending(ranked, MentionLt)
  {
    forall i, j | 0 <= i < j < |ranked| ensures MentionLt(ranked[i], ranked[j]) {
      assert MentionLe(ranked[i], ranked[j]);
      assert norm(ranked[i].display) != norm(ranked[j].display);
    }
  }

  /** The mentions leave one list of predictions, spelling and ties included. */
  lemma {:induction false} ExtractionIsDetermined(ids: seq<string>, other: seq<string>, mentions: seq<Mention>, gold: set<string>, norm: Norm)
    requires IsExtraction(ids, mentions, gold, norm) && IsExtraction(other, mentions, gold, norm)
    ensures ids == other
  {
    var entries: Entries, ranked: seq<Mention> :|
      && FirstMentions(entries, mentions, norm)
      && IsRanking(ranked, Kept(entries, Umbrellas(entries.Keys, gold)), norm)
      && ids == Displays(ranked);
    var otherEntries: Entries, otherRanked: seq<Mention> :|
      && FirstMentions(otherEntries, mentions, norm)
      && IsRanking(otherRanked, Kept(otherEntries, Umbrellas(otherEntries.Keys, gold)), norm)
      && other == Displays(otherRanked);
    EntriesAreDetermined(entries, otherEntries, mentions, norm);
    RankingIsDetermined(ranked, otherRanked, Kept(entries, Umbrellas(entries.Keys, gold)), norm);
  }

  /** Every metric of every extracted answer is a number between 0 and 1, whatever the gold
      list and the cut-off. */
  lemma AnswerMetricsInUnit(ids: seq<string>, mentions: seq<Mention>, gold: seq<string>, k: int, norm: Norm, disc: nat -> real)
    requires IsExtraction(ids, mentions, GoldSet(gold, norm), norm) && Rearrangement.IsDiscount(disc)
    ensures 0.0 <= PrecisionAtK(ids, gold, k, norm) <= 1.0
    ensures 0.0 <= RecallAtK(ids, gold, k, norm) <= 1.0
    ensures 0.0 <= ReciprocalRank(ids, gold, norm) <= 1.0
    ensures 0.0 <= NdcgAtK(ids, gold, k, norm, disc) <= 1.0
    ensures ReciprocalRank(ids, gold, norm) > 0.0 <==> RecallAtK(ids, gold, |ids|, norm) > 0.0
  {
    ExtractionIsComplete(ids, mentions, GoldSet(gold, norm), norm);
    SetMetricsInUnit(ids, gold, k, norm);
    MrrAndRecall(ids, gold, norm);
    NdcgInUnit(ids, gold, k, norm, disc);
  }
}
