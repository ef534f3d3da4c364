/** What is predicted from an answer (evaluation/metrics.py), in terms of the matches, the
    catalog and the gold list alone. */
module AnswerLaws {
  import opened Basics
  import opened Sorting
  import opened Metrics
  import opened Extraction

  /** What is known about an answer: the id matches in it, the normalised ids of the catalog,
      which ids look plausible, the gold ids and where their bare names were found. */
  datatype Answer = Answer(matches: seq<Mention>, catalog: set<string>, plausible: string -> bool,
                           gold: seq<string>, bare: seq<Option<nat>>, norm: Norm)

  /** Written as `text` at `offset`: an id that is in the catalog or plausible, or the bare
      name of a gold id. */
  ghost predicate Written(a: Answer, text: string, offset: nat) {
    || (Mention(offset, text) in a.matches && (a.norm(text) in a.catalog || a.plausible(text)))
    || exists i :: 0 <= i < |a.gold| && i < |a.bare| && a.gold[i] == text && a.bare[i] == Some(offset)
  }

  ghost predicate WrittenKey(a: Answer, key: string) {
    exists text: string, offset: nat :: Written(a, text, offset) && a.norm(text) == key
  }

  /** Two different ids in the answer extend this one by a dash and more. */
  ghost predicate Introduces(a: Answer, key: string) {
    exists x, y :: x != y && WrittenKey(a, x) && WrittenKey(a, y) && key + "-" <= x && key + "-" <= y
  }

  ghost predicate IsGold(a: Answer, key: string) {
    exists i :: 0 <= i < |a.gold| && a.norm(a.gold[i]) == key
  }

  /** The first place where the id of `text` is written. */
  ghost predicate WrittenFirst(a: Answer, text: string, offset: nat) {
    && Written(a, text, offset)
    && forall other: string, o: nat :: Written(a, other, o) && a.norm(other) == a.norm(text) ==> offset <= o
  }

  ghost predicate WellFormed(a: Answer) {
    |a.bare| == |a.gold| && forall i, j :: 0 <= i < j < |a.matches| ==> a.matches[i].offset < a.matches[j].offset
  }

  function Mentions(a: Answer): seq<Mention>
    requires |a.bare| == |a.gold|
  {
    KeptMatches(a.matches, a.catalog, a.plausible, a.norm) + BareMentions(a.gold, a.bare)
  }

  lemma {:induction false} KeptMembers(matches: seq<Mention>, catalog: set<string>, plausible: string -> bool, norm: Norm, m: Mention)
    ensures m in KeptMatches(matches, catalog, plausible, norm)
       <==> m in matches && (norm(m.display) in catalog || plausible(m.display))
  {
    if matches != [] {
      var n := |matches| - 1;
      KeptMembers(matches[..n], catalog, plausible, norm, m);
      assert matches == matches[..n] + [matches[n]];
    }
  }

  lemma {:induction false} BareMembers(gold: seq<string>, bare: seq<Option<nat>>, m: Mention)
    requires |bare| == |gold|
    ensures m in BareMentions(gold, bare) <==> exists i :: 0 <= i < |gold| && gold[i] == m.display && bare[i] == Some(m.offset)
  {
    if gold != [] {
      var n := |gold| - 1;
      BareMembers(gold[..n], bare[..n], m);
      assert gold == gold[..n] + [gold[n]];
    }
  }

  lemma WrittenIsMention(a: Answer, text: string, offset: nat)
    requires |a.bare| == |a.gold|
    ensures Written(a, text, offset) <==> Mention(offset, text) in Mentions(a)
  {
    var m := Mention(offset, text);
    KeptMembers(a.matches, a.catalog, a.plausible, a.norm, m);
    BareMembers(a.gold, a.bare, m);
  }

  lemma WrittenKeys(a: Answer, key: string)
    requires |a.bare| == |a.gold|
    ensures WrittenKey(a, key) <==> key in MentionedKeys(Mentions(a), a.norm)
  {
    if key in MentionedKeys(Mentions(a), a.norm) {
      var m :| m in Mentions(a) && a.norm(m.display) == key;
      assert m == Mention(m.offset, m.display);
      WrittenIsMention(a, m.display, m.offset);
    }
    if text: string, offset: nat :| Written(a, text, offset) && a.norm(text) == key {
      WrittenIsMention(a, text, offset);
      assert Mention(offset, text) in Mentions(a);
    }
  }

  lemma TwoMembers<T>(s: set<T>)
    ensures |s| >= 2 <==> exists x, y :: x in s && y in s && x != y
  {
    if |s| >= 2 {
      var x :| x in s;
      var rest := s - {x};
      assert |rest| >= 1;
      var y :| y in rest;
      assert y in s && x != y;
    }
    if x, y :| x in s && y in s && x != y {
      SubsetCardinality({x, y}, s);
    }
  }

  lemma IntroducesIffExtensions(a: Answer, key: string)
    requires |a.bare| == |a.gold|
    ensures Introduces(a, key) <==> |Extensions(key, MentionedKeys(Mentions(a), a.norm))| >= 2
  {
    var keys := MentionedKeys(Mentions(a), a.norm);
    forall k ensures WrittenKey(a, k) <==> k in keys {
      WrittenKeys(a, k);
    }
    TwoMembers(Extensions(key, keys));
    if x, y :| x != y && WrittenKey(a, x) && WrittenKey(a, y) && key + "-" <= x && key + "-" <= y {
      assert x in Extensions(key, keys) && y in Extensions(key, keys);
    }
    if x, y :| x in Extensions(key, keys) && y in Extensions(key, keys) && x != y {
      assert WrittenKey(a, x) && WrittenKey(a, y);
    }
  }

  lemma GoldKeys(a: Answer, key: string)
    ensures IsGold(a, key) <==> key in GoldSet(a.gold, a.norm)
  {
    if key in GoldSet(a.gold, a.norm) {
      var g :| g in a.gold && a.norm(g) == key;
      var i :| 0 <= i < |a.gold| && a.gold[i] == g;
    }
  }

  ghost predicate IsAnswer(ids: seq<string>, a: Answer) {
    WellFormed(a) && IsExtraction(ids, Mentions(a), GoldSet(a.gold, a.norm), a.norm)
  }

  /** An id is predicted exactly when it is written in the answer and is gold or does not
      just introduce two others. */
  lemma PredictedIff(ids: seq<string>, a: Answer, key: string)
    requires IsAnswer(ids, a)
    ensures (exists i :: 0 <= i < |ids| && a.norm(ids[i]) == key) <==> WrittenKey(a, key) && (IsGold(a, key) || !Introduces(a, key))
  {
    ExtractionIsComplete(ids, Mentions(a), GoldSet(a.gold, a.norm), a.norm);
    WrittenKeys(a, key);
    GoldKeys(a, key);
    IntroducesIffExtensions(a, key);
    assert Predicts(ids, key, a.norm) <==> exists i :: 0 <= i < |ids| && a.norm(ids[i]) == key;
  }

  /** Each prediction is spelled as where it is written first. */
  lemma PredictedAsWritten(ids: seq<string>, a: Answer, i: nat) returns (offset: nat)
    requires IsAnswer(ids, a) && i < |ids|
    ensures WrittenFirst(a, ids[i], offset)
  {
    var mentions, gold := Mentions(a), GoldSet(a.gold, a.norm);
    var entries: Entries, ranked: seq<Mention> :|
      && FirstMentions(entries, mentions, a.norm)
      && IsRanking(ranked, Kept(entries, Umbrellas(entries.Keys, gold)), a.norm)
      && ids == Displays(ranked);
    offset := ranked[i].offset;
    assert ranked[i] in ranked && IsEntry(ranked[i], entries, a.norm);
    EntryWrittenFirst(a, entries, ranked[i]);
  }

  lemma EntryWrittenFirst(a: Answer, entries: Entries, m: Mention)
    requires |a.bare| == |a.gold| && FirstMentions(entries, Mentions(a), a.norm) && IsEntry(m, entries, a.norm)
    ensures WrittenFirst(a, m.display, m.offset)
  {
    var i: nat :| i < |Mentions(a)| && Mentions(a)[i] == m;
    assert m == Mention(m.offset, m.display);
    WrittenIsMention(a, m.display, m.offset);
    forall other: string, o: nat | Written(a, other, o) && a.norm(other) == a.norm(m.display) ensures m.offset <= o {
      WrittenIsMention(a, other, o);
    }
  }

  lemma FirstOffsetOfWritten(a: Answer, text: string, offset: nat)
    requires |a.bare| == |a.gold| && WrittenFirst(a, text, offset)
    ensures IsFirstOffset(offset, a.norm(text), Mentions(a), a.norm)
  {
    WrittenIsMention(a, text, offset);
    assert Mention(offset, text) in Mentions(a);
    forall m | m in Mentions(a) && a.norm(m.display) == a.norm(text) ensures offset <= m.offset {
      assert m == Mention(m.offset, m.display);
      WrittenIsMention(a, m.display, m.offset);
    }
  }

  /** Predictions come in the order in which their ids are written first. */
  lemma PredictedInOrder(ids: seq<string>, a: Answer, i: nat, j: nat, oi: nat, oj: nat)
    requires IsAnswer(ids, a) && i < j < |ids| && WrittenFirst(a, ids[i], oi) && WrittenFirst(a, ids[j], oj)
    ensures oi <= oj && a.norm(ids[i]) != a.norm(ids[j])
  {
    FirstOffsetOfWritten(a, ids[i], oi);
    FirstOffsetOfWritten(a, ids[j], oj);
    ExtractionIsRanked(ids, Mentions(a), GoldSet(a.gold, a.norm), a.norm, i, j, oi, oj);
  }

  /** The whole extraction. */
  method Extract(a: Answer) returns (ids: seq<string>)
    requires WellFormed(a)
    ensures IsAnswer(ids, a)
  {
    ids := ExtractPredictions(a.matches, a.catalog, a.plausible, a.gold, a.bare, a.norm);
  }
}
