/** Claiming due automations (UI/backend/open_webui/models/automations.py).
    One call on its own; `ClaimRuns` interleaves the calls of any number of workers. */
module Automations {
  import opened Basics
  import opened Sorting

  datatype Row = Row(active: bool, lastRun: Option<int>, nextRun: Option<int>)

  type Table = map<string, Row>

  predicate IsDue(table: Table, id: string, now: int) {
    id in table && table[id].active && table[id].nextRun.Some? && table[id].nextRun.value <= now
  }

  function DueTime(table: Table, id: string): int {
    if id in table && table[id].nextRun.Some? then table[id].nextRun.value else 0
  }

  /** There was no room for this row, and every row taken is due no later. */
  ghost predicate LeftOut(table: Table, limit: nat, picked: seq<string>, id: string) {
    |picked| == limit && forall i :: 0 <= i < |picked| ==> DueTime(table, picked[i]) <= DueTime(table, id)
  }

  /** At most `limit` due rows that are not locked, earliest first, and none left out
      that is due before one that is taken. */
  ghost predicate IsSelection(table: Table, locked: set<string>, now: int, limit: nat, picked: seq<string>) {
    && Distinct(picked) && |picked| <= limit
    && (forall i :: 0 <= i < |picked| ==> IsDue(table, picked[i], now) && picked[i] !in locked)
    && (forall i, j :: 0 <= i < j < |picked| ==> DueTime(table, picked[i]) <= DueTime(table, picked[j]))
    && forall id :: IsDue(table, id, now) && id !in locked && id !in picked ==> LeftOut(table, limit, picked, id)
  }

  /** The table after the claim: last run now, next run as scheduled. */
  function Rescheduled(table: Table, picked: seq<string>, now: int, next: string -> Option<int>): Table {
    map id | id in table :: if id in picked then table[id].(lastRun := Some(now), nextRun := next(id)) else table[id]
  }

  // ----- One call -----

  function ByDueTime(table: Table): (string, string) -> bool {
    (a: string, b: string) => DueTime(table, a) <= DueTime(table, b)
  }

  predicate Claimable(table: Table, locked: set<string>, now: int, id: string) {
    IsDue(table, id, now) && id !in locked
  }

  function Candidates(table: Table, ids: seq<string>, locked: set<string>, now: int): seq<string> {
    if ids == [] then []
    else
      var n := |ids| - 1;
      var before := Candidates(table, ids[..n], locked, now);
      if Claimable(table, locked, now, ids[n]) then before + [ids[n]] else before
  }

  lemma {:induction false} CandidateMembers(table: Table, ids: seq<string>, locked: set<string>, now: int)
    requires Distinct(ids)
    ensures Distinct(Candidates(table, ids, locked, now))
    ensures forall id :: id in Candidates(table, ids, locked, now) <==> id in ids && Claimable(table, locked, now, id)
  {
    if ids != [] {
      var n := |ids| - 1;
      CandidateMembers(table, ids[..n], locked, now);
      assert ids == ids[..n] + [ids[n]];
    }
  }

  lemma SortedCandidates(table: Table, candidates: seq<string>, locked: set<string>, now: int, sorted: seq<string>)
    requires Distinct(candidates) && sorted == Sort(candidates, ByDueTime(table))
    requires forall id :: id in candidates <==> Claimable(table, locked, now, id)
    ensures Distinct(sorted)
    ensures forall id :: id in sorted <==> Claimable(table, locked, now, id)
    ensures forall i, j :: 0 <= i < j < |sorted| ==> DueTime(table, sorted[i]) <= DueTime(table, sorted[j])
  {
    SortMultiset(candidates, ByDueTime(table));
    SortMembers(candidates, ByDueTime(table));
    SortSorted(candidates, ByDueTime(table));
    DistinctByMultiset(candidates, sorted);
    forall i, j | 0 <= i < j < |sorted| ensures DueTime(table, sorted[i]) <= DueTime(table, sorted[j]) {
      assert ByDueTime(table)(sorted[i], sorted[j]);
    }
  }

  lemma PrefixIsSelection(table: Table, locked: set<string>, now: int, limit: nat, sorted: seq<string>)
    requires Distinct(sorted)
    requires forall id :: id in sorted <==> Claimable(table, locked, now, id)
    requires forall i, j :: 0 <= i < j < |sorted| ==> DueTime(table, sorted[i]) <= DueTime(table, sorted[j])
    ensures IsSelection(table, locked, now, limit, TakePy(sorted, limit))
  {
    var picked := TakePy(sorted, limit);
    forall i | 0 <= i < |picked| ensures IsDue(table, picked[i], now) && picked[i] !in locked {
      assert sorted[i] in sorted;
    }
    forall id | IsDue(table, id, now) && id !in locked && id !in picked ensures LeftOut(table, limit, picked, id) {
      assert id in sorted;
      var j :| 0 <= j < |sorted| && sorted[j] == id;
      assert picked == sorted[..|picked|];
    }
  }

  lemma RescheduledNext(table: Table, claimed: seq<string>, i: nat, now: int, next: string -> Option<int>)
    requires Distinct(claimed) && i < |claimed| && claimed[i] in table
    ensures var id, before := claimed[i], Rescheduled(table, claimed[..i], now, next);
      && id in before
      && Rescheduled(table, claimed[..i + 1], now, next) == before[id := before[id].(lastRun := Some(now), nextRun := next(id))]
  {
    assert claimed[..i + 1] == claimed[..i] + [claimed[i]];
    assert claimed[i] !in claimed[..i];
  }

  class AutomationTable {
    var rows: Table

    /** The query. `ids` are the ids of the stored rows, in any order; `locked` the rows
        that other transactions hold (none off PostgreSQL, where locks are not looked at). */
    method SelectDue(ids: seq<string>, locked: set<string>, now: int, limit: nat) returns (picked: seq<string>)
      requires Distinct(ids) && forall id :: id in ids <==> id in rows
      ensures IsSelection(rows, locked, now, limit, picked)
    {
      var candidates := Candidates(rows, ids, locked, now);
      CandidateMembers(rows, ids, locked, now);
      var sorted := Sort(candidates, ByDueTime(rows));
      SortedCandidates(rows, candidates, locked, now, sorted);
      PrefixIsSelection(rows, locked, now, limit, sorted);
      picked := TakePy(sorted, limit);
    }

    method ClaimDue(ids: seq<string>, locked: set<string>, now: int, limit: nat, next: string -> Option<int>)
        returns (claimed: seq<string>)
      requires Distinct(ids) && forall id :: id in ids <==> id in rows
      modifies this
      ensures IsSelection(old(rows), locked, now, limit, claimed)
      ensures rows == Rescheduled(old(rows), claimed, now, next)
    {
      claimed := SelectDue(ids, locked, now, limit);
      assert forall i :: 0 <= i < |claimed| ==> IsDue(rows, claimed[i], now);
      ghost var before := rows;
      assert rows == Rescheduled(before, [], now, next);
      for i := 0 to |claimed|
        invariant rows == Rescheduled(before, claimed[..i], now, next)
      {
        var id := claimed[i];
        RescheduledNext(before, claimed, i, now, next);
        rows := rows[id := rows[id].(lastRun := Some(now), nextRun := next(id))];
      }
      assert claimed[..|claimed|] == claimed;
    }
  }

  // ----- The selection and the claim in plain terms -----

  /** The rows taken are active and due; an active due row is passed over only when it is
      locked, or when `limit` rows are taken that are due no later. */
  lemma SelectionInFull(table: Table, locked: set<string>, now: int, limit: nat, picked: seq<string>, id: string)
    requires IsSelection(table, locked, now, limit, picked)
    ensures |picked| <= limit
    ensures id in picked ==> id in table && id !in locked && table[id].active && table[id].nextRun.Some? && table[id].nextRun.value <= now
    ensures id in table && table[id].active && table[id].nextRun.Some? && table[id].nextRun.value <= now && id !in locked && id !in picked ==>
      |picked| == limit && NoneLater(table, picked, table[id].nextRun.value)
    ensures forall i, j :: 0 <= i < j < |picked| ==> picked[i] != picked[j] && DueNoLater(table, picked[i], picked[j])
  {
    assert forall i :: 0 <= i < |picked| ==> IsDue(table, picked[i], now);
    if IsDue(table, id, now) && id !in locked && id !in picked {
      assert LeftOut(table, limit, picked, id);
    }
  }

  ghost predicate DueNoLater(table: Table, a: string, b: string) {
    && a in table && b in table && table[a].nextRun.Some? && table[b].nextRun.Some?
    && table[a].nextRun.value <= table[b].nextRun.value
  }

  ghost predicate NoneLater(table: Table, picked: seq<string>, due: int) {
    forall i :: 0 <= i < |picked| ==>
      picked[i] in table && table[picked[i]].nextRun.Some? && table[picked[i]].nextRun.value <= due
  }

  /** A claim writes last and next run of the rows taken, and nothing else. */
  lemma ClaimInFull(table: Table, picked: seq<string>, now: int, next: string -> Option<int>, id: string)
    ensures id in Rescheduled(table, picked, now, next) <==> id in table
    ensures id in table && id in picked ==>
      Rescheduled(table, picked, now, next)[id] == Row(table[id].active, Some(now), next(id))
    ensures id in table && id !in picked ==> Rescheduled(table, picked, now, next)[id] == table[id]
  {
  }
}
