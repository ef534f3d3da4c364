/** On the skip-locked path no occurrence of an automation is claimed twice, over every
    interleaving. */
module LockedClaims {
  import opened Basics
  import opened Sorting
  import opened Automations
  import opened ClaimRuns

  /** The row is still due when it was selected for. */
  ghost predicate Fresh(s: State, c: Claim) {
    c.id in s.table && s.table[c.id].nextRun == Some(c.due)
  }

  ghost predicate IsPast(s: State, l: Claim) {
    && l.id in s.used && l.due <= s.clock
    && (l.id in s.table ==> RunsAfter(s.table[l.id].nextRun, l.due))
  }

  ghost predicate DistinctRows(s: State, w: nat) {
    var worker := WorkerOf(s, w);
    worker.Claiming? ==> worker.now <= s.clock && Distinct(Ids(worker.picked))
  }

  ghost predicate Exclusive(s: State) {
    forall w: nat, v: nat, c: Claim, d: Claim :: Holds(s, w, c) && Holds(s, v, d) && c.id == d.id ==> w == v
  }

  ghost predicate LockedInv(s: State) {
    && s.table.Keys <= s.used
    && Increasing(s.log) && (forall l :: l in s.log ==> IsPast(s, l))
    && (forall w :: DistinctRows(s, w))
    && (forall w: nat, c: Claim :: Holds(s, w, c) ==> Fresh(s, c) && c.due <= c.now == WorkerOf(s, w).now)
    && Exclusive(s)
  }

  lemma SelectKeeps(s: State, t: State, w: nat, now: int, limit: nat, picked: seq<string>)
    requires LockedInv(s) && Select(true, s, t, w, now, limit, picked)
    ensures LockedInv(t)
  {
    ClaimsHeld(s.table, picked, now, Locked(s), limit);
    OthersHold(s, t, w);
    forall c | Holds(t, w, c) ensures Fresh(t, c) && c.due <= c.now == now && !Held(s, c.id) {
      assert IsDue(s.table, c.id, now);
    }
    forall v ensures DistinctRows(t, v) {
      assert DistinctRows(s, v);
    }
    forall v: nat, c: Claim, d: Claim | v != w && Holds(t, w, c) && Holds(t, v, d) ensures c.id != d.id {
      assert HoldsRow(s, v, d.id);
    }
  }

  /** A commit reschedules the rows of its worker past their due times. */
  lemma CommitKeepsPast(s: State, t: State, w: nat, next: string -> Option<int>, l: Claim)
    requires LockedInv(s) && Commit(true, s, t, w, next) && l in t.log
    ensures IsPast(t, l)
  {
    var picked := WorkerOf(s, w).picked;
    assert DistinctRows(s, w);
    IdsMember(picked, l.id);
    assert l in picked ==> Holds(s, w, l);
    if l.id in Ids(picked) {
      var c :| c in picked && c.id == l.id;
      assert Holds(s, w, c);
      assert l in s.log ==> IsPast(s, l);
      DistinctPicks(picked);
    }
  }

  lemma CommitKeepsLog(s: State, t: State, w: nat, next: string -> Option<int>)
    requires LockedInv(s) && Commit(true, s, t, w, next)
    ensures Increasing(t.log)
  {
    var picked := WorkerOf(s, w).picked;
    assert DistinctRows(s, w);
    forall l, c | l in s.log && c in picked && l.id == c.id ensures l.due < c.due {
      assert IsPast(s, l) && Holds(s, w, c);
    }
    AppendedClaims(s.log, picked);
  }

  lemma CommitKeeps(s: State, t: State, w: nat, next: string -> Option<int>)
    requires LockedInv(s) && Commit(true, s, t, w, next)
    ensures LockedInv(t)
  {
    var picked := WorkerOf(s, w).picked;
    CommitKeepsLog(s, t, w, next);
    forall l | l in t.log ensures IsPast(t, l) {
      CommitKeepsPast(s, t, w, next, l);
    }
    OthersHold(s, t, w);
    forall v ensures DistinctRows(t, v) {
      assert DistinctRows(s, v);
    }
    forall v: nat, c: Claim | Holds(t, v, c) ensures Fresh(t, c) && c.due <= c.now == WorkerOf(t, v).now {
      assert v != w && Holds(s, v, c);
      IdsMember(picked, c.id);
      if d :| d in picked && d.id == c.id {
        assert Holds(s, w, d);
      }
    }
  }

  lemma AbortKeeps(s: State, t: State, w: nat)
    requires LockedInv(s) && Abort(s, t, w)
    ensures LockedInv(t)
  {
    OthersHold(s, t, w);
    forall v ensures DistinctRows(t, v) {
      assert DistinctRows(s, v);
    }
    forall l | l in t.log ensures IsPast(t, l) {
      assert IsPast(s, l);
    }
    forall v: nat, c: Claim | Holds(t, v, c) ensures Fresh(t, c) && c.due <= c.now == WorkerOf(t, v).now {
      assert Holds(s, v, c);
    }
  }

  /** Users write rows that nobody holds, and new ones. */
  lemma UserStepKeeps(s: State, t: State)
    requires LockedInv(s) && UserStep(true, s, t)
    ensures LockedInv(t)
  {
    RowsHeld(s, t);
    forall v ensures DistinctRows(t, v) {
      assert DistinctRows(s, v);
    }
    forall l | l in t.log ensures IsPast(t, l) {
      assert IsPast(s, l);
    }
    forall v: nat, c: Claim | Holds(t, v, c) ensures Fresh(t, c) && c.due <= c.now == WorkerOf(t, v).now {
      assert Holds(s, v, c);
      assert HoldsRow(s, v, c.id);
    }
  }

  lemma StepKeepsLockedInv(s: State, t: State)
    requires LockedInv(s) && Next(true, s, t)
    ensures LockedInv(t)
  {
    if w: nat, now: int, limit: nat, picked: seq<string> :| Select(true, s, t, w, now, limit, picked) {
      SelectKeeps(s, t, w, now, limit, picked);
    } else if w: nat, next: string -> Option<int> :| Commit(true, s, t, w, next) {
      CommitKeeps(s, t, w, next);
    } else if w: nat :| Abort(s, t, w) {
      AbortKeeps(s, t, w);
    } else {
      UserStepKeeps(s, t);
    }
  }

  lemma {:induction false} RunKeepsLockedInv(run: seq<State>, n: nat)
    requires IsRun(true, run) && n < |run|
    ensures LockedInv(run[n])
  {
    if n > 0 {
      RunKeepsLockedInv(run, n - 1);
      StepKeepsLockedInv(run[n - 1], run[n]);
    }
  }

  /** Whatever the interleaving, no automation is claimed twice for the same due time:
      its due times in the log of claims strictly increase. */
  lemma NoDoubleClaim(run: seq<State>, n: nat, i: nat, j: nat)
    requires IsRun(true, run) && n < |run| && i < j < |run[n].log| && run[n].log[i].id == run[n].log[j].id
    ensures run[n].log[i].due < run[n].log[j].due
  {
    RunKeepsLockedInv(run, n);
  }
}
