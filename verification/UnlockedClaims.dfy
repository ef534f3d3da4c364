/** Without row locks an occurrence can be claimed twice. The check that prevents it, and
    that the code does not make, compares the row's last run with the due time claimed. */
module UnlockedClaims {
  import opened Basics
  import opened Sorting
  import opened Automations
  import opened ClaimRuns

  /** The row has not run since the occurrence fell due. */
  predicate NotRunSince(row: Row, due: int) { row.lastRun.Some? ==> row.lastRun.value < due }

  /** The check before a commit: it looks at the rows to write and the claims held. */
  ghost predicate Checked(s: State, w: nat) {
    forall c :: Holds(s, w, c) && c.id in s.table ==> NotRunSince(s.table[c.id], c.due)
  }

  // ----- The invariant of runs in which all commits pass the check -----

  ghost predicate LogOk(s: State, l: Claim) {
    && l.id in s.used && l.due <= l.now <= s.clock
    && (l.id in s.table ==> RunsAfter(s.table[l.id].nextRun, l.now))
  }

  ghost predicate RowOk(s: State, id: string) {
    id in s.table ==>
      && id in s.used
      && (s.table[id].lastRun.Some? ==>
            s.table[id].lastRun.value <= s.clock && RunsAfter(s.table[id].nextRun, s.table[id].lastRun.value))
  }

  ghost predicate LogBefore(log: seq<Claim>, c: Claim) {
    forall l :: l in log && l.id == c.id ==> l.due < c.due
  }

  /** A claim held: its row is due when selected for or after the select, and the check
      tells whether a claim in the log is in the way. */
  ghost predicate ClaimOk(s: State, c: Claim) {
    && c.id in s.used && c.due <= c.now <= s.clock
    && (c.id in s.table ==>
          && (s.table[c.id].nextRun == Some(c.due) || RunsAfter(s.table[c.id].nextRun, c.now))
          && (NotRunSince(s.table[c.id], c.due) <==> LogBefore(s.log, c)))
  }

  ghost predicate WorkerOk(s: State, w: nat) {
    var worker := WorkerOf(s, w);
    worker.Claiming? ==> Distinct(Ids(worker.picked)) && forall c :: c in worker.picked ==> c.now == worker.now
  }

  /** Of two claims held on one row, the later one fell due after the select of the other. */
  ghost predicate Apart(c: Claim, d: Claim) {
    c.id == d.id && d.due < c.due ==> d.now < c.due
  }

  ghost predicate UnlockedInv(s: State) {
    && Increasing(s.log)
    && (forall l :: l in s.log ==> LogOk(s, l))
    && (forall id :: RowOk(s, id))
    && (forall w :: WorkerOk(s, w))
    && (forall w: nat, c: Claim :: Holds(s, w, c) ==> ClaimOk(s, c))
    && forall w: nat, v: nat, c: Claim, d: Claim :: Holds(s, w, c) && Holds(s, v, d) ==> Apart(c, d)
  }

  // ----- One commit -----

  /** Committing keeps the log increasing exactly when the check passes. */
  lemma CommitSafeIffChecked(s: State, t: State, w: nat, next: string -> Option<int>)
    requires UnlockedInv(s) && Commit(false, s, t, w, next)
    ensures Increasing(t.log) <==> Checked(s, w)
  {
    var picked := WorkerOf(s, w).picked;
    assert WorkerOk(s, w);
    AppendedClaims(s.log, picked);
    if Checked(s, w) {
      forall l, c | l in s.log && c in picked && l.id == c.id ensures l.due < c.due {
        assert Holds(s, w, c) && ClaimOk(s, c);
      }
    } else {
      var c :| Holds(s, w, c) && c.id in s.table && !NotRunSince(s.table[c.id], c.due);
      assert ClaimOk(s, c) && !LogBefore(s.log, c);
    }
  }

  lemma CommitRow(s: State, t: State, w: nat, next: string -> Option<int>, id: string)
    requires Commit(false, s, t, w, next)
    ensures id in t.table <==> id in s.table
    ensures HoldsRow(s, w, id) && id in s.table ==>
      t.table[id].lastRun == Some(WorkerOf(s, w).now) && RunsAfter(t.table[id].nextRun, s.clock)
    ensures !HoldsRow(s, w, id) && id in s.table ==> t.table[id] == s.table[id]
  {
    var picked := WorkerOf(s, w).picked;
    IdsMember(picked, id);
    if c :| c in picked && c.id == id {
      assert Holds(s, w, c);
    }
  }

  lemma CommitKeepsLog(s: State, t: State, w: nat, next: string -> Option<int>, l: Claim)
    requires UnlockedInv(s) && Commit(false, s, t, w, next) && l in t.log
    ensures LogOk(t, l)
  {
    CommitRow(s, t, w, next, l.id);
    if l !in s.log {
      assert Holds(s, w, l) && ClaimOk(s, l);
      assert HoldsRow(s, w, l.id);
    } else {
      assert LogOk(s, l);
    }
  }

  lemma CommitKeepsRow(s: State, t: State, w: nat, next: string -> Option<int>, id: string)
    requires UnlockedInv(s) && Commit(false, s, t, w, next)
    ensures RowOk(t, id)
  {
    CommitRow(s, t, w, next, id);
    assert RowOk(s, id);
    if d :| Holds(s, w, d) && d.id == id {
      assert ClaimOk(s, d) && WorkerOk(s, w);
    }
  }

  lemma LogGrows(s: State, t: State, w: nat, next: string -> Option<int>, c: Claim)
    requires Commit(false, s, t, w, next)
    ensures LogBefore(t.log, c) <==> LogBefore(s.log, c) && forall d :: Holds(s, w, d) && d.id == c.id ==> d.due < c.due
  {
    forall l ensures l in t.log <==> l in s.log || Holds(s, w, l) {
    }
  }

  /** A claim held by another worker: whether the check lets it pass changes exactly when
      an occurrence that is not earlier has just been claimed. */
  lemma CommitKeepsClaim(s: State, t: State, w: nat, next: string -> Option<int>, v: nat, c: Claim)
    requires UnlockedInv(s) && Commit(false, s, t, w, next) && Checked(s, w) && v != w && Holds(s, v, c)
    ensures ClaimOk(t, c)
  {
    assert ClaimOk(s, c) && WorkerOk(s, w);
    CommitRow(s, t, w, next, c.id);
    LogGrows(s, t, w, next, c);
    if c.id in s.table && HoldsRow(s, w, c.id) {
      var d :| Holds(s, w, d) && d.id == c.id;
      OneClaimARow(s, w, d);
      assert ClaimOk(s, d) && Apart(c, d);
      assert LogBefore(s.log, d);
    } else if c.id in s.table {
      assert forall d :: Holds(s, w, d) ==> HoldsRow(s, w, d.id);
    }
  }

  lemma OneClaimARow(s: State, w: nat, d: Claim)
    requires WorkerOk(s, w) && Holds(s, w, d)
    ensures forall e :: Holds(s, w, e) && e.id == d.id ==> e == d
  {
    DistinctPicks(WorkerOf(s, w).picked);
  }

  lemma CommitKeeps(s: State, t: State, w: nat, next: string -> Option<int>)
    requires UnlockedInv(s) && Commit(false, s, t, w, next) && Checked(s, w)
    ensures UnlockedInv(t)
  {
    CommitSafeIffChecked(s, t, w, next);
    OthersHold(s, t, w);
    forall l | l in t.log ensures LogOk(t, l) {
      CommitKeepsLog(s, t, w, next, l);
    }
    forall id ensures RowOk(t, id) {
      CommitKeepsRow(s, t, w, next, id);
    }
    forall v ensures WorkerOk(t, v) {
      assert WorkerOk(s, v);
    }
    forall v: nat, c: Claim | Holds(t, v, c) ensures ClaimOk(t, c) {
      CommitKeepsClaim(s, t, w, next, v, c);
    }
  }

  // ----- The other steps -----

  lemma SelectedClaim(s: State, t: State, w: nat, now: int, limit: nat, picked: seq<string>, c: Claim)
    requires UnlockedInv(s) && Select(false, s, t, w, now, limit, picked) && Holds(t, w, c)
    ensures ClaimOk(t, c) && c.now == now
    ensures forall v: nat, d: Claim :: Holds(s, v, d) ==> Apart(c, d) && Apart(d, c)
  {
    ClaimsHeld(s.table, picked, now, {}, limit);
    assert RowOk(s, c.id);
    forall l | l in s.log && l.id == c.id ensures l.due < c.due {
      assert LogOk(s, l);
    }
    forall v: nat, d: Claim | Holds(s, v, d) ensures Apart(c, d) && Apart(d, c) {
      assert ClaimOk(s, d);
    }
  }

  lemma SelectKeepsWorker(s: State, t: State, w: nat, now: int, limit: nat, picked: seq<string>, v: nat)
    requires UnlockedInv(s) && Select(false, s, t, w, now, limit, picked)
    ensures WorkerOk(t, v)
  {
    assert WorkerOk(s, v);
    ClaimsHeld(s.table, picked, now, {}, limit);
  }

  lemma SelectKeeps(s: State, t: State, w: nat, now: int, limit: nat, picked: seq<string>)
    requires UnlockedInv(s) && Select(false, s, t, w, now, limit, picked)
    ensures UnlockedInv(t)
  {
    OthersHold(s, t, w);
    forall l | l in t.log ensures LogOk(t, l) {
      assert LogOk(s, l);
    }
    forall id ensures RowOk(t, id) {
      assert RowOk(s, id);
    }
    forall v ensures WorkerOk(t, v) {
      SelectKeepsWorker(s, t, w, now, limit, picked, v);
    }
    forall v: nat, c: Claim | Holds(t, v, c) ensures ClaimOk(t, c) {
      if v == w {
        SelectedClaim(s, t, w, now, limit, picked, c);
      } else {
        assert ClaimOk(s, c);
      }
    }
    forall u: nat, v: nat, c: Claim, d: Claim | Holds(t, u, c) && Holds(t, v, d) ensures Apart(c, d) {
      SelectedApart(s, t, w, now, limit, picked, u, v, c, d);
    }
  }

  lemma SelectedApart(s: State, t: State, w: nat, now: int, limit: nat, picked: seq<string>, u: nat, v: nat, c: Claim, d: Claim)
    requires UnlockedInv(s) && Select(false, s, t, w, now, limit, picked) && Holds(t, u, c) && Holds(t, v, d)
    ensures Apart(c, d)
  {
    OthersHold(s, t, w);
    if u == w {
      SelectedClaim(s, t, w, now, limit, picked, c);
    }
    if v == w {
      SelectedClaim(s, t, w, now, limit, picked, d);
    }
    if u == w && v == w {
      ClaimsHeld(s.table, picked, now, {}, limit);
    }
  }

  lemma AbortKeeps(s: State, t: State, w: nat)
    requires UnlockedInv(s) && Abort(s, t, w)
    ensures UnlockedInv(t)
  {
    OthersHold(s, t, w);
    forall l | l in t.log ensures LogOk(t, l) {
      assert LogOk(s, l);
    }
    forall id ensures RowOk(t, id) {
      assert RowOk(s, id);
    }
    forall v ensures WorkerOk(t, v) {
      assert WorkerOk(s, v);
    }
    forall v: nat, c: Claim | Holds(t, v, c) ensures ClaimOk(t, c) {
      assert ClaimOk(s, c);
    }
  }

  /** Users may write rows that are held: an edit leaves the last run alone, and a deleted
      id never comes back. */
  lemma UserStepKeeps(s: State, t: State)
    requires UnlockedInv(s) && UserStep(false, s, t)
    ensures UnlockedInv(t)
  {
    RowsHeld(s, t);
    forall l | l in t.log ensures LogOk(t, l) {
      assert LogOk(s, l);
    }
    forall id ensures RowOk(t, id) {
      assert RowOk(s, id);
    }
    forall v ensures WorkerOk(t, v) {
      assert WorkerOk(s, v);
    }
    forall v: nat, c: Claim | Holds(t, v, c) ensures ClaimOk(t, c) {
      assert ClaimOk(s, c);
    }
  }

  // ----- Whole runs -----

  /** If the step is a commit, its check passes. */
  ghost predicate StepChecked(s: State, t: State) {
    forall w: nat, next: string -> Option<int> :: Commit(false, s, t, w, next) ==> Checked(s, w)
  }

  /** Where a run starts, every automation's last run lies in the past and before its
      next one. */
  ghost predicate InOrder(s: State) { forall id :: RowOk(s, id) }

  lemma StepSafeIffChecked(s: State, t: State)
    requires UnlockedInv(s) && Next(false, s, t)
    ensures StepChecked(s, t) ==> UnlockedInv(t)
    ensures Increasing(t.log) <==> StepChecked(s, t)
  {
    if w: nat, next: string -> Option<int> :| Commit(false, s, t, w, next) {
      forall v: nat, other: string -> Option<int> | Commit(false, s, t, v, other) ensures v == w {
        assert WorkerOf(t, v).Idle? && WorkerOf(t, w).Idle?;
      }
      CommitSafeIffChecked(s, t, w, next);
      if Checked(s, w) {
        CommitKeeps(s, t, w, next);
      }
    } else if w: nat, now: int, limit: nat, picked: seq<string> :| Select(false, s, t, w, now, limit, picked) {
      SelectKeeps(s, t, w, now, limit, picked);
    } else if w: nat :| Abort(s, t, w) {
      AbortKeeps(s, t, w);
    } else {
      UserStepKeeps(s, t);
    }
  }

  ghost predicate CheckedUpTo(run: seq<State>, n: nat) {
    forall i :: 1 <= i < |run| && i <= n ==> StepChecked(run[i - 1], run[i])
  }

  lemma LogPrefix(s: State, t: State)
    requires Next(false, s, t)
    ensures s.log <= t.log
    ensures Increasing(t.log) ==> Increasing(s.log)
  {
    if w: nat, now: int, limit: nat, picked: seq<string> :| Select(false, s, t, w, now, limit, picked) {
    } else if w: nat, next: string -> Option<int> :| Commit(false, s, t, w, next) {
    } else if w: nat :| Abort(s, t, w) {
    } else {
      assert UserStep(false, s, t);
    }
  }

  lemma StepFrom(s: State, t: State, checked: bool)
    requires Next(false, s, t)
    requires (checked ==> UnlockedInv(s)) && (Increasing(s.log) <==> checked)
    ensures checked && StepChecked(s, t) ==> UnlockedInv(t)
    ensures Increasing(t.log) <==> checked && StepChecked(s, t)
  {
    LogPrefix(s, t);
    if checked {
      StepSafeIffChecked(s, t);
    }
  }

  lemma CheckedNext(run: seq<State>, n: nat)
    requires 1 <= n < |run|
    ensures CheckedUpTo(run, n) <==> CheckedUpTo(run, n - 1) && StepChecked(run[n - 1], run[n])
  {
  }

  lemma {:induction false} RunSafeIffCheckedUpTo(run: seq<State>, n: nat)
    requires IsRun(false, run) && InOrder(run[0]) && n < |run|
    ensures CheckedUpTo(run, n) ==> UnlockedInv(run[n])
    ensures Increasing(run[n].log) <==> CheckedUpTo(run, n)
  {
    if n > 0 {
      RunSafeIffCheckedUpTo(run, n - 1);
      StepFrom(run[n - 1], run[n], CheckedUpTo(run, n - 1));
      CheckedNext(run, n);
    } else {
      StartIsOk(run[0]);
    }
  }

  lemma StartIsOk(s: State)
    requires Init(s) && InOrder(s)
    ensures UnlockedInv(s)
  {
    forall w: nat, c: Claim ensures !Holds(s, w, c) {
      assert WorkerOf(s, w).Idle?;
    }
    forall w ensures WorkerOk(s, w) {
      assert WorkerOf(s, w).Idle?;
    }
  }

  /** Over every run without row locks, the due times at which an automation is claimed
      strictly increase exactly when every commit would have passed the check. */
  lemma UnlockedRunSafeIffChecked(run: seq<State>)
    requires IsRun(false, run) && InOrder(run[0])
    ensures Increasing(run[|run| - 1].log) <==> forall i :: 1 <= i < |run| ==> StepChecked(run[i - 1], run[i])
  {
    RunSafeIffCheckedUpTo(run, |run| - 1);
  }

  // ----- Runs that go wrong, and right -----

  lemma SelectOnly(s: State, w: nat, now: int, due: int)
    requires WorkerOf(s, w).Idle? && s.table == map["a" := Row(true, None, Some(due))] && due <= now <= s.clock
    ensures Select(false, s, s.(workers := s.workers[w := Claiming(now, [Claim("a", due, now)])]), w, now, 1, ["a"])
  {
    assert IsDue(s.table, "a", now);
    assert Claims(s.table, ["a"], now) == [Claim("a", due, now)];
  }

  /** Where rows are not locked, two workers can claim the same automation for the same
      due time: both select it, then both commit. */
  lemma UnlockedDoubleClaim() returns (run: seq<State>)
    ensures IsRun(false, run) && InOrder(run[0])
    ensures var log := run[|run| - 1].log; |log| == 2 && log[0] == log[1]
  {
    var c := Claim("a", 5, 10);
    var never: string -> Option<int> := (id: string) => None;
    var table := map["a" := Row(true, None, Some(5))];
    var s0 := State(table, map[], [], 10, {"a"});
    var s1 := s0.(workers := s0.workers[0 := Claiming(10, [c])]);
    var s2 := s1.(workers := s1.workers[1 := Claiming(10, [c])]);
    var s3 := s2.(table := Rescheduled(table, Ids([c]), 10, never), workers := s2.workers[0 := Idle], log := [c]);
    var s4 := s3.(table := Rescheduled(s3.table, Ids([c]), 10, never), workers := s3.workers[1 := Idle], log := [c, c]);
    SelectOnly(s0, 0, 10, 5);
    SelectOnly(s1, 1, 10, 5);
    assert Commit(false, s2, s3, 0, never);
    assert [c] + [c] == [c, c];
    assert Commit(false, s3, s4, 1, never);
    run := [s0, s1, s2, s3, s4];
    forall i | 1 <= i < |run| ensures Next(false, run[i - 1], run[i]) {
      assert i == 1 || i == 2 || i == 3 || i == 4;
    }
  }
}
