/** Workers that claim due automations at the same time, while users create, edit and
    delete automations (UI/backend/open_webui/models/automations.py). A claim takes two
    database steps: the select, which on the skip-locked path also locks the rows it
    takes, and the commit. */
module ClaimRuns {
  import opened Basics
  import opened Sorting
  import opened Automations

  /** Automation `id`, claimed for the occurrence due at `due` by a select at time `now`. */
  datatype Claim = Claim(id: string, due: int, now: int)

  datatype Worker = Idle | Claiming(now: int, picked: seq<Claim>)

  /** `log` records every committed claim, `clock` the latest time anyone has read, and
      `used` every id ever given out. */
  datatype State = State(table: Table, workers: map<nat, Worker>, log: seq<Claim>, clock: int, used: set<string>)

  function WorkerOf(s: State, w: nat): Worker { if w in s.workers then s.workers[w] else Idle }

  ghost predicate Holds(s: State, w: nat, c: Claim) {
    WorkerOf(s, w).Claiming? && c in WorkerOf(s, w).picked
  }

  ghost predicate HoldsRow(s: State, w: nat, id: string) { exists c :: Holds(s, w, c) && c.id == id }

  ghost predicate Held(s: State, id: string) { exists w :: HoldsRow(s, w, id) }

  ghost function Locked(s: State): set<string> { set id | id in s.table && Held(s, id) }

  /** The rows selected, each with the due time it is claimed for. */
  function Claims(table: Table, picked: seq<string>, now: int): (r: seq<Claim>)
    ensures |r| == |picked|
  {
    seq(|picked|, i requires 0 <= i < |picked| => Claim(picked[i], DueTime(table, picked[i]), now))
  }

  function Ids(picked: seq<Claim>): (r: seq<string>)
    ensures |r| == |picked|
  {
    seq(|picked|, i requires 0 <= i < |picked| => picked[i].id)
  }

  // ----- Steps -----

  /** A worker selects due rows; with `skipLocked` it passes over rows that are held. */
  ghost predicate Select(skipLocked: bool, s: State, t: State, w: nat, now: int, limit: nat, picked: seq<string>) {
    && WorkerOf(s, w).Idle?
    && IsSelection(s.table, if skipLocked then Locked(s) else {}, now, limit, picked)
    && t == s.(workers := s.workers[w := Claiming(now, Claims(s.table, picked, now))],
               clock := if now > s.clock then now else s.clock)
  }

  ghost predicate RunsAfter(next: Option<int>, time: int) { next.Some? ==> next.value > time }

  /** A worker writes its rows back and commits; a row deleted in the meantime makes that
      fail. Next runs, where there are any, come after the time of the select; for the path
      without locks also after all clock readings so far, the scheduler's own included. */
  ghost predicate Commit(skipLocked: bool, s: State, t: State, w: nat, next: string -> Option<int>) {
    var worker := WorkerOf(s, w);
    && worker.Claiming?
    && (forall c :: c in worker.picked ==> c.id in s.table)
    && (forall id :: RunsAfter(next(id), if skipLocked then worker.now else s.clock))
    && t == s.(table := Rescheduled(s.table, Ids(worker.picked), worker.now, next),
               workers := s.workers[w := Idle], log := s.log + worker.picked)
  }

  ghost predicate Abort(s: State, t: State, w: nat) {
    WorkerOf(s, w).Claiming? && t == s.(workers := s.workers[w := Idle])
  }

  /** New automations have new ids and have not run. */
  ghost predicate Create(s: State, t: State, id: string, active: bool, next: Option<int>) {
    && id !in s.used && RunsAfter(next, s.clock)
    && t == s.(table := s.table[id := Row(active, None, next)], used := s.used + {id})
  }

  /** A row that a worker has locked cannot be written. */
  ghost predicate Writable(skipLocked: bool, s: State, id: string) {
    id in s.table && (skipLocked ==> !Held(s, id))
  }

  /** A user edits, pauses or resumes an automation; its next run lies in the future. */
  ghost predicate Edit(skipLocked: bool, s: State, t: State, id: string, active: bool, next: Option<int>) {
    && Writable(skipLocked, s, id) && RunsAfter(next, s.clock)
    && t == s.(table := s.table[id := Row(active, s.table[id].lastRun, next)])
  }

  ghost predicate Delete(skipLocked: bool, s: State, t: State, id: string) {
    Writable(skipLocked, s, id) && t == s.(table := s.table - {id})
  }

  ghost predicate UserStep(skipLocked: bool, s: State, t: State) {
    || (exists id: string, active: bool, next: Option<int> :: Create(s, t, id, active, next))
    || (exists id: string, active: bool, next: Option<int> :: Edit(skipLocked, s, t, id, active, next))
    || exists id: string :: Delete(skipLocked, s, t, id)
  }

  ghost predicate Init(s: State) {
    s.log == [] && s.table.Keys <= s.used && forall w :: WorkerOf(s, w).Idle?
  }

  ghost predicate Next(skipLocked: bool, s: State, t: State) {
    || (exists w: nat, now: int, limit: nat, picked: seq<string> :: Select(skipLocked, s, t, w, now, limit, picked))
    || (exists w: nat, next: string -> Option<int> :: Commit(skipLocked, s, t, w, next))
    || (exists w: nat :: Abort(s, t, w))
    || UserStep(skipLocked, s, t)
  }

  ghost predicate IsRun(skipLocked: bool, run: seq<State>) {
    |run| > 0 && Init(run[0]) && forall i :: 1 <= i < |run| ==> Next(skipLocked, run[i - 1], run[i])
  }

  /** The due times at which one automation is claimed are strictly increasing. */
  ghost predicate Increasing(log: seq<Claim>) {
    forall i, j :: 0 <= i < j < |log| && log[i].id == log[j].id ==> log[i].due < log[j].due
  }

  // ----- What every step does to the claims held -----

  lemma ClaimsHeld(table: Table, picked: seq<string>, now: int, locked: set<string>, limit: nat)
    requires IsSelection(table, locked, now, limit, picked)
    ensures Ids(Claims(table, picked, now)) == picked
    ensures forall c :: c in Claims(table, picked, now) ==>
      IsDue(table, c.id, now) && c.due == table[c.id].nextRun.value && c.now == now && c.id !in locked
  {
    var claims := Claims(table, picked, now);
    assert forall i :: 0 <= i < |picked| ==> Ids(claims)[i] == picked[i];
    forall c | c in claims
      ensures IsDue(table, c.id, now) && c.due == table[c.id].nextRun.value && c.now == now && c.id !in locked
    {
      var i :| 0 <= i < |claims| && claims[i] == c;
      assert IsDue(table, picked[i], now);
    }
  }

  lemma IdsMember(picked: seq<Claim>, id: string)
    ensures id in Ids(picked) <==> exists c :: c in picked && c.id == id
  {
    if id in Ids(picked) {
      var i :| 0 <= i < |picked| && Ids(picked)[i] == id;
      assert picked[i] in picked;
    }
    if c :| c in picked && c.id == id {
      var i :| 0 <= i < |picked| && picked[i] == c;
      assert Ids(picked)[i] == id;
    }
  }

  lemma DistinctPicks(picked: seq<Claim>)
    requires Distinct(Ids(picked))
    ensures forall i, j :: 0 <= i < j < |picked| ==> picked[i].id != picked[j].id
  {
    forall i, j | 0 <= i < j < |picked| ensures picked[i].id != picked[j].id {
      assert Ids(picked)[i] != Ids(picked)[j];
    }
  }

  /** Appending claims of different automations keeps a log increasing exactly when each
      comes after all that the log has for the same automation. */
  lemma AppendedClaims(log: seq<Claim>, picked: seq<Claim>)
    requires Increasing(log) && Distinct(Ids(picked))
    ensures Increasing(log + picked) <==> forall l, c :: l in log && c in picked && l.id == c.id ==> l.due < c.due
  {
    var more, n := log + picked, |log|;
    DistinctPicks(picked);
    if Increasing(more) {
      forall l, c | l in log && c in picked && l.id == c.id ensures l.due < c.due {
        var i :| 0 <= i < n && log[i] == l;
        var j :| 0 <= j < |picked| && picked[j] == c;
        assert more[i] == l && more[n + j] == c;
      }
    } else {
      var i, j :| 0 <= i < j < |more| && more[i].id == more[j].id && more[i].due >= more[j].due;
      assert j >= n && i < n;
      assert more[i] in log && more[j] in picked;
    }
  }

  /** Workers other than `w` hold what they held. */
  lemma OthersHold(s: State, t: State, w: nat)
    requires forall v :: v != w ==> WorkerOf(t, v) == WorkerOf(s, v)
    ensures forall v, c :: v != w ==> (Holds(t, v, c) <==> Holds(s, v, c))
  {
  }

  lemma RowsHeld(s: State, t: State)
    requires t.workers == s.workers
    ensures forall v, c :: Holds(t, v, c) <==> Holds(s, v, c)
    ensures forall id :: Held(t, id) <==> Held(s, id)
  {
    forall v, c ensures Holds(t, v, c) <==> Holds(s, v, c) {
      assert WorkerOf(t, v) == WorkerOf(s, v);
    }
    forall v, id ensures HoldsRow(t, v, id) <==> HoldsRow(s, v, id) {
      if c :| Holds(s, v, c) && c.id == id {
        assert Holds(t, v, c);
      }
      if c :| Holds(t, v, c) && c.id == id {
        assert Holds(s, v, c);
      }
    }
  }
}
