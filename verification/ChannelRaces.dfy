/** Joining and adding members take two database steps, the check for existing rows and the
    insert, and no constraint backs the check (UI/backend/open_webui/models/channels.py).
    Here the steps of several requests interleave. */
module ChannelRaces {
  import opened Basics
  import opened Channels

  /** `pending` holds the rows that requests past their check are about to insert. */
  datatype State = State(rows: seq<Member>, pending: map<nat, seq<Member>>)

  /** The rows made for the users that have none; joining asks for one user. */
  ghost predicate Check(s: State, t: State, w: nat, channel: string, users: set<string>) {
    && w !in s.pending && w in t.pending
    && MembershipsOf(t.pending[w], channel, users - MemberSet(s.rows, channel))
    && t == s.(pending := s.pending[w := t.pending[w]])
  }

  ghost predicate Insert(s: State, t: State, w: nat) {
    w in s.pending && t == State(s.rows + s.pending[w], s.pending - {w})
  }

  ghost predicate Remove(s: State, t: State, channel: string, users: set<string>) {
    t == s.(rows := Without(s.rows, channel, users))
  }

  /** Leaving changes a row, but not whose it is. */
  ghost predicate Leave(s: State, t: State) {
    && t.pending == s.pending && |t.rows| == |s.rows|
    && forall i :: 0 <= i < |s.rows| ==> t.rows[i].channel == s.rows[i].channel && t.rows[i].user == s.rows[i].user
  }

  ghost predicate Next(s: State, t: State) {
    || (exists w: nat, channel: string, users: set<string> :: Check(s, t, w, channel, users))
    || (exists w: nat :: Insert(s, t, w))
    || (exists channel: string, users: set<string> :: Remove(s, t, channel, users))
    || Leave(s, t)
  }

  ghost predicate IsRun(run: seq<State>) {
    && |run| > 0 && run[0].pending == map[] && OneRowEach(run[0].rows)
    && forall i :: 1 <= i < |run| ==> Next(run[i - 1], run[i])
  }

  ghost predicate HasRow(rows: seq<Member>, m: Member) {
    exists i :: 0 <= i < |rows| && rows[i].channel == m.channel && rows[i].user == m.user
  }

  /** None of the rows to insert has been inserted by another request since the check. */
  ghost predicate StillMissing(rows: seq<Member>, created: seq<Member>) {
    forall m :: m in created ==> !HasRow(rows, m)
  }

  lemma AppendIffMissing(rows: seq<Member>, created: seq<Member>, all: seq<Member>)
    requires OneRowEach(rows) && OneRowEach(created) && all == rows + created
    ensures OneRowEach(all) <==> StillMissing(rows, created)
  {
    if OneRowEach(all) {
      forall m | m in created ensures !HasRow(rows, m) {
        var j :| 0 <= j < |created| && created[j] == m;
        assert all[|rows| + j] == m;
        assert forall i :: 0 <= i < |rows| ==> all[i] == rows[i];
      }
    } else {
      var i, j :| 0 <= i < j < |all| && all[i].channel == all[j].channel && all[i].user == all[j].user;
      assert i < |rows| <= j;
      assert created[j - |rows|] == all[j] && rows[i] == all[i];
      assert HasRow(rows, all[j]);
    }
  }

  ghost predicate PendingOk(s: State) {
    forall w :: w in s.pending ==> OneRowEach(s.pending[w])
  }

  ghost predicate StepChecked(s: State, t: State) {
    forall w: nat :: Insert(s, t, w) ==> StillMissing(s.rows, s.pending[w])
  }

  lemma RemoveKeeps(s: State, t: State, channel: string, users: set<string>)
    requires OneRowEach(s.rows) && Remove(s, t, channel, users)
    ensures OneRowEach(t.rows)
  {
    WithoutMembers(s.rows, channel, users);
  }

  lemma StepKeepsPending(s: State, t: State)
    requires PendingOk(s) && Next(s, t)
    ensures PendingOk(t)
  {
  }

  /** Any step keeps one row per channel and user, unless it inserts a row that another
      request has inserted since the check. */
  lemma StepSafeIffChecked(s: State, t: State)
    requires OneRowEach(s.rows) && PendingOk(s) && Next(s, t)
    ensures OneRowEach(t.rows) <==> StepChecked(s, t)
  {
    forall w: nat | Insert(s, t, w) ensures OneRowEach(t.rows) <==> StillMissing(s.rows, s.pending[w]) {
      AppendIffMissing(s.rows, s.pending[w], t.rows);
    }
    if w: nat :| Insert(s, t, w) {
    } else if channel: string, users: set<string> :| Remove(s, t, channel, users) {
      RemoveKeeps(s, t, channel, users);
    }
  }

  lemma {:induction false} PendingAlways(run: seq<State>, n: nat)
    requires IsRun(run) && n < |run|
    ensures PendingOk(run[n])
  {
    if n > 0 {
      PendingAlways(run, n - 1);
      StepKeepsPending(run[n - 1], run[n]);
    }
  }

  lemma {:induction false} CheckedKeeps(run: seq<State>, n: nat)
    requires IsRun(run) && n < |run| && forall i :: 1 <= i <= n ==> StepChecked(run[i - 1], run[i])
    ensures OneRowEach(run[n].rows)
  {
    if n > 0 {
      CheckedKeeps(run, n - 1);
      PendingAlways(run, n - 1);
      StepSafeIffChecked(run[n - 1], run[n]);
    }
  }

  /** Over every run there is always one row per channel and user, and so a right answer to
      every lookup, exactly when no insert repeats a row inserted since its check. */
  lemma RunSafeIffChecked(run: seq<State>)
    requires IsRun(run)
    ensures (forall n :: 0 <= n < |run| ==> OneRowEach(run[n].rows))
       <==> forall i :: 1 <= i < |run| ==> StepChecked(run[i - 1], run[i])
  {
    if forall n :: 0 <= n < |run| ==> OneRowEach(run[n].rows) {
      forall i | 1 <= i < |run| ensures StepChecked(run[i - 1], run[i]) {
        PendingAlways(run, i - 1);
        StepSafeIffChecked(run[i - 1], run[i]);
      }
    } else {
      var n :| 0 <= n < |run| && !OneRowEach(run[n].rows);
      if forall i :: 1 <= i < |run| ==> StepChecked(run[i - 1], run[i]) {
        CheckedKeeps(run, n);
      }
    }
  }

  /** Two requests of one user to join, both checked before either inserts, leave two rows;
      then the counts select the channel for that user and anybody else. */
  lemma RacingJoinsMislead(a: string, b: string) returns (run: seq<State>)
    requires a != b
    ensures IsRun(run) && run[0] == State([], map[])
    ensures var rows := run[|run| - 1].rows; Selected(rows, "c", {a, b}) && MemberSet(rows, "c") == {a}
  {
    var m := Member("c", a, true, None);
    var s0 := State([], map[]);
    var s1 := s0.(pending := s0.pending[0 := [m]]);
    var s2 := s1.(pending := s1.pending[1 := [m]]);
    var s3 := State([m], s2.pending - {0});
    var s4 := State([m, m], s3.pending - {1});
    assert [] + [m] == [m] && [m] + [m] == [m, m];
    JoinChecked(s0, s1, 0, m);
    JoinChecked(s1, s2, 1, m);
    assert Insert(s2, s3, 0) && Insert(s3, s4, 1);
    run := [s0, s1, s2, s3, s4];
    forall i | 1 <= i < |run| ensures Next(run[i - 1], run[i]) {
      assert i == 1 || i == 2 || i == 3 || i == 4;
    }
    TwiceTheSame(m, b);
  }

  lemma JoinChecked(s: State, t: State, w: nat, m: Member)
    requires m == Member(m.channel, m.user, true, None) && s.rows == []
    requires w !in s.pending && t == s.(pending := s.pending[w := [m]])
    ensures Next(s, t)
  {
    OneUser(m);
    assert {m.user} - MemberSet(s.rows, m.channel) == {m.user};
    assert Check(s, t, w, m.channel, {m.user});
  }

  lemma OneUser(m: Member)
    requires m == Member(m.channel, m.user, true, None)
    ensures MemberSet([], m.channel) == {} && MembershipsOf([m], m.channel, {m.user})
  {
    assert [m][0].user in MemberSet([m], m.channel);
  }

  lemma TwiceTheSame(m: Member, b: string)
    requires b != m.user
    ensures Selected([m, m], m.channel, {m.user, b}) && MemberSet([m, m], m.channel) == {m.user}
  {
    var rows := [m, m];
    assert rows[..1] == [m] && [m][..0] == [];
    assert RowCount([m], m.channel) == 1 && MatchCount([m], m.channel, {m.user, b}) == 1;
    assert rows[0].user in MemberSet(rows, m.channel);
  }
}
