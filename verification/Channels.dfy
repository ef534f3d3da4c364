/** Channel memberships and the lookup of direct-message channels
    (UI/backend/open_webui/models/channels.py). Operations run to completion. */
module Channels {
  import opened Basics

  /** A membership row; leaving keeps the row. */
  datatype Member = Member(channel: string, user: string, active: bool, leftAt: Option<int>)

  /** Every membership operation keeps this: one row per channel and user. */
  ghost predicate OneRowEach(rows: seq<Member>) {
    forall i, j :: 0 <= i < j < |rows| && rows[i].channel == rows[j].channel ==> rows[i].user != rows[j].user
  }

  /** The recorded members of a channel, whether or not they left. */
  function MemberSet(rows: seq<Member>, channel: string): set<string> {
    set i | 0 <= i < |rows| && rows[i].channel == channel :: rows[i].user
  }

  function Position(rows: seq<Member>, channel: string, user: string): (i: nat)
    ensures i <= |rows|
    ensures i < |rows| ==> rows[i].channel == channel && rows[i].user == user
    ensures forall j :: 0 <= j < i ==> rows[j].channel != channel || rows[j].user != user
  {
    if rows == [] then 0
    else
      var n := |rows| - 1;
      var i := Position(rows[..n], channel, user);
      if i < n then i else if rows[n].channel == channel && rows[n].user == user then n else |rows|
  }

  function Without(rows: seq<Member>, channel: string, users: set<string>): seq<Member> {
    if rows == [] then []
    else
      var n := |rows| - 1;
      var before := Without(rows[..n], channel, users);
      if rows[n].channel == channel && rows[n].user in users then before else before + [rows[n]]
  }

  lemma {:induction false} WithoutMembers(rows: seq<Member>, channel: string, users: set<string>)
    requires OneRowEach(rows)
    ensures OneRowEach(Without(rows, channel, users)) && |Without(rows, channel, users)| <= |rows|
    ensures forall m :: m in Without(rows, channel, users) <==> m in rows && !(m.channel == channel && m.user in users)
  {
    if rows != [] {
      var n := |rows| - 1;
      var before := Without(rows[..n], channel, users);
      WithoutMembers(rows[..n], channel, users);
      assert rows == rows[..n] + [rows[n]];
      forall i | 0 <= i < |before| ensures before[i].channel == rows[n].channel ==> before[i].user != rows[n].user {
        assert before[i] in rows[..n];
      }
    }
  }

  /** One fresh row for each of `users`, in some order. */
  ghost predicate MembershipsOf(created: seq<Member>, channel: string, users: set<string>) {
    && (forall i :: 0 <= i < |created| ==> created[i] == Member(channel, created[i].user, true, None))
    && OneRowEach(created)
    && MemberSet(created, channel) == users
  }

  method CreateMemberships(channel: string, users: set<string>) returns (created: seq<Member>)
    ensures MembershipsOf(created, channel, users)
  {
    created := [];
    var left := users;
    while left != {}
      invariant left <= users && MembershipsOf(created, channel, users - left)
      decreases |left|
    {
      var user :| user in left;
      ghost var previous := created;
      created := created + [Member(channel, user, true, None)];
      AppendFresh(previous, Member(channel, user, true, None));
      left := left - {user};
    }
  }

  lemma AppendFresh(rows: seq<Member>, m: Member)
    requires OneRowEach(rows) && m.user !in MemberSet(rows, m.channel)
    ensures OneRowEach(rows + [m])
    ensures MemberSet(rows + [m], m.channel) == MemberSet(rows, m.channel) + {m.user}
  {
    AppendMember(rows, m);
    forall i | 0 <= i < |rows| && rows[i].channel == m.channel ensures rows[i].user != m.user {
      assert rows[i].user in MemberSet(rows, m.channel);
    }
  }

  lemma AppendMemberships(rows: seq<Member>, created: seq<Member>, channel: string, users: set<string>)
    requires OneRowEach(rows) && MembershipsOf(created, channel, users - MemberSet(rows, channel))
    ensures OneRowEach(rows + created)
    ensures forall c :: MemberSet(rows + created, c) == MemberSet(rows, c) + (if c == channel then users else {})
  {
    var more := rows + created;
    forall i, j | 0 <= i < j < |more| && more[i].channel == more[j].channel ensures more[i].user != more[j].user {
      if i < |rows| <= j {
        var k := j - |rows|;
        assert created[k] == more[j];
        assert created[k].user in MemberSet(created, channel);
        assert rows[i].channel == channel;
        assert rows[i].user in MemberSet(rows, channel);
      }
    }
    forall c ensures MemberSet(more, c) == MemberSet(rows, c) + (if c == channel then users else {}) {
      MemberSetConcat(rows, created, c);
      if c != channel {
        assert MemberSet(created, c) == {};
      }
    }
  }

  lemma MemberSetConcat(a: seq<Member>, b: seq<Member>, c: string)
    ensures MemberSet(a + b, c) == MemberSet(a, c) + MemberSet(b, c)
  {
    var both := a + b;
    forall u | u in MemberSet(a, c) ensures u in MemberSet(both, c) {
      var i :| 0 <= i < |a| && a[i].channel == c && a[i].user == u;
      assert both[i] == a[i];
    }
    forall u | u in MemberSet(b, c) ensures u in MemberSet(both, c) {
      var i :| 0 <= i < |b| && b[i].channel == c && b[i].user == u;
      assert both[|a| + i] == b[i];
    }
  }

  class ChannelTable {
    var rows: seq<Member>

    constructor ()
      ensures rows == []
    {
      rows := [];
    }

    /** Adds the users that have no row yet; `users` includes the inviter. */
    method AddMembers(channel: string, users: set<string>) returns (created: seq<Member>)
      requires OneRowEach(rows)
      modifies this
      ensures OneRowEach(rows) && rows == old(rows) + created
      ensures MembershipsOf(created, channel, users - MemberSet(old(rows), channel))
      ensures forall c :: MemberSet(rows, c) == MemberSet(old(rows), c) + (if c == channel then users else {})
    {
      created := CreateMemberships(channel, users - MemberSet(rows, channel));
      AppendMemberships(rows, created, channel, users);
      rows := rows + created;
    }

    method Join(channel: string, user: string)
      requires OneRowEach(rows)
      modifies this
      ensures OneRowEach(rows)
      ensures rows == if user in MemberSet(old(rows), channel) then old(rows)
                      else old(rows) + [Member(channel, user, true, None)]
    {
      MemberIffPosition(rows, channel, user);
      if Position(rows, channel, user) == |rows| {
        rows := rows + [Member(channel, user, true, None)];
      }
    }

    method Leave(channel: string, user: string, now: int) returns (found: bool)
      requires OneRowEach(rows)
      modifies this
      ensures OneRowEach(rows) && (found <==> user in MemberSet(old(rows), channel))
      ensures |rows| == |old(rows)|
      ensures forall i :: 0 <= i < |rows| ==>
        rows[i] == if old(rows)[i].channel == channel && old(rows)[i].user == user
                   then Member(channel, user, false, Some(now)) else old(rows)[i]
    {
      MemberIffPosition(rows, channel, user);
      var i := Position(rows, channel, user);
      found := i < |rows|;
      if found {
        rows := rows[i := rows[i].(active := false, leftAt := Some(now))];
      }
    }

    method RemoveMembers(channel: string, users: set<string>) returns (count: nat)
      requires OneRowEach(rows)
      modifies this
      ensures OneRowEach(rows) && count == |old(rows)| - |rows|
      ensures forall m :: m in rows <==> m in old(rows) && !(m.channel == channel && m.user in users)
    {
      WithoutMembers(rows, channel, users);
      count := |rows| - |Without(rows, channel, users)|;
      rows := Without(rows, channel, users);
    }
  }

  lemma MemberIffPosition(rows: seq<Member>, channel: string, user: string)
    ensures user in MemberSet(rows, channel) <==> Position(rows, channel, user) < |rows|
  {
    if user in MemberSet(rows, channel) {
      var i :| 0 <= i < |rows| && rows[i].channel == channel && rows[i].user == user;
    }
  }

  lemma AppendMember(rows: seq<Member>, m: Member)
    ensures forall c :: MemberSet(rows + [m], c) == MemberSet(rows, c) + (if c == m.channel then {m.user} else {})
  {
    forall c ensures MemberSet(rows + [m], c) == MemberSet(rows, c) + (if c == m.channel then {m.user} else {}) {
      MemberSetConcat(rows, [m], c);
      assert MemberSet([m], c) == if c == m.channel then {[m][0].user} else {};
    }
  }

  // ----- The lookup of a direct-message channel -----

  /** COUNT(user_id) of the channel's group. */
  function RowCount(rows: seq<Member>, channel: string): nat {
    if rows == [] then 0
    else RowCount(rows[..|rows| - 1], channel) + (if rows[|rows| - 1].channel == channel then 1 else 0)
  }

  /** SUM over the group of 1 for requested users and 0 for others. */
  function MatchCount(rows: seq<Member>, channel: string, users: set<string>): nat {
    if rows == [] then 0
    else
      var last := rows[|rows| - 1];
      MatchCount(rows[..|rows| - 1], channel, users) + (if last.channel == channel && last.user in users then 1 else 0)
  }

  /** The two HAVING conditions; a channel without rows has no group. */
  predicate Selected(rows: seq<Member>, channel: string, users: set<string>) {
    RowCount(rows, channel) > 0 && RowCount(rows, channel) == |users| && MatchCount(rows, channel, users) == |users|
  }

  /** One row for each member of this channel. */
  ghost predicate OneRowIn(rows: seq<Member>, channel: string) {
    forall i, j :: 0 <= i < j < |rows| && rows[i].channel == rows[j].channel == channel ==> rows[i].user != rows[j].user
  }

  lemma {:induction false} CountsAreSizes(rows: seq<Member>, channel: string, users: set<string>)
    requires OneRowIn(rows, channel)
    ensures RowCount(rows, channel) == |MemberSet(rows, channel)|
    ensures MatchCount(rows, channel, users) == |MemberSet(rows, channel) * users|
  {
    if rows != [] {
      var before, last := rows[..|rows| - 1], rows[|rows| - 1];
      CountsAreSizes(before, channel, users);
      LastRow(rows, before, last, channel);
      if last.channel == channel {
        GrownSizes(MemberSet(before, channel), last.user, users);
      }
    }
  }

  lemma LastRow(rows: seq<Member>, before: seq<Member>, last: Member, channel: string)
    requires rows == before + [last]
    ensures last.channel == channel ==> MemberSet(rows, channel) == MemberSet(before, channel) + {last.user}
    ensures last.channel != channel ==> MemberSet(rows, channel) == MemberSet(before, channel)
    ensures OneRowIn(rows, channel)
       <==> OneRowIn(before, channel) && (last.channel == channel ==> last.user !in MemberSet(before, channel))
  {
    AppendMember(before, last);
    assert rows[|before|] == last;
    assert forall i :: 0 <= i < |before| ==> rows[i] == before[i];
  }

  lemma GrownSizes(members: set<string>, user: string, users: set<string>)
    requires user !in members
    ensures |members + {user}| == |members| + 1
    ensures |(members + {user}) * users| == |members * users| + (if user in users then 1 else 0)
  {
    if user in users {
      assert (members + {user}) * users == members * users + {user};
    } else {
      assert (members + {user}) * users == members * users;
    }
  }

  /** The counts single out exactly the channels whose recorded members are the requested
      users; for no users at all, no channel is found. */
  lemma SelectedIffSameMembers(rows: seq<Member>, channel: string, users: set<string>)
    requires OneRowIn(rows, channel)
    ensures Selected(rows, channel, users) <==> MemberSet(rows, channel) == users && users != {}
  {
    var members := MemberSet(rows, channel);
    CountsAreSizes(rows, channel, users);
    if Selected(rows, channel, users) {
      SubsetOfSameSize(members * users, members);
      SubsetOfSameSize(members * users, users);
    }
    if members == users {
      assert members * users == users;
    }
  }

  lemma {:induction false} RowsOutnumberMembers(rows: seq<Member>, channel: string)
    ensures RowCount(rows, channel) >= |MemberSet(rows, channel)|
    ensures RowCount(rows, channel) == |MemberSet(rows, channel)| ==> OneRowIn(rows, channel)
  {
    if rows != [] {
      var before, last := rows[..|rows| - 1], rows[|rows| - 1];
      RowsOutnumberMembers(before, channel);
      LastRow(rows, before, last, channel);
      if last.channel == channel {
        GrownBy(MemberSet(before, channel), last.user);
      }
    }
  }

  lemma GrownBy(members: set<string>, user: string)
    ensures |members + {user}| == |members| + (if user in members then 0 else 1)
  {
    if user in members {
      assert members + {user} == members;
    }
  }

  ghost predicate SelectsItsMembers(rows: seq<Member>, channel: string, users: set<string>) {
    Selected(rows, channel, users) <==> MemberSet(rows, channel) == users && users != {}
  }

  /** The counts are right about a channel, for every request, exactly when it has one row
      for each member. */
  lemma CountsRightIffOneRow(rows: seq<Member>, channel: string)
    ensures (forall users: set<string> :: SelectsItsMembers(rows, channel, users)) <==> OneRowIn(rows, channel)
  {
    var members := MemberSet(rows, channel);
    RowsOutnumberMembers(rows, channel);
    if OneRowIn(rows, channel) {
      forall users: set<string> ensures SelectsItsMembers(rows, channel, users) {
        SelectedIffSameMembers(rows, channel, users);
      }
    } else {
      var i, j :| 0 <= i < j < |rows| && rows[i].channel == rows[j].channel == channel && rows[i].user == rows[j].user;
      assert rows[i].user in members;
      assert !SelectsItsMembers(rows, channel, members);
    }
  }

  lemma SubsetOfSameSize<T>(a: set<T>, b: set<T>)
    requires a <= b && |a| == |b|
    ensures a == b
  {
    assert b == a + (b - a);
    assert |b| == |a| + |b - a|;
  }

  datatype Channel = Channel(id: string, isDm: bool)

  /** The first selected channel of type dm. */
  method FindDm(channels: seq<Channel>, rows: seq<Member>, userIds: seq<string>) returns (found: Option<Channel>)
    requires OneRowEach(rows)
    ensures found.Some? ==> found.value in channels && found.value.isDm
    ensures found.Some? ==> MemberSet(rows, found.value.id) == set u | u in userIds
    ensures found == None && userIds != [] ==>
      forall c :: c in channels && c.isDm ==> MemberSet(rows, c.id) != set u | u in userIds
  {
    var users := set u | u in userIds;
    for i := 0 to |channels|
      invariant userIds != [] ==> forall j :: 0 <= j < i && channels[j].isDm ==> MemberSet(rows, channels[j].id) != users
    {
      SelectedIffSameMembers(rows, channels[i].id, users);
      if Selected(rows, channels[i].id, users) && channels[i].isDm {
        return Some(channels[i]);
      }
      if userIds != [] {
        assert userIds[0] in users;
      }
    }
    found := None;
  }
}
