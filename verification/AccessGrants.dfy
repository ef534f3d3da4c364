/** Conversion between access grants and the legacy access_control dictionary
    (UI/backend/open_webui/models/access_grants.py), for the grants of one resource. */
module AccessGrants {
  import opened Basics
  import opened Sorting

  /** Principal types and permissions are free text in the table. */
  datatype Kind = User | Group | OtherKind(name: string)

  datatype Permission = Read | Write | OtherPermission(name: string)

  datatype Grant = Grant(kind: Kind, id: string, permission: Permission)

  datatype Perms = Perms(groupIds: seq<string>, userIds: seq<string>)

  /** The legacy dictionary; a missing permission is None, and {} misses both. */
  datatype AccessControl = AccessControl(read: Option<Perms>, write: Option<Perms>)

  const PUBLIC_READ := Grant(User, "*", Read)

  predicate IsValid(g: Grant) { !g.kind.OtherKind? && !g.permission.OtherPermission? }

  // ----- Legacy to grants -----

  function Each(kind: Kind, ids: seq<string>, permission: Permission): (r: seq<Grant>)
    ensures |r| == |ids|
  {
    seq(|ids|, i requires 0 <= i < |ids| => Grant(kind, ids[i], permission))
  }

  function PermissionGrants(perms: Option<Perms>, permission: Permission): seq<Grant> {
    if perms == None then [] else Each(Group, perms.value.groupIds, permission) + Each(User, perms.value.userIds, permission)
  }

  function GrantsOfLegacy(isFile: bool, legacy: Option<AccessControl>): seq<Grant> {
    if legacy == None then (if isFile then [] else [PUBLIC_READ])
    else PermissionGrants(legacy.value.read, Read) + PermissionGrants(legacy.value.write, Write)
  }

  method AccessControlToGrants(isFile: bool, legacy: Option<AccessControl>) returns (grants: seq<Grant>)
    ensures grants == GrantsOfLegacy(isFile, legacy)
  {
    grants := [];
    if legacy == None {
      if !isFile {
        grants := grants + [PUBLIC_READ];
      }
      return;
    }
    var permissions := [Read, Write];
    for p := 0 to 2
      invariant p == 0 ==> grants == []
      invariant p == 1 ==> grants == PermissionGrants(legacy.value.read, Read)
      invariant p == 2 ==> grants == GrantsOfLegacy(isFile, legacy)
    {
      var data := if permissions[p] == Read then legacy.value.read else legacy.value.write;
      if data.Some? {
        ghost var before := grants;
        var groups, users := data.value.groupIds, data.value.userIds;
        for i := 0 to |groups|
          invariant grants == before + Each(Group, groups[..i], permissions[p])
        {
          grants := grants + [Grant(Group, groups[i], permissions[p])];
        }
        assert groups[..|groups|] == groups;
        for i := 0 to |users|
          invariant grants == before + Each(Group, groups, permissions[p]) + Each(User, users[..i], permissions[p])
        {
          grants := grants + [Grant(User, users[i], permissions[p])];
        }
        assert users[..|users|] == users;
        assert grants == before + PermissionGrants(data, permissions[p]);
      }
    }
  }

  // ----- Grants to legacy -----

  predicate IsPublic(grants: seq<Grant>) { PUBLIC_READ in grants }

  /** The ids granted a permission, once each, in order of first appearance. */
  function Collected(grants: seq<Grant>, kind: Kind, permission: Permission): seq<string> {
    if grants == [] then []
    else
      var n := |grants| - 1;
      var before := Collected(grants[..n], kind, permission);
      var g := grants[n];
      if g != PUBLIC_READ && g.kind == kind && g.permission == permission && g.id !in before then before + [g.id] else before
  }

  function PermsOf(grants: seq<Grant>, permission: Permission): Perms {
    Perms(Collected(grants, Group, permission), Collected(grants, User, permission))
  }

  function LegacyOfGrants(grants: seq<Grant>): Option<AccessControl> {
    if grants == [] then Some(AccessControl(None, None))
    else if IsPublic(grants) then None
    else Some(AccessControl(Some(PermsOf(grants, Read)), Some(PermsOf(grants, Write))))
  }

  function Added(perms: Perms, g: Grant): Perms {
    if g.kind == Group && g.id !in perms.groupIds then perms.(groupIds := perms.groupIds + [g.id])
    else if g.kind == User && g.id !in perms.userIds then perms.(userIds := perms.userIds + [g.id])
    else perms
  }

  method GrantsToAccessControl(grants: seq<Grant>) returns (legacy: Option<AccessControl>)
    ensures legacy == LegacyOfGrants(grants)
  {
    if grants == [] {
      return Some(AccessControl(None, None));
    }
    var read, write := Perms([], []), Perms([], []);
    var isPublic := false;
    for i := 0 to |grants|
      invariant isPublic == IsPublic(grants[..i])
      invariant read == PermsOf(grants[..i], Read) && write == PermsOf(grants[..i], Write)
    {
      var g := grants[i];
      assert grants[..i + 1][..i] == grants[..i];
      assert IsPublic(grants[..i + 1]) <==> IsPublic(grants[..i]) || g == PUBLIC_READ;
      if g == PUBLIC_READ {
        isPublic := true;
        continue;
      }
      if g.permission == Read {
        read := Added(read, g);
      } else if g.permission == Write {
        write := Added(write, g);
      }
    }
    assert grants[..|grants|] == grants;
    legacy := if isPublic then None else Some(AccessControl(Some(read), Some(write)));
  }

  // ----- Access decisions -----

  ghost predicate Covers(g: Grant, user: string, groups: set<string>) {
    (g.kind == User && (g.id == "*" || g.id == user)) || (g.kind == Group && g.id in groups)
  }

  ghost predicate HasAccess(grants: seq<Grant>, user: string, groups: set<string>, permission: Permission) {
    exists g :: g in grants && g.permission == permission && Covers(g, user, groups)
  }

  // ----- The round trip -----

  /** Granted, and not the public wildcard that the dictionary keeps elsewhere. */
  ghost predicate IsGranted(grants: seq<Grant>, g: Grant) { g in grants && g != PUBLIC_READ }

  lemma {:induction false} CollectedMembers(grants: seq<Grant>, kind: Kind, permission: Permission)
    ensures Distinct(Collected(grants, kind, permission))
    ensures forall id :: id in Collected(grants, kind, permission) <==> IsGranted(grants, Grant(kind, id, permission))
  {
    if grants != [] {
      var n := |grants| - 1;
      CollectedMembers(grants[..n], kind, permission);
      assert grants == grants[..n] + [grants[n]];
    }
  }

  lemma EachMembers(kind: Kind, ids: seq<string>, permission: Permission)
    requires Distinct(ids)
    ensures Distinct(Each(kind, ids, permission))
    ensures forall g :: g in Each(kind, ids, permission) <==> g.kind == kind && g.permission == permission && g.id in ids
  {
    var each := Each(kind, ids, permission);
    forall g: Grant | g.kind == kind && g.permission == permission && g.id in ids ensures g in each {
      var i :| 0 <= i < |ids| && ids[i] == g.id;
      assert each[i] == g;
    }
  }

  lemma ConcatDistinct<T>(a: seq<T>, b: seq<T>)
    requires Distinct(a) && Distinct(b) && forall x :: x in a ==> x !in b
    ensures Distinct(a + b)
  {
    forall i, j | 0 <= i < j < |a + b| ensures (a + b)[i] != (a + b)[j] {
      if i < |a| <= j {
        assert a[i] in a && b[j - |a|] in b;
      }
    }
  }

  lemma PermissionRoundTrip(grants: seq<Grant>, permission: Permission)
    ensures Distinct(PermissionGrants(Some(PermsOf(grants, permission)), permission))
    ensures var back := PermissionGrants(Some(PermsOf(grants, permission)), permission);
      forall g :: g in back <==> IsGranted(grants, g) && g.permission == permission && !g.kind.OtherKind?
  {
    var perms := PermsOf(grants, permission);
    CollectedMembers(grants, Group, permission);
    CollectedMembers(grants, User, permission);
    EachMembers(Group, perms.groupIds, permission);
    EachMembers(User, perms.userIds, permission);
    ConcatDistinct(Each(Group, perms.groupIds, permission), Each(User, perms.userIds, permission));
  }

  function RoundTrip(isFile: bool, grants: seq<Grant>): seq<Grant> {
    GrantsOfLegacy(isFile, LegacyOfGrants(grants))
  }

  ghost predicate AllValid(grants: seq<Grant>) { forall g :: g in grants ==> IsValid(g) }

  /** Without public read, converting there and back gives the same set of grants, each
      exactly once. */
  lemma PrivateRoundTrip(isFile: bool, grants: seq<Grant>)
    requires AllValid(grants) && !IsPublic(grants)
    ensures Distinct(RoundTrip(isFile, grants))
    ensures forall g :: g in RoundTrip(isFile, grants) <==> g in grants
  {
    if grants != [] {
      PermissionRoundTrip(grants, Read);
      PermissionRoundTrip(grants, Write);
      ConcatDistinct(PermissionGrants(Some(PermsOf(grants, Read)), Read), PermissionGrants(Some(PermsOf(grants, Write)), Write));
    }
  }

  /** Everybody's read access survives on resources other than files. */
  lemma ReadDecisionsSurvive(grants: seq<Grant>, user: string, groups: set<string>)
    requires AllValid(grants)
    ensures HasAccess(RoundTrip(false, grants), user, groups, Read) == HasAccess(grants, user, groups, Read)
  {
    if IsPublic(grants) {
      assert RoundTrip(false, grants) == [PUBLIC_READ];
      assert PUBLIC_READ in RoundTrip(false, grants);
      assert Covers(PUBLIC_READ, user, groups);
    } else {
      PrivateRoundTrip(false, grants);
    }
  }

  ghost predicate DecisionsSurvive(isFile: bool, grants: seq<Grant>) {
    forall user: string, groups: set<string>, permission: Permission ::
      HasAccess(RoundTrip(isFile, grants), user, groups, permission) == HasAccess(grants, user, groups, permission)
  }

  ghost predicate GrantsWrite(grants: seq<Grant>) {
    exists g :: g in grants && g.permission == Write
  }

  lemma WriteGrantLost(grants: seq<Grant>, isFile: bool, g: Grant)
    requires AllValid(grants) && IsPublic(grants) && g in grants && g.permission == Write
    ensures !DecisionsSurvive(isFile, grants)
  {
    var groups := if g.kind == Group then {g.id} else {};
    assert Covers(g, g.id, groups);
    assert HasAccess(grants, g.id, groups, Write);
    assert RoundTrip(isFile, grants) == if isFile then [] else [PUBLIC_READ];
    assert !HasAccess(RoundTrip(isFile, grants), g.id, groups, Write);
  }

  lemma PublicFileLost(grants: seq<Grant>)
    requires IsPublic(grants)
    ensures !DecisionsSurvive(true, grants)
  {
    assert Covers(PUBLIC_READ, "", {});
    assert HasAccess(grants, "", {}, Read);
    assert RoundTrip(true, grants) == [];
    assert !HasAccess(RoundTrip(true, grants), "", {}, Read);
  }

  /** Every access decision survives exactly when the resource is not both publicly
      readable and either a file or writable by somebody. */
  lemma SurvivalIff(isFile: bool, grants: seq<Grant>)
    requires AllValid(grants)
    ensures DecisionsSurvive(isFile, grants) <==> !(IsPublic(grants) && (isFile || GrantsWrite(grants)))
  {
    if !IsPublic(grants) {
      PrivateRoundTrip(isFile, grants);
    } else if isFile {
      PublicFileLost(grants);
    } else if g :| g in grants && g.permission == Write {
      WriteGrantLost(grants, isFile, g);
    } else {
      forall user: string, groups: set<string>, permission: Permission
        ensures HasAccess(RoundTrip(false, grants), user, groups, permission) == HasAccess(grants, user, groups, permission)
      {
        ReadDecisionsSurvive(grants, user, groups);
        if permission != Read {
          assert forall g :: g in grants ==> IsValid(g) && g.permission == Read;
          assert RoundTrip(false, grants) == [PUBLIC_READ];
        }
      }
    }
  }

  // ----- The two forms in plain terms -----

  ghost predicate Allows(perms: Option<Perms>, g: Grant) {
    perms.Some? && ((g.kind == User && g.id in perms.value.userIds) || (g.kind == Group && g.id in perms.value.groupIds))
  }

  lemma EachIds(kind: Kind, ids: seq<string>, permission: Permission, g: Grant)
    ensures g in Each(kind, ids, permission) <==> g.kind == kind && g.permission == permission && g.id in ids
  {
    if g.kind == kind && g.permission == permission && g.id in ids {
      var i :| 0 <= i < |ids| && ids[i] == g.id;
      assert Each(kind, ids, permission)[i] == g;
    }
  }

  lemma PermissionIds(perms: Option<Perms>, permission: Permission, g: Grant)
    ensures g in PermissionGrants(perms, permission) <==> g.permission == permission && Allows(perms, g)
  {
    if perms.Some? {
      EachIds(Group, perms.value.groupIds, permission, g);
      EachIds(User, perms.value.userIds, permission, g);
    }
  }

  /** A dictionary grants read and write to the users and groups it names, no dictionary
      grants reading to everybody, and for files nothing. */
  lemma LegacyMeans(isFile: bool, legacy: Option<AccessControl>, g: Grant)
    ensures legacy == None && isFile ==> g !in GrantsOfLegacy(isFile, legacy)
    ensures legacy == None && !isFile ==> (g in GrantsOfLegacy(isFile, legacy) <==> g == Grant(User, "*", Read))
    ensures legacy.Some? ==> (g in GrantsOfLegacy(isFile, legacy)
      <==> (g.permission == Read && Allows(legacy.value.read, g)) || (g.permission == Write && Allows(legacy.value.write, g)))
  {
    if legacy.Some? {
      PermissionIds(legacy.value.read, Read, g);
      PermissionIds(legacy.value.write, Write, g);
    }
  }

  /** Back in the dictionary, each user and group stands under what it was granted. */
  lemma GrantsMean(grants: seq<Grant>, id: string)
    requires Grant(User, "*", Read) !in grants && grants != []
    ensures LegacyOfGrants(grants).Some?
    ensures var legacy := LegacyOfGrants(grants).value;
      && legacy.read.Some? && legacy.write.Some?
      && (id in legacy.read.value.userIds <==> Grant(User, id, Read) in grants)
      && (id in legacy.read.value.groupIds <==> Grant(Group, id, Read) in grants)
      && (id in legacy.write.value.userIds <==> Grant(User, id, Write) in grants)
      && (id in legacy.write.value.groupIds <==> Grant(Group, id, Write) in grants)
  {
    CollectedMembers(grants, User, Read);
    CollectedMembers(grants, Group, Read);
    CollectedMembers(grants, User, Write);
    CollectedMembers(grants, Group, Write);
  }
}
