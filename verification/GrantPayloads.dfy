/** Grants as submitted by API forms (UI/backend/open_webui/models/access_grants.py): the
    valid ones are kept, one for each principal and permission. */
module GrantPayloads {
  import opened Basics
  import opened OrderedDict
  import opened AccessGrants

  /** An entry of the submitted list. A principal id that is missing or not text is empty
      here, and an id that is not text is None. */
  datatype Payload = Junk | Payload(id: Option<string>, grant: Grant)

  predicate Accepted(p: Payload) { p.Payload? && IsValid(p.grant) && p.grant.id != "" }

  /** `uuid` stands for a random id made up on the spot. */
  function IdOf(p: Payload, uuid: string): string
    requires p.Payload?
  {
    if p.id.Some? && p.id.value != "" then p.id.value else uuid
  }

  /** Grants with their ids, in the order of Python's dictionaries. */
  type Named = Dict<Grant, string>

  function Normalized(payloads: seq<Payload>, uuid: nat -> string): Named {
    if payloads == [] then []
    else
      var n := |payloads| - 1;
      var before := Normalized(payloads[..n], uuid);
      if Accepted(payloads[n]) then Put(before, payloads[n].grant, IdOf(payloads[n], uuid(n))) else before
  }

  method NormalizeAccessGrants(payloads: seq<Payload>, uuid: nat -> string) returns (named: Named)
    ensures named == Normalized(payloads, uuid)
  {
    named := [];
    for i := 0 to |payloads|
      invariant named == Normalized(payloads[..i], uuid)
    {
      assert payloads[..i + 1][..i] == payloads[..i];
      var p := payloads[i];
      if Accepted(p) {
        named := Put(named, p.grant, IdOf(p, uuid(i)));
      }
    }
    assert payloads[..|payloads|] == payloads;
  }

  ghost predicate IsSubmitted(payloads: seq<Payload>, g: Grant) {
    exists p :: p in payloads && Accepted(p) && p.grant == g
  }

  /** The payload that decides the id of a grant: the last one submitted for it. */
  ghost predicate IsLast(payloads: seq<Payload>, i: nat, g: Grant) {
    && i < |payloads| && Accepted(payloads[i]) && payloads[i].grant == g
    && forall j :: i < j < |payloads| ==> !(Accepted(payloads[j]) && payloads[j].grant == g)
  }

  /** Exactly the valid grants are kept, each once and with the id it came with last. */
  lemma {:induction false} NormalizedGrants(payloads: seq<Payload>, uuid: nat -> string)
    ensures Valid(Normalized(payloads, uuid))
    ensures forall g :: Lists(Normalized(payloads, uuid), g) <==> IsSubmitted(payloads, g)
  {
    if payloads != [] {
      var n := |payloads| - 1;
      var before := Normalized(payloads[..n], uuid);
      NormalizedGrants(payloads[..n], uuid);
      assert payloads == payloads[..n] + [payloads[n]];
      if Accepted(payloads[n]) {
        PutKeys(before, payloads[n].grant, IdOf(payloads[n], uuid(n)));
      }
    }
  }

  lemma {:induction false} LastIdWins(payloads: seq<Payload>, uuid: nat -> string, i: nat, g: Grant)
    requires IsLast(payloads, i, g)
    ensures Has(Normalized(payloads, uuid), g)
    ensures Get(Normalized(payloads, uuid), g) == IdOf(payloads[i], uuid(i))
  {
    var n := |payloads| - 1;
    var before := Normalized(payloads[..n], uuid);
    if i < n {
      LastIdWins(payloads[..n], uuid, i, g);
      if Accepted(payloads[n]) {
        GetOfPut(before, payloads[n].grant, IdOf(payloads[n], uuid(n)), g);
      }
    } else {
      GetOfPut(before, g, IdOf(payloads[n], uuid(n)), g);
    }
  }

  /** What was kept, submitted again. */
  function Resubmitted(named: Named): (r: seq<Payload>)
    ensures |r| == |named|
  {
    seq(|named|, i requires 0 <= i < |named| => Payload(Some(named[i].value), named[i].key))
  }

  ghost predicate IsClean(named: Named) {
    Valid(named) && forall i :: 0 <= i < |named| ==> IsValid(named[i].key) && named[i].key.id != "" && named[i].value != ""
  }

  lemma {:induction false} NormalizedClean(payloads: seq<Payload>, uuid: nat -> string)
    requires forall i :: uuid(i) != ""
    ensures IsClean(Normalized(payloads, uuid))
  {
    if payloads != [] {
      var n := |payloads| - 1;
      var before := Normalized(payloads[..n], uuid);
      NormalizedClean(payloads[..n], uuid);
      if Accepted(payloads[n]) {
        PutKeys(before, payloads[n].grant, IdOf(payloads[n], uuid(n)));
      }
    }
  }

  lemma {:induction false} CleanIsFixed(named: Named, uuid: nat -> string)
    requires IsClean(named)
    ensures Normalized(Resubmitted(named), uuid) == named
  {
    if named != [] {
      var n := |named| - 1;
      CleanIsFixed(named[..n], uuid);
      assert Resubmitted(named)[..n] == Resubmitted(named[..n]);
      assert !Has(named[..n], named[n].key);
      assert Put(named[..n], named[n].key, named[n].value) == named[..n] + [named[n]];
    }
  }

  /** Normalizing what was normalized changes nothing, ids and order included. */
  lemma NormalizingTwice(payloads: seq<Payload>, uuid: nat -> string, other: nat -> string)
    requires forall i :: uuid(i) != ""
    ensures Normalized(Resubmitted(Normalized(payloads, uuid)), other) == Normalized(payloads, uuid)
  {
    NormalizedClean(payloads, uuid);
    CleanIsFixed(Normalized(payloads, uuid), other);
  }

  function Grants(named: Named): (r: seq<Grant>)
    ensures |r| == |named|
  {
    seq(|named|, i requires 0 <= i < |named| => named[i].key)
  }

  /** Access is decided as by the valid grants that were submitted. */
  lemma DecisionsNormalized(payloads: seq<Payload>, uuid: nat -> string, user: string, groups: set<string>, permission: Permission)
    ensures HasAccess(Grants(Normalized(payloads, uuid)), user, groups, permission)
       <==> exists g :: IsSubmitted(payloads, g) && g.permission == permission && Covers(g, user, groups)
  {
    var named := Normalized(payloads, uuid);
    NormalizedGrants(payloads, uuid);
    forall g ensures g in Grants(named) <==> IsSubmitted(payloads, g) {
      if Lists(named, g) {
        var i :| 0 <= i < |named| && named[i].key == g;
        assert Grants(named)[i] == g;
      }
    }
  }

  /** A grant is kept exactly when some payload submits it for a user or group, to read or
      write, with a principal. */
  lemma KeptIff(payloads: seq<Payload>, uuid: nat -> string, g: Grant)
    ensures Lists(Normalized(payloads, uuid), g)
       <==> (g.kind == User || g.kind == Group) && (g.permission == Read || g.permission == Write) && g.id != ""
            && exists p :: p in payloads && p.Payload? && p.grant == g
  {
    NormalizedGrants(payloads, uuid);
    if p :| p in payloads && p.Payload? && p.grant == g {
      assert Accepted(p) ==> IsSubmitted(payloads, g);
    }
  }
}
