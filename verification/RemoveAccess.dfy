/** fsal_test_access and fsal_remove_access: choosing between ACL and mode, and
    the three-step permission check in front of an unlink. */
module RemoveAccess {
  import opened AclTypes
  import opened AccessCheck

  datatype Attrs = Attrs(acl: AclOpt, mode: bv16, owner: nat, group: nat, isDir: bool)

  function SubjectOf(o: Attrs, creds: Creds, isRoot: bool): Subject {
    Subject(creds, o.owner, o.group, o.isDir, isRoot)
  }

  // Every caller modelled here passes a valid ACE mask beside the mode request.
  method TestAccess(o: Attrs, creds: Creds, isRoot: bool, ask: set<Rwx>, mask: set<Bit>, rfcAcl: bool)
    returns (status: Status)
    ensures o.acl.NoAcl? ==>
              status == if Required in mask then NoAce
                        else if ModeGrants(o.mode, SubjectOf(o, creds, isRoot), ask) then NoError else Access
    ensures o.acl.Acl? ==> (status.NoError? <==> AclGrants(o.acl.aces, SubjectOf(o, creds, isRoot), mask))
    ensures o.acl.Acl? ==> StatusFits(o.acl.aces, SubjectOf(o, creds, isRoot), mask,
                                      Needed(mask, SubjectOf(o, creds, isRoot)), false, rfcAcl, status)
  {
    var s := SubjectOf(o, creds, isRoot);
    if Required in mask || o.acl.Acl? {
      var allowed, denied;
      status, allowed, denied := CheckAccessAcl(o.acl, s, mask, false, rfcAcl);
    } else {
      var allowed, denied;
      status, allowed, denied := CheckAccessNoAcl(o.mode, s, ask);
    }
  }

  // No stored entry carries the request-only bit; the protocol defines none.
  ghost predicate Storable(acl: AclOpt) {
    acl.Acl? ==> forall a <- acl.aces :: Required !in a.perm
  }

  lemma {:induction false} RequiredUndecided(aces: seq<Ace>, s: Subject)
    requires forall a <- aces :: Required !in a.perm
    ensures FirstMatch(aces, s, Required) == Undecided
  {
    if aces != [] {
      assert forall a <- aces[1..] :: a in aces;
      RequiredUndecided(aces[1..], s);
    }
  }

  // The request flag stays in the set of missing bits and no entry can clear
  // it: for an ordinary caller, "an explicit ALLOW is required" is never met.
  lemma RequiredNeverGranted(acl: AclOpt, s: Subject, mask: set<Bit>)
    requires acl.Acl? && Storable(acl) && Required in mask && !s.isRoot
    ensures !AclGrants(acl.aces, s, mask)
  {
    RequiredUndecided(acl.aces, s);
    assert Required in Needed(mask, s);
  }

  ghost predicate Refuses(o: Attrs, s: Subject, b: Bit) {
    o.acl.Acl? && FirstMatch(o.acl.aces, s, b) == Refused
  }

  ghost predicate Gives(o: Attrs, s: Subject, r: Rwx, b: Bit) {
    if o.acl.Acl? then AclGrants(o.acl.aces, s, {b}) else ModeGrants(o.mode, s, {r})
  }

  // A request for `b` that insists on an explicit ALLOW answers an ordinary
  // caller with NoAce unless `b` is refused.
  lemma RequiredStatus(o: Attrs, s: Subject, b: Bit, rfcAcl: bool, status: Status)
    requires o.acl.Acl? && Storable(o.acl) && !s.isRoot && b !in OWNER_BITS + {Required, Continue}
    requires StatusFits(o.acl.aces, s, {b, Required}, Needed({b, Required}, s), false, rfcAcl, status)
    ensures !status.NoError? && (status != NoAce <==> Refuses(o, s, b))
  {
    var mask := {b, Required};
    var needed := Needed(mask, s);
    assert needed == {b, Required};
    RequiredUndecided(o.acl.aces, s);
    assert Required in Decided(o.acl.aces, s, needed, Undecided);
    assert b in Decided(o.acl.aces, s, needed, Refused) <==> Refuses(o, s, b);
    assert Decided(o.acl.aces, s, needed, Refused) != {} <==> Refuses(o, s, b);
  }

  // One of the two delete permissions, insisting on an explicit ALLOW.
  method TestRequired(o: Attrs, creds: Creds, isRoot: bool, b: Bit, rfcAcl: bool) returns (status: Status)
    requires Storable(o.acl) && (b == Delete || b == DeleteChild)
    ensures isRoot ==> status.NoError? || status == NoAce
    ensures !isRoot ==> !status.NoError? && (status != NoAce <==> Refuses(o, SubjectOf(o, creds, false), b))
  {
    status := TestAccess(o, creds, isRoot, {W}, {b, Required}, rfcAcl);
    if o.acl.Acl? {
      var s := SubjectOf(o, creds, isRoot);
      if isRoot {
        assert Needed({b, Required}, s) == {};
      } else {
        RequiredStatus(o, s, b, rfcAcl, status);
      }
    }
  }

  // What removal by an ordinary caller takes: execute and add on the parent, and
  // no refusal of either delete permission.
  ghost predicate MayRemove(dir: Attrs, rem: Attrs, isSubdir: bool, creds: Creds) {
    var d, o := SubjectOf(dir, creds, false), SubjectOf(rem, creds, false);
    && Gives(dir, d, X, Execute)
    && !Refuses(dir, d, DeleteChild) && !Refuses(rem, o, Delete)
    && Gives(dir, d, W, if isSubdir then AppendData else WriteData)
  }

  method CheckRemove(dir: Attrs, rem: Attrs, isSubdir: bool, creds: Creds, isRoot: bool, rfcAcl: bool)
    returns (status: Status)
    requires dir.isDir && Storable(dir.acl) && Storable(rem.acl)
    // An ALLOW of DELETE on the object or of DELETE_CHILD on the parent changes
    // nothing for an ordinary caller.
    ensures !isRoot ==> (status.NoError? <==> MayRemove(dir, rem, isSubdir, creds))
    ensures isRoot ==> status.NoError?
  {
    status := TestAccess(dir, creds, isRoot, {X}, {Execute}, rfcAcl);
    if !status.NoError? {
      return;
    }
    var delStatus := TestRequired(rem, creds, isRoot, Delete, rfcAcl);
    status := TestRequired(dir, creds, isRoot, DeleteChild, rfcAcl);
    if !status.NoError? && !delStatus.NoError? {
      if status != NoAce {
        return;
      }
      if delStatus != NoAce {
        return delStatus;
      }
      status := TestAccess(dir, creds, isRoot, {W}, {if isSubdir then AppendData else WriteData}, rfcAcl);
      return;
    }
    return NoError;
  }

  // Section 6.2.1.3.2 of RFC 7530 lets DELETE on the object suffice; here the
  // owner-independent ALLOW is present and the removal is still refused.
  lemma AllowDeleteNotHonoured(caller: nat)
    ensures var creds := Creds(caller, caller, []);
            var dir := Attrs(Acl([Ace(Allow, {Execute}, {}, {}, caller)]), 0, caller + 1, caller + 1, true);
            var rem := Attrs(Acl([Ace(Allow, {Delete}, {}, {}, caller)]), 0, caller + 1, caller + 1, false);
            && FirstMatch(rem.acl.aces, SubjectOf(rem, creds, false), Delete) == Granted
            && Gives(dir, SubjectOf(dir, creds, false), X, Execute)
            && !MayRemove(dir, rem, false, creds)
  {
    var creds := Creds(caller, caller, []);
    var dir := Attrs(Acl([Ace(Allow, {Execute}, {}, {}, caller)]), 0, caller + 1, caller + 1, true);
    var d := SubjectOf(dir, creds, false);
    assert Needed({WriteData}, d) == {WriteData};
    FirstMatchSingle(dir.acl.aces[0], d, WriteData);
    FirstMatchSingle(dir.acl.aces[0], d, Execute);
    assert FirstMatch(dir.acl.aces, d, WriteData) == Undecided;
  }
}
