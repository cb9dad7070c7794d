/** Access control entries, callers, and the reference meaning of an NFSv4 ACL:
    per permission bit, the first entry that decides the bit wins. */
module AclTypes {

  // The bits of an ACE permission mask, followed by the two request-only bits
  // FSAL_ACE4_REQ_FLAG and FSAL_ACE4_PERM_CONTINUE that share the same word.
  datatype Bit =
    | ReadData | WriteData | AppendData | ReadNamedAttr | WriteNamedAttr | Execute | DeleteChild
    | ReadAttr | WriteAttr | Delete | ReadAcl | WriteAcl | WriteOwner | Synchronize
    | Required | Continue

  datatype AceType = Allow | Deny | Audit | Alarm

  datatype Flag = FileInherit | DirInherit | NoPropagate | InheritOnly | Successful | Failed | GroupId | Inherited

  datatype IFlag = ModeGen | ExcludeFiles | ExcludeDirs | SpecialId

  // `who` is the uid/gid union of the source: the flags say how to read it.
  datatype Ace = Ace(kind: AceType, perm: set<Bit>, flag: set<Flag>, iflag: set<IFlag>, who: nat)

  const SPECIAL_OWNER: nat := 1
  const SPECIAL_GROUP: nat := 2
  const SPECIAL_EVERYONE: nat := 3

  // What the zeroing allocator leaves in an ACE buffer.
  const ZERO_ACE := Ace(Allow, {}, {}, {}, 0)

  const INHERIT_FLAGS: set<Flag> := {FileInherit, DirInherit, InheritOnly}
  const OWNER_BITS: set<Bit> := {ReadAcl, WriteAcl, ReadAttr, WriteAttr}
  const RWX_BITS: set<Bit> := {ReadData, WriteData, AppendData, Execute}

  datatype Creds = Creds(uid: nat, gid: nat, groups: seq<nat>)

  // A caller against an object: ownership and type come from the attributes,
  // `isRoot` is the answer of the export's is_superuser operation.
  datatype Subject = Subject(creds: Creds, owner: nat, group: nat, isDir: bool, isRoot: bool)

  predicate InGroup(gid: nat, creds: Creds) {
    creds.gid == gid || gid in creds.groups
  }

  predicate IsOwner(s: Subject) {
    s.creds.uid == s.owner
  }

  predicate Matches(a: Ace, s: Subject) {
    if SpecialId in a.iflag then
      || (a.who == SPECIAL_OWNER && IsOwner(s))
      || (a.who == SPECIAL_GROUP && InGroup(s.group, s.creds))
      || a.who == SPECIAL_EVERYONE
    else if GroupId in a.flag then InGroup(a.who, s.creds)
    else s.creds.uid == a.who
  }

  predicate Applicable(a: Ace, s: Subject) {
    && InheritOnly !in a.flag
    && (if s.isDir then ExcludeDirs !in a.iflag else ExcludeFiles !in a.iflag)
    && (s.isRoot || Matches(a, s))
  }

  // Entry `a` settles bit `b` for `s`; a DENY never settles anything for the superuser.
  predicate Decides(a: Ace, s: Subject, b: Bit) {
    && (a.kind.Allow? || (a.kind.Deny? && !s.isRoot))
    && Applicable(a, s)
    && b in a.perm
  }

  datatype Verdict = Granted | Refused | Undecided

  // First match: the first entry that decides the bit.
  function FirstMatch(aces: seq<Ace>, s: Subject, b: Bit): Verdict {
    if aces == [] then Undecided
    else if Decides(aces[0], s, b) then (if aces[0].kind.Allow? then Granted else Refused)
    else FirstMatch(aces[1..], s, b)
  }

  // Bits of a request that some entry has to grant.
  function Needed(mask: set<Bit>, s: Subject): set<Bit> {
    var asked := mask - {Continue};
    var hard := if !s.isRoot then asked else if s.isDir then {} else asked * {Execute};
    if IsOwner(s) then hard - OWNER_BITS else hard
  }

  // The reference meaning of an access check against an ACL.
  ghost predicate AclGrants(aces: seq<Ace>, s: Subject, mask: set<Bit>) {
    forall b <- Needed(mask, s) :: FirstMatch(aces, s, b) == Granted
  }

  // `front` shadows `back`, bit by bit.
  function Override(front: Verdict, back: Verdict): Verdict {
    if front == Undecided then back else front
  }

  lemma {:induction false} FirstMatchConcat(front: seq<Ace>, back: seq<Ace>, s: Subject, b: Bit)
    ensures FirstMatch(front + back, s, b) == Override(FirstMatch(front, s, b), FirstMatch(back, s, b))
  {
    if front == [] {
      assert front + back == back;
    } else {
      assert (front + back)[1..] == front[1..] + back;
      FirstMatchConcat(front[1..], back, s, b);
    }
  }

  lemma FirstMatchSingle(a: Ace, s: Subject, b: Bit)
    ensures FirstMatch([a], s, b) ==
            if !Decides(a, s, b) then Undecided else if a.kind.Allow? then Granted else Refused
  {
    assert [a][1..] == [];
  }

  // A request for a union is granted exactly when each part is.
  lemma UnionGrant(aces: seq<Ace>, s: Subject, m: set<Bit>, n: set<Bit>)
    ensures AclGrants(aces, s, m + n) <==> AclGrants(aces, s, m) && AclGrants(aces, s, n)
  {
    assert Needed(m + n, s) == Needed(m, s) + Needed(n, s);
  }
}
