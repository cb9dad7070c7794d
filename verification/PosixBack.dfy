/** fsal_acl_2_posix_acl: reading a POSIX ACL back out of a list of ACEs. */
module PosixBack {
  import opened AclTypes
  import opened AccessCheck
  import opened PosixAcl

  datatype AclType = AccessAcl | DefaultAcl

  datatype Key = Key(tag: Tag, id: nat)

  type PermMap = map<Key, set<Rwx>>

  predicate Inherits(a: Ace) {
    FileInherit in a.flag || DirInherit in a.flag
  }

  predicate OnlyInherited(a: Ace) {
    Inherits(a) && InheritOnly in a.flag
  }

  predicate ForBoth(a: Ace) {
    Inherits(a) && !OnlyInherited(a)
  }

  predicate ValidForEffective(a: Ace) {
    Inherits(a) || NoPropagate in a.flag || InheritOnly in a.flag ==> ForBoth(a)
  }

  predicate ValidForInherited(a: Ace) {
    ForBoth(a) || OnlyInherited(a)
  }

  predicate Concerns(a: Ace, ty: AclType) {
    if ty.AccessAcl? then ValidForEffective(a) else ValidForInherited(a)
  }

  // IS_FSAL_ACE_SPECIAL_EVERYONE looks at the number alone.
  predicate LooksEveryone(a: Ace) {
    a.who == SPECIAL_EVERYONE
  }

  function AcePerms(a: Ace): set<Rwx> {
    (if ReadData in a.perm then {R} else {}) + (if WriteData in a.perm then {W} else {})
    + (if Execute in a.perm then {X} else {})
  }

  // ---------------------------------------------------------- first pass

  datatype Everyone = Everyone(allow: set<Rwx>, deny: set<Rwx>)

  function SeeEveryone(ev: Everyone, a: Ace, ty: AclType): Everyone {
    if !LooksEveryone(a) || !Concerns(a, ty) then ev
    else if a.kind.Deny? then ev.(deny := ev.deny + AcePerms(a))
    else if a.kind.Allow? then ev.(allow := ev.allow + (AcePerms(a) - ev.deny))
    else ev
  }

  function EveryoneAfter(aces: seq<Ace>, ty: AclType): Everyone {
    if aces == [] then Everyone({}, {})
    else SeeEveryone(EveryoneAfter(aces[..|aces| - 1], ty), aces[|aces| - 1], ty)
  }

  // --------------------------------------------------------- second pass

  datatype Conv = Conv(tag: Tag, allow: PermMap, deny: PermMap, everyoneDeny: set<Rwx>, named: bool)

  function Get(m: PermMap, k: Key): set<Rwx> {
    if k in m then m[k] else {}
  }

  function Start(ev: Everyone): Conv {
    Conv(Undefined, map[Key(Other, 0) := ev.allow, Key(UserObj, 0) := {}, Key(GroupObj, 0) := {}], map[], {}, false)
  }

  // A special id that is neither owner nor group leaves the tag of the previous turn.
  function TagFor(a: Ace, before: Tag): Tag {
    if SpecialId in a.iflag then
      (if a.who == SPECIAL_OWNER then UserObj else if a.who == SPECIAL_GROUP then GroupObj else before)
    else if GroupId in a.flag then Group else User
  }

  function Visit(c: Conv, a: Ace, ev: Everyone, ty: AclType): Conv {
    var tag := TagFor(a, c.tag);
    var key := Key(tag, if SpecialId in a.iflag then 0 else a.who);
    var named := c.named || SpecialId !in a.iflag;
    if !Concerns(a, ty) then c
    else if LooksEveryone(a) then
      c.(tag := tag, named := named, everyoneDeny := if a.kind.Deny? then c.everyoneDeny + ev.deny else c.everyoneDeny)
    else
      var d := if a.kind.Deny? then Get(c.deny, key) + AcePerms(a) else Get(c.deny, key);
      var gain := (ev.allow + AcePerms(a)) - d - c.everyoneDeny;
      Conv(tag, c.allow[key := Get(c.allow, key) + gain], c.deny[key := d], c.everyoneDeny, named)
  }

  function ConvAfter(aces: seq<Ace>, ty: AclType, ev: Everyone): Conv {
    if aces == [] then Start(ev)
    else Visit(ConvAfter(aces[..|aces| - 1], ty, ev), aces[|aces| - 1], ev, ty)
  }

  predicate InGroupClass(tag: Tag) {
    tag.User? || tag.GroupObj? || tag.Group?
  }

  predicate HeldByGroupClass(m: PermMap, r: Rwx) {
    exists k <- m.Keys :: InGroupClass(k.tag) && r in m[k]
  }

  // acl_calc_mask: the union of the group class.
  function CalcMask(m: PermMap): set<Rwx> {
    set r: Rwx | HeldByGroupClass(m, r)
  }

  function FromAces(aces: seq<Ace>, ty: AclType): PermMap {
    var c := ConvAfter(aces, ty, EveryoneAfter(aces, ty));
    if c.named then c.allow[Key(Mask, 0) := CalcMask(c.allow)] else c.allow
  }

  datatype PosixOpt = Null | PosixMap(entries: PermMap)

  method CountInherited(aces: seq<Ace>) returns (n: nat)
    ensures n == 0 <==> forall a <- aces :: !ValidForInherited(a)
  {
    n := 0;
    for i := 0 to |aces|
      invariant n == 0 <==> forall a <- aces[..i] :: !ValidForInherited(a)
    {
      if ValidForInherited(aces[i]) {
        n := n + 1;
        assert aces[i] in aces[..i + 1];
      }
      assert aces[..i + 1] == aces[..i] + [aces[i]];
    }
    assert aces[..|aces|] == aces;
  }

  method FirstPass(aces: seq<Ace>, ty: AclType) returns (allow: set<Rwx>, deny: set<Rwx>)
    ensures Everyone(allow, deny) == EveryoneAfter(aces, ty)
  {
    allow, deny := {}, {};
    for i := 0 to |aces|
      invariant Everyone(allow, deny) == EveryoneAfter(aces[..i], ty)
    {
      assert aces[..i + 1][..i] == aces[..i];
      var a := aces[i];
      if !LooksEveryone(a) || !Concerns(a, ty) {
        continue;
      }
      if a.kind.Deny? {
        deny := deny + AcePerms(a);
      } else if a.kind.Allow? {
        allow := allow + (AcePerms(a) - deny);
      }
    }
    assert aces[..|aces|] == aces;
  }

  method FsalToPosix(aces: seq<Ace>, ty: AclType) returns (r: PosixOpt)
    ensures r == if ty.DefaultAcl? && forall a <- aces :: !ValidForInherited(a) then Null
                 else PosixMap(FromAces(aces, ty))
  {
    if ty.DefaultAcl? {
      var n := CountInherited(aces);
      if n == 0 {
        return Null;
      }
    }
    var evAllow, evDeny := FirstPass(aces, ty);
    ghost var ev := Everyone(evAllow, evDeny);
    var allow: PermMap := map[Key(Other, 0) := evAllow, Key(UserObj, 0) := {}, Key(GroupObj, 0) := {}];
    var deny: PermMap := map[];
    var everyoneDeny: set<Rwx> := {};
    var tag, named := Undefined, false;
    for i := 0 to |aces|
      invariant Conv(tag, allow, deny, everyoneDeny, named) == ConvAfter(aces[..i], ty, ev)
    {
      assert aces[..i + 1][..i] == aces[..i];
      var a := aces[i];
      if !Concerns(a, ty) {
        continue;
      }
      var id := 0;
      if SpecialId in a.iflag {
        if a.who == SPECIAL_OWNER {
          tag := UserObj;
        }
        if a.who == SPECIAL_GROUP {
          tag := GroupObj;
        }
      } else {
        id := a.who;
        tag := if GroupId in a.flag then Group else User;
        named := true;
      }
      if LooksEveryone(a) {
        if a.kind.Deny? {
          everyoneDeny := everyoneDeny + evDeny;
        }
        continue;
      }
      var key := Key(tag, id);
      var d := if key in deny then deny[key] else {};
      if a.kind.Deny? {
        d := d + AcePerms(a);
      }
      deny := deny[key := d];
      var have := if key in allow then allow[key] else {};
      allow := allow[key := have + ((evAllow + AcePerms(a)) - d - everyoneDeny)];
    }
    assert aces[..|aces|] == aces;
    if named {
      allow := allow[Key(Mask, 0) := CalcMask(allow)];
    }
    return PosixMap(allow);
  }
}
