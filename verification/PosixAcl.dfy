/** POSIX ACLs and posix_acl_2_fsal_acl, the compiler from POSIX entries to
    NFSv4 ACEs.  A libacl ACL is a valid ACL listed in canonical order. */
module PosixAcl {
  import opened AclTypes
  import opened AccessCheck
  import opened ModeAcl

  datatype Tag = UserObj | User | GroupObj | Group | Mask | Other | Undefined

  datatype Entry = Entry(tag: Tag, id: nat, perm: set<Rwx>)

  datatype Named = Named(id: nat, perm: set<Rwx>)

  datatype MaskOpt = NoMask | HasMask(perm: set<Rwx>)

  datatype Posix = Posix(userObj: set<Rwx>, users: seq<Named>, groupObj: set<Rwx>, groups: seq<Named>,
                         mask: MaskOpt, other: set<Rwx>)

  predicate DistinctIds(xs: seq<Named>) {
    forall i, j | 0 <= i < j < |xs| :: xs[i].id != xs[j].id
  }

  predicate Valid(p: Posix) {
    DistinctIds(p.users) && DistinctIds(p.groups)
  }

  function Tagged(tag: Tag, xs: seq<Named>): seq<Entry> {
    seq(|xs|, i requires 0 <= i < |xs| => Entry(tag, xs[i].id, xs[i].perm))
  }

  function UserPart(p: Posix): seq<Entry> {
    [Entry(UserObj, 0, p.userObj)] + Tagged(User, p.users)
  }

  function GroupPart(p: Posix): seq<Entry> {
    [Entry(GroupObj, 0, p.groupObj)] + Tagged(Group, p.groups)
  }

  function TailPart(p: Posix): seq<Entry> {
    (if p.mask.HasMask? then [Entry(Mask, 0, p.mask.perm)] else []) + [Entry(Other, 0, p.other)]
  }

  // The entries in the order acl_get_entry yields them.
  function Entries(p: Posix): seq<Entry> {
    UserPart(p) + GroupPart(p) + TailPart(p)
  }

  function MaskOf(p: Posix): set<Rwx> {
    if p.mask.HasMask? then p.mask.perm else ALL_RWX
  }

  // --------------------------------------------------------- one entry

  function WhoOf(e: Entry): nat {
    match e.tag
    case UserObj => SPECIAL_OWNER
    case GroupObj => SPECIAL_GROUP
    case Other => SPECIAL_EVERYONE
    case _ => e.id
  }

  function IFlagOf(e: Entry): set<IFlag> {
    if e.tag.UserObj? || e.tag.GroupObj? || e.tag.Other? then {SpecialId} else {}
  }

  function FlagOf(e: Entry, isInherit: bool): set<Flag> {
    (if isInherit then INHERIT_FLAGS else {}) + (if e.tag.Group? then {GroupId} else {})
  }

  const SET_DEFAULT: set<Bit> := {ReadAcl, ReadAttr, Synchronize}

  // Bits written for a set of POSIX permissions, on either kind of ACE.
  function BitsFor(tag: Tag, perm: set<Rwx>, isDir: bool): set<Bit> {
    PermBits(perm)
    + (if W in perm && tag.UserObj? then {WriteAcl, WriteAttr} else {})
    + (if W in perm && isDir then {DeleteChild} else {})
  }

  predicate Unmasked(tag: Tag) {
    tag.UserObj? || tag.Other?
  }

  // The mask cuts read, write and execute, but not DELETE_CHILD.
  function AllowPerm(e: Entry, m: set<Rwx>, isDir: bool): set<Bit> {
    SET_DEFAULT
    + PermBits(if Unmasked(e.tag) then e.perm else e.perm * m)
    + (if W in e.perm && e.tag.UserObj? then {WriteAcl, WriteAttr} else {})
    + (if W in e.perm && isDir then {DeleteChild} else {})
  }

  // `later` is what the entries consulted for a denial hold.
  function EntryAces(e: Entry, later: set<Rwx>, m: set<Rwx>, isDir: bool, isInherit: bool): seq<Ace> {
    var allow := Ace(Allow, AllowPerm(e, m, isDir), FlagOf(e, isInherit), IFlagOf(e), WhoOf(e));
    var deny := Ace(Deny, BitsFor(e.tag, later - e.perm, isDir), FlagOf(e, isInherit), IFlagOf(e), WhoOf(e));
    if e.tag.Mask? then [] else if deny.perm == {} then [allow] else [deny, allow]
  }

  // Permissions of all entries but the mask.
  function Union(es: seq<Entry>): set<Rwx> {
    if es == [] then {}
    else Union(es[..|es| - 1]) + if es[|es| - 1].tag.Mask? then {} else es[|es| - 1].perm
  }

  // Entries consulted for a denial: all later ones for the owner, the group
  // part on for a named user, the other entry for a group.
  function Consulted(p: Posix, tag: Tag): seq<Entry> {
    match tag
    case UserObj => Tagged(User, p.users) + GroupPart(p) + TailPart(p)
    case User => GroupPart(p) + TailPart(p)
    case GroupObj => [Entry(Other, 0, p.other)]
    case Group => [Entry(Other, 0, p.other)]
    case _ => []
  }

  function Later(p: Posix, tag: Tag): set<Rwx> {
    Union(Consulted(p, tag))
  }

  function AcesOf(p: Posix, es: seq<Entry>, isDir: bool, isInherit: bool): seq<Ace> {
    if es == [] then []
    else var e := es[|es| - 1];
         AcesOf(p, es[..|es| - 1], isDir, isInherit) + EntryAces(e, Later(p, e.tag), MaskOf(p), isDir, isInherit)
  }

  function ToAces(p: Posix, isDir: bool, isInherit: bool): seq<Ace> {
    AcesOf(p, Entries(p), isDir, isInherit)
  }

  // ---------------------------------------------------------- the compiler

  // find_entry: the first entry with the tag, and with the id for named tags.
  predicate Hits(e: Entry, tag: Tag, id: nat) {
    e.tag == tag && (tag.User? || tag.Group? ==> e.id == id)
  }

  method FindEntry(es: seq<Entry>, tag: Tag, id: nat) returns (k: int)
    ensures -1 <= k < |es|
    ensures k >= 0 ==> Hits(es[k], tag, id) && forall j | 0 <= j < k :: !Hits(es[j], tag, id)
    ensures k < 0 ==> forall e <- es :: !Hits(e, tag, id)
  {
    for j := 0 to |es|
      invariant forall i | 0 <= i < j :: !Hits(es[i], tag, id)
    {
      if Hits(es[j], tag, id) {
        return j;
      }
    }
    return -1;
  }

  // The three tests on one consulted entry that holds the lacking permissions `hit`.
  method AddDenied(deny: set<Bit>, tag: Tag, hit: set<Rwx>, isDir: bool) returns (more: set<Bit>)
    ensures more == deny + BitsFor(tag, hit, isDir)
  {
    more := deny;
    if R in hit {
      more := more + {ReadData};
    }
    if W in hit {
      more := more + {WriteData, AppendData};
      if tag.UserObj? {
        more := more + {WriteAcl, WriteAttr};
      }
      if isDir {
        more := more + {DeleteChild};
      }
    }
    if X in hit {
      more := more + {Execute};
    }
  }

  lemma BitsForUnion(tag: Tag, p: set<Rwx>, q: set<Rwx>, isDir: bool)
    ensures BitsFor(tag, p + q, isDir) == BitsFor(tag, p, isDir) + BitsFor(tag, q, isDir)
  {
  }

  lemma UnionNext(es: seq<Entry>, from: nat, d: nat)
    requires from <= d < |es|
    ensures Union(es[from..d + 1]) == Union(es[from..d]) + if es[d].tag.Mask? then {} else es[d].perm
  {
    assert es[from..d + 1][..d - from] == es[from..d];
  }

  // The inner loop: what entries `from` on deny to an entry that lacks `lacks`.
  method DenyFromLater(es: seq<Entry>, from: nat, tag: Tag, lacks: set<Rwx>, isDir: bool) returns (deny: set<Bit>)
    requires from <= |es|
    ensures deny == BitsFor(tag, lacks * Union(es[from..]), isDir)
  {
    deny := {};
    for d := from to |es|
      invariant deny == BitsFor(tag, lacks * Union(es[from..d]), isDir)
    {
      ghost var u := Union(es[from..d]);
      UnionNext(es, from, d);
      if !es[d].tag.Mask? {
        deny := AddDenied(deny, tag, lacks * es[d].perm, isDir);
        BitsForUnion(tag, lacks * u, lacks * es[d].perm, isDir);
        assert lacks * (u + es[d].perm) == lacks * u + lacks * es[d].perm;
      } else {
        assert u + {} == u;
      }
    }
    assert es[from..|es|] == es[from..];
  }

  // Where the inner loop starts, and that it sees the consulted entries.
  lemma ConsultedSuffix(p: Posix, k: nat)
    requires k < |Entries(p)|
    ensures |UserPart(p)| < |Entries(p)| && Entries(p)[|UserPart(p)|].tag.GroupObj?
    ensures Entries(p)[k].tag.GroupObj? <==> k == |UserPart(p)|
    ensures Entries(p)[0].tag.UserObj? && Entries(p)[1..] == Consulted(p, UserObj)
    ensures Entries(p)[|UserPart(p)|..] == Consulted(p, User)
  {
    assert UserPart(p)[1..] == Tagged(User, p.users);
  }

  lemma UnionOfOne(e: Entry)
    ensures Union([e]) == if e.tag.Mask? then {} else e.perm
  {
    assert [e][..0] == [];
  }

  // Room taken: two slots for every entry but the mask.
  function AceCount(es: seq<Entry>): nat {
    if es == [] then 0 else AceCount(es[..|es| - 1]) + if es[|es| - 1].tag.Mask? then 0 else 1
  }

  // The DENY permissions of one entry, by the tag's own rule.
  method DenyPerm(p: Posix, e: Entry, isDir: bool) returns (deny: set<Bit>)
    requires !e.tag.Mask?
    ensures deny == BitsFor(e.tag, Later(p, e.tag) - e.perm, isDir)
  {
    var es := Entries(p);
    var lacks := ALL_RWX - e.perm;
    ConsultedSuffix(p, 0);
    if e.tag.UserObj? {
      var k := FindEntry(es, UserObj, 0);
      assert Hits(es[0], UserObj, 0);
      deny := DenyFromLater(es, k + 1, e.tag, lacks, isDir);
    } else if e.tag.User? {
      var k := FindEntry(es, GroupObj, 0);
      assert Hits(es[|UserPart(p)|], GroupObj, 0);
      ConsultedSuffix(p, k);
      deny := DenyFromLater(es, k, e.tag, lacks, isDir);
    } else if e.tag.GroupObj? || e.tag.Group? {
      UnionOfOne(Entry(Other, 0, p.other));
      deny := AddDenied({}, e.tag, lacks * p.other, isDir);
    } else {
      deny := {};
    }
    forall r: Rwx ensures r in ALL_RWX {
      match r case R => case W => case X =>
    }
    assert lacks * Later(p, e.tag) == Later(p, e.tag) - e.perm;
  }

  method AllowPermOf(e: Entry, m: set<Rwx>, isDir: bool) returns (allow: set<Bit>)
    requires !e.tag.Mask?
    ensures allow == AllowPerm(e, m, isDir)
  {
    allow := SET_DEFAULT;
    if R in e.perm {
      if e.tag.UserObj? || e.tag.Other? || R in m {
        allow := allow + {ReadData};
      }
    }
    if W in e.perm {
      if e.tag.UserObj? || e.tag.Other? || W in m {
        allow := allow + {WriteData, AppendData};
      }
      if e.tag.UserObj? {
        allow := allow + {WriteAcl, WriteAttr};
      }
      if isDir {
        allow := allow + {DeleteChild};
      }
    }
    if X in e.perm {
      if e.tag.UserObj? || e.tag.Other? || X in m {
        allow := allow + {Execute};
      }
    }
  }

  // Type, flags and who of the two slots, starting from what the slots hold.
  method Header(e: Entry, isInherit: bool, deny0: Ace, allow0: Ace) returns (deny: Ace, allow: Ace)
    requires !e.tag.Mask? && deny0 == allow0 == ZERO_ACE
    ensures deny == Ace(Deny, {}, FlagOf(e, isInherit), IFlagOf(e), WhoOf(e))
    ensures allow == Ace(Allow, {}, FlagOf(e, isInherit), IFlagOf(e), WhoOf(e))
  {
    deny, allow := deny0.(kind := Deny), allow0.(kind := Allow);
    var flag: set<Flag> := if isInherit then INHERIT_FLAGS else {};
    deny, allow := deny.(flag := flag), allow.(flag := flag);
    if e.tag.UserObj? || e.tag.GroupObj? || e.tag.Other? {
      var who := if e.tag.UserObj? then SPECIAL_OWNER else if e.tag.GroupObj? then SPECIAL_GROUP else SPECIAL_EVERYONE;
      deny, allow := deny.(who := who, iflag := {SpecialId}), allow.(who := who, iflag := {SpecialId});
    } else {
      deny, allow := deny.(who := e.id), allow.(who := e.id);
      if e.tag.Group? {
        deny := deny.(flag := deny.flag + {GroupId});
        allow := allow.(flag := deny.flag);
      }
    }
    assert flag + {} == flag;
    assert deny.flag == FlagOf(e, isInherit);
  }

  // Keep both slots, or drop an empty DENY and clear the slot it frees.
  method StorePair(buf: array<Ace>, at: nat, deny: Ace, allow: Ace) returns (n: nat)
    requires at + 2 <= buf.Length && forall k | at <= k < buf.Length :: buf[k] == ZERO_ACE
    modifies buf
    ensures n == if deny.perm == {} then 1 else 2
    ensures buf[..at + n] == old(buf[..at]) + if deny.perm == {} then [allow] else [deny, allow]
    ensures forall k | at + n <= k < buf.Length :: buf[k] == ZERO_ACE
  {
    if deny.perm == {} {
      buf[at], buf[at + 1] := allow, ZERO_ACE;
      n := 1;
    } else {
      buf[at], buf[at + 1] := deny, allow;
      n := 2;
    }
    assert buf[..at] == old(buf[..at]);
  }

  lemma {:induction false} AceCountGrows(es: seq<Entry>, n: nat)
    requires n <= |es|
    ensures AceCount(es[..n]) <= AceCount(es)
    decreases |es| - n
  {
    if n == |es| {
      assert es[..n] == es;
    } else {
      AceCountGrows(es, n + 1);
      assert es[..n + 1][..n] == es[..n];
    }
  }

  // There is room for entry `i` after what the entries before it took.
  lemma RoomForNext(es: seq<Entry>, i: nat, total: nat, room: nat)
    requires i < |es| && total <= 2 * AceCount(es[..i]) && 2 * AceCount(es) <= room
    ensures total + (if es[i].tag.Mask? then 0 else 2) <= 2 * AceCount(es[..i + 1]) <= room
  {
    assert es[..i + 1][..i] == es[..i];
    AceCountGrows(es, i + 1);
  }

  method ConvertEntry(p: Posix, e: Entry, isDir: bool, isInherit: bool, m: set<Rwx>, buf: array<Ace>, at: nat)
    returns (n: nat)
    requires !e.tag.Mask? && m == MaskOf(p)
    requires at + 2 <= buf.Length && forall k | at <= k < buf.Length :: buf[k] == ZERO_ACE
    modifies buf
    ensures n == |EntryAces(e, Later(p, e.tag), MaskOf(p), isDir, isInherit)| && n <= 2
    ensures buf[..at + n] == old(buf[..at]) + EntryAces(e, Later(p, e.tag), MaskOf(p), isDir, isInherit)
    ensures forall k | at + n <= k < buf.Length :: buf[k] == ZERO_ACE
  {
    var deny, allow := Header(e, isInherit, buf[at], buf[at + 1]);
    var allowPerm := AllowPermOf(e, m, isDir);
    var denyPerm := DenyPerm(p, e, isDir);
    n := StorePair(buf, at, deny.(perm := denyPerm), allow.(perm := allowPerm));
  }

  // One turn of the loop over the entries; the mask is skipped.
  method ConvertNext(p: Posix, es: seq<Entry>, i: nat, isDir: bool, isInherit: bool, m: set<Rwx>, buf: array<Ace>,
                     deny: nat, ghost pre: seq<Ace>) returns (n: nat)
    requires m == MaskOf(p) && i < |es|
    requires deny <= buf.Length && (!es[i].tag.Mask? ==> deny + 2 <= buf.Length)
    requires buf[..deny] == pre + AcesOf(p, es[..i], isDir, isInherit)
    requires forall k | deny <= k < buf.Length :: buf[k] == ZERO_ACE
    modifies buf
    ensures n <= (if es[i].tag.Mask? then 0 else 2) && deny + n <= buf.Length
    ensures |AcesOf(p, es[..i + 1], isDir, isInherit)| == |AcesOf(p, es[..i], isDir, isInherit)| + n
    ensures buf[..deny + n] == pre + AcesOf(p, es[..i + 1], isDir, isInherit)
    ensures forall k | deny + n <= k < buf.Length :: buf[k] == ZERO_ACE
  {
    assert es[..i + 1][..i] == es[..i];
    if es[i].tag.Mask? {
      assert AcesOf(p, es[..i + 1], isDir, isInherit) == AcesOf(p, es[..i], isDir, isInherit);
      return 0;
    }
    n := ConvertEntry(p, es[i], isDir, isInherit, m, buf, deny);
    Associate(pre, AcesOf(p, es[..i], isDir, isInherit),
              EntryAces(es[i], Later(p, es[i].tag), MaskOf(p), isDir, isInherit));
  }

  method ConvertAll(p: Posix, es: seq<Entry>, isDir: bool, isInherit: bool, m: set<Rwx>, buf: array<Ace>, start: nat)
    returns (total: nat)
    requires m == MaskOf(p)
    requires start + 2 * AceCount(es) <= buf.Length
    requires forall k | start <= k < buf.Length :: buf[k] == ZERO_ACE
    modifies buf
    ensures total == |AcesOf(p, es, isDir, isInherit)| && start + total <= buf.Length
    ensures buf[..start + total] == old(buf[..start]) + AcesOf(p, es, isDir, isInherit)
    ensures forall k | start + total <= k < buf.Length :: buf[k] == ZERO_ACE
  {
    var deny := start;
    total := 0;
    ghost var pre := buf[..start];
    for i := 0 to |es|
      invariant deny == start + total && total == |AcesOf(p, es[..i], isDir, isInherit)| <= 2 * AceCount(es[..i])
      invariant deny <= buf.Length
      invariant buf[..deny] == pre + AcesOf(p, es[..i], isDir, isInherit)
      invariant forall k | deny <= k < buf.Length :: buf[k] == ZERO_ACE
    {
      RoomForNext(es, i, total, buf.Length - start);
      var n := ConvertNext(p, es, i, isDir, isInherit, m, buf, deny, pre);
      total := total + n;
      deny := deny + n;
    }
    assert es[..|es|] == es;
  }

  lemma Associate(a: seq<Ace>, b: seq<Ace>, c: seq<Ace>)
    ensures (a + b) + c == a + (b + c)
  {
  }

  method PosixToFsal(p: Posix, isDir: bool, isInherit: bool, buf: array<Ace>, start: nat)
    returns (total: nat, next: nat)
    requires start + 2 * AceCount(Entries(p)) <= buf.Length
    requires forall k | start <= k < buf.Length :: buf[k] == ZERO_ACE
    modifies buf
    ensures next == start + total && total == |ToAces(p, isDir, isInherit)| && next <= buf.Length
    ensures buf[..next] == old(buf[..start]) + ToAces(p, isDir, isInherit)
    // The rest of the buffer is left ready for a second conversion.
    ensures forall k | next <= k < buf.Length :: buf[k] == ZERO_ACE
  {
    var es := Entries(p);
    var m := ALL_RWX;
    var k := FindEntry(es, Mask, 0);
    if k >= 0 {
      m := es[k].perm;
    }
    MaskFound(p, k);
    total := ConvertAll(p, es, isDir, isInherit, m, buf, start);
    next := start + total;
  }

  lemma MaskFound(p: Posix, k: int)
    requires -1 <= k < |Entries(p)|
    requires k >= 0 ==> Hits(Entries(p)[k], Mask, 0)
    requires k < 0 ==> forall e <- Entries(p) :: !Hits(e, Mask, 0)
    ensures (if k >= 0 then Entries(p)[k].perm else ALL_RWX) == MaskOf(p)
  {
    if p.mask.HasMask? {
      assert TailPart(p)[0] == Entries(p)[|UserPart(p)| + |GroupPart(p)|];
      assert Hits(Entries(p)[|UserPart(p)| + |GroupPart(p)|], Mask, 0);
    }
  }
}
