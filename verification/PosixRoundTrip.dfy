/** POSIX ACL to ACEs and back: the exact result, and exactly when it is the
    ACL one started with. */
module PosixRoundTrip {
  import opened AclTypes
  import opened AccessCheck
  import opened ModeAcl
  import opened PosixAcl
  import opened PosixBack

  function KeyOf(e: Entry): Key {
    Key(e.tag, e.id)
  }

  predicate DistinctKeys(es: seq<Entry>) {
    forall i, j | 0 <= i < j < |es| :: KeyOf(es[i]) != KeyOf(es[j])
  }

  // What comes back for one entry: a group-class permission survives when the
  // mask or the other entry has it.
  function Survives(p: Posix, e: Entry): set<Rwx> {
    if InGroupClass(e.tag) then e.perm * (MaskOf(p) + p.other) else e.perm
  }

  predicate Plain(e: Entry) {
    e.tag.UserObj? || InGroupClass(e.tag)
  }

  // ------------------------------------------------------- a single entry

  lemma PermsOfAllow(e: Entry, m: set<Rwx>, isDir: bool, a: Ace)
    requires a.perm == AllowPerm(e, m, isDir)
    ensures AcePerms(a) == if Unmasked(e.tag) then e.perm else e.perm * m
  {
    var q := if Unmasked(e.tag) then e.perm else e.perm * m;
    forall r: Rwx ensures r in AcePerms(a) <==> r in q {
      match r case R => case W => case X =>
    }
  }

  lemma PermsOfDeny(tag: Tag, q: set<Rwx>, isDir: bool, a: Ace)
    requires a.perm == BitsFor(tag, q, isDir)
    ensures AcePerms(a) == q
    ensures a.perm == {} <==> q == {}
  {
    forall r: Rwx ensures r in AcePerms(a) <==> r in q {
      match r case R => case W => case X =>
    }
    if q != {} {
      var r :| r in q;
      assert r in AcePerms(a);
    }
  }

  function TypeFor(isInherit: bool): AclType {
    if isInherit then DefaultAcl else AccessAcl
  }

  lemma RightType(e: Entry, isInherit: bool, a: Ace)
    requires a.flag == FlagOf(e, isInherit)
    ensures Concerns(a, TypeFor(isInherit)) && !Concerns(a, TypeFor(!isInherit))
  {
  }

  // What the additions for one entry come to; `masked` entries lose what is
  // not in the mask `m`.
  lemma Additions(perm: set<Rwx>, m: set<Rwx>, other: set<Rwx>, later: set<Rwx>, masked: bool)
    requires other <= later
    ensures var a, d := if masked then perm * m else perm, later - perm;
            var want := if masked then perm * (m + other) else perm;
            && (other - d) + ((other + a) - d) == want
            && (d == {} ==> other + a == want)
  {
  }

  // A visit to an ACE of the right type that is not for EVERYONE@; `q` is what
  // the ACE names, `d` what is denied to the entry from here on, `have` what
  // the entry is allowed so far.
  lemma PlainVisit(c: Conv, a: Ace, k: Key, other: set<Rwx>, ty: AclType, q: set<Rwx>, d: set<Rwx>, have: set<Rwx>)
    requires Concerns(a, ty) && !LooksEveryone(a) && c.everyoneDeny == {}
    requires k == Key(TagFor(a, c.tag), if SpecialId in a.iflag then 0 else a.who)
    requires q == AcePerms(a) && have == Get(c.allow, k)
    requires d == if a.kind.Deny? then Get(c.deny, k) + q else Get(c.deny, k)
    ensures Visit(c, a, Everyone(other, {}), ty) ==
            Conv(k.tag, c.allow[k := have + ((other + q) - d)], c.deny[k := d], {}, c.named || SpecialId !in a.iflag)
  {
    assert (other + q) - d - {} == (other + q) - d;
  }

  ghost function VisitAll(c: Conv, made: seq<Ace>, ev: Everyone, ty: AclType): Conv {
    if made == [] then c else Visit(VisitAll(c, made[..|made| - 1], ev, ty), made[|made| - 1], ev, ty)
  }

  lemma {:induction false} AppendVisits(aces: seq<Ace>, made: seq<Ace>, ty: AclType, ev: Everyone)
    ensures ConvAfter(aces + made, ty, ev) == VisitAll(ConvAfter(aces, ty, ev), made, ev, ty)
  {
    if made == [] {
      assert aces + made == aces;
    } else {
      var all := aces + made;
      assert all[..|all| - 1] == aces + made[..|made| - 1];
      AppendVisits(aces, made[..|made| - 1], ty, ev);
    }
  }

  predicate Untouched(c: Conv, k: Key) {
    k !in c.deny && Get(c.allow, k) == {} && c.everyoneDeny == {}
  }

  // Both ACEs of one entry lead to its key, whatever the tag was before.
  predicate LeadsTo(a: Ace, k: Key, ty: AclType) {
    && Concerns(a, ty) && !LooksEveryone(a)
    && k.id == (if SpecialId in a.iflag then 0 else a.who)
    && k.tag == TagFor(a, Undefined) && !k.tag.Undefined?
  }

  lemma VisitAllow(c: Conv, allow: Ace, k: Key, other: set<Rwx>, ty: AclType, q: set<Rwx>, want: set<Rwx>)
    requires LeadsTo(allow, k, ty) && allow.kind.Allow? && Untouched(c, k)
    requires q == AcePerms(allow) && other + q == want
    ensures Visit(c, allow, Everyone(other, {}), ty) ==
            Conv(k.tag, c.allow[k := want], c.deny[k := {}], {}, c.named || SpecialId !in allow.iflag)
  {
    PlainVisit(c, allow, k, other, ty, q, {}, {});
    assert {} + ((other + q) - {}) == want;
  }

  // The ALLOW of an entry whose DENY was visited just before.
  lemma VisitSecond(c: Conv, c1: Conv, allow: Ace, k: Key, other: set<Rwx>, ty: AclType,
                    d: set<Rwx>, q: set<Rwx>, want: set<Rwx>, named: bool)
    requires LeadsTo(allow, k, ty) && allow.kind.Allow?
    requires c1 == Conv(k.tag, c.allow[k := other - d], c.deny[k := d], {}, named)
    requires q == AcePerms(allow) && (other - d) + ((other + q) - d) == want
    ensures Visit(c1, allow, Everyone(other, {}), ty) ==
            Conv(k.tag, c.allow[k := want], c.deny[k := d], {}, named || SpecialId !in allow.iflag)
  {
    PlainVisit(c1, allow, k, other, ty, q, d, other - d);
    assert c1.allow[k := want] == c.allow[k := want] && c1.deny[k := d] == c.deny[k := d];
  }

  lemma VisitDenyAllow(c: Conv, deny: Ace, allow: Ace, k: Key, other: set<Rwx>, ty: AclType,
                       d: set<Rwx>, q: set<Rwx>, want: set<Rwx>)
    requires LeadsTo(allow, k, ty) && LeadsTo(deny, k, ty) && allow.kind.Allow? && deny.kind.Deny? && Untouched(c, k)
    requires allow.iflag == deny.iflag
    requires d == AcePerms(deny) && q == AcePerms(allow) && (other - d) + ((other + q) - d) == want
    ensures Visit(Visit(c, deny, Everyone(other, {}), ty), allow, Everyone(other, {}), ty) ==
            Conv(k.tag, c.allow[k := want], c.deny[k := d], {}, c.named || SpecialId !in allow.iflag)
  {
    assert {} + d == d;
    PlainVisit(c, deny, k, other, ty, d, d, {});
    assert {} + ((other + d) - d) == other - d;
    VisitSecond(c, Visit(c, deny, Everyone(other, {}), ty), allow, k, other, ty, d, q, want,
                c.named || SpecialId !in deny.iflag);
  }

  lemma VisitMade(c: Conv, made: seq<Ace>, deny: Ace, allow: Ace, ev: Everyone, ty: AclType)
    requires made == if deny.perm == {} then [allow] else [deny, allow]
    ensures VisitAll(c, made, ev, ty) ==
            if deny.perm == {} then Visit(c, allow, ev, ty) else Visit(Visit(c, deny, ev, ty), allow, ev, ty)
  {
    if deny.perm == {} {
      assert made[..0] == [];
    } else {
      assert made[..1] == [deny] && [deny][..0] == [];
      assert VisitAll(c, [deny], ev, ty) == Visit(c, deny, ev, ty);
    }
  }

  lemma Leads(e: Entry, isInherit: bool, a: Ace)
    requires Plain(e) && WhoOf(e) != SPECIAL_EVERYONE && (e.tag.UserObj? || e.tag.GroupObj? ==> e.id == 0)
    requires a.flag == FlagOf(e, isInherit) && a.iflag == IFlagOf(e) && a.who == WhoOf(e)
    ensures LeadsTo(a, KeyOf(e), TypeFor(isInherit)) && (SpecialId !in a.iflag <==> e.tag.User? || e.tag.Group?)
  {
    RightType(e, isInherit, a);
  }

  // The one or two ACEs `made` for an entry nobody has written to yet.
  lemma VisitPair(c: Conv, made: seq<Ace>, deny: Ace, allow: Ace, k: Key, other: set<Rwx>, ty: AclType, want: set<Rwx>)
    requires made == if deny.perm == {} then [allow] else [deny, allow]
    requires LeadsTo(allow, k, ty) && LeadsTo(deny, k, ty) && allow.kind.Allow? && deny.kind.Deny? && Untouched(c, k)
    requires allow.iflag == deny.iflag
    requires (other - AcePerms(deny)) + ((other + AcePerms(allow)) - AcePerms(deny)) == want
    requires deny.perm == {} ==> other + AcePerms(allow) == want
    ensures var c' := VisitAll(c, made, Everyone(other, {}), ty);
            && c'.allow == c.allow[k := want] && c'.deny.Keys == c.deny.Keys + {k}
            && c'.everyoneDeny == {} && c'.named == (c.named || SpecialId !in allow.iflag)
  {
    VisitMade(c, made, deny, allow, Everyone(other, {}), ty);
    if deny.perm == {} {
      VisitAllow(c, allow, k, other, ty, AcePerms(allow), want);
    } else {
      VisitDenyAllow(c, deny, allow, k, other, ty, AcePerms(deny), AcePerms(allow), want);
    }
  }

  lemma VisitEntry(c: Conv, e: Entry, later: set<Rwx>, m: set<Rwx>, other: set<Rwx>, isDir: bool, isInherit: bool)
    requires Plain(e) && WhoOf(e) != SPECIAL_EVERYONE && (e.tag.UserObj? || e.tag.GroupObj? ==> e.id == 0)
    requires Untouched(c, KeyOf(e)) && other <= later
    ensures var c' := VisitAll(c, EntryAces(e, later, m, isDir, isInherit), Everyone(other, {}), TypeFor(isInherit));
            && c'.allow == c.allow[KeyOf(e) := if InGroupClass(e.tag) then e.perm * (m + other) else e.perm]
            && c'.deny.Keys == c.deny.Keys + {KeyOf(e)} && c'.everyoneDeny == {}
            && c'.named == (c.named || e.tag.User? || e.tag.Group?)
  {
    var allow := Ace(Allow, AllowPerm(e, m, isDir), FlagOf(e, isInherit), IFlagOf(e), WhoOf(e));
    var deny := Ace(Deny, BitsFor(e.tag, later - e.perm, isDir), FlagOf(e, isInherit), IFlagOf(e), WhoOf(e));
    PermsOfAllow(e, m, isDir, allow);
    PermsOfDeny(e.tag, later - e.perm, isDir, deny);
    Leads(e, isInherit, allow);
    Leads(e, isInherit, deny);
    Additions(e.perm, m, other, later, InGroupClass(e.tag));
    VisitPair(c, EntryAces(e, later, m, isDir, isInherit), deny, allow, KeyOf(e), other, TypeFor(isInherit),
              if InGroupClass(e.tag) then e.perm * (m + other) else e.perm);
  }

  // ------------------------------------------------------ all the entries

  // The allow map once the plain entries of `es` have been visited.
  function Target(p: Posix, es: seq<Entry>): PermMap {
    if es == [] then Start(Everyone(p.other, {})).allow
    else var e := es[|es| - 1];
         if Plain(e) then Target(p, es[..|es| - 1])[KeyOf(e) := Survives(p, e)] else Target(p, es[..|es| - 1])
  }

  predicate WellFormed(es: seq<Entry>) {
    && DistinctKeys(es)
    && forall e <- es :: && !e.tag.Undefined?
                         && (!(e.tag.User? || e.tag.Group?) ==> e.id == 0)
                         && (e.tag.User? || e.tag.Group? ==> e.id != SPECIAL_EVERYONE)
  }

  lemma {:induction false} TargetKeys(p: Posix, es: seq<Entry>, k: Key)
    ensures k in Target(p, es) <==> k in Target(p, []) || exists e <- es :: Plain(e) && KeyOf(e) == k
    ensures (forall e <- es :: Plain(e) ==> KeyOf(e) != k) && k in Target(p, []) ==>
              Target(p, es)[k] == Target(p, [])[k]
  {
    if es != [] {
      var front, last := es[..|es| - 1], es[|es| - 1];
      assert es == front + [last];
      TargetKeys(p, front, k);
      assert last in es;
    }
  }

  lemma {:induction false} TargetValue(p: Posix, es: seq<Entry>, i: nat)
    requires DistinctKeys(es) && i < |es| && Plain(es[i])
    ensures KeyOf(es[i]) in Target(p, es) && Target(p, es)[KeyOf(es[i])] == Survives(p, es[i])
  {
    var n := |es| - 1;
    if i < n {
      assert KeyOf(es[i]) != KeyOf(es[n]) && es[..n][i] == es[i];
      TargetValue(p, es[..n], i);
    }
  }

  lemma TargetAt(p: Posix, es: seq<Entry>, k: Key)
    requires WellFormed(es)
    ensures k in Target(p, es) <==> k in Target(p, []) || exists e <- es :: Plain(e) && KeyOf(e) == k
    ensures forall e <- es :: Plain(e) && KeyOf(e) == k ==> Target(p, es)[k] == Survives(p, e)
    ensures (forall e <- es :: Plain(e) ==> KeyOf(e) != k) && k in Target(p, []) ==>
              Target(p, es)[k] == Target(p, [])[k]
  {
    TargetKeys(p, es, k);
    forall e <- es | Plain(e) && KeyOf(e) == k ensures Target(p, es)[k] == Survives(p, e) {
      var i :| 0 <= i < |es| && es[i] == e;
      TargetValue(p, es, i);
    }
  }

  lemma LastCounts(es: seq<Entry>, e: Entry)
    requires es != [] && es[|es| - 1] == e && !e.tag.Mask?
    ensures e.perm <= Union(es)
  {
  }

  lemma OtherConsultedLast(p: Posix, tag: Tag)
    requires tag.UserObj? || InGroupClass(tag)
    ensures Consulted(p, tag) != [] && Consulted(p, tag)[|Consulted(p, tag)| - 1] == Entry(Other, 0, p.other)
  {
    assert TailPart(p)[|TailPart(p)| - 1] == Entry(Other, 0, p.other);
  }

  lemma LaterHasOther(p: Posix, tag: Tag)
    requires tag.UserObj? || InGroupClass(tag)
    ensures p.other <= Later(p, tag)
  {
    OtherConsultedLast(p, tag);
    LastCounts(Consulted(p, tag), Entry(Other, 0, p.other));
  }

  predicate HasNamed(es: seq<Entry>) {
    exists e <- es :: e.tag.User? || e.tag.Group?
  }

  ghost function PlainKeys(es: seq<Entry>): set<Key> {
    set e | e in es && Plain(e) :: KeyOf(e)
  }

  ghost predicate Reached(p: Posix, es: seq<Entry>, c: Conv) {
    && c.allow == Target(p, es) && c.everyoneDeny == {}
    && (c.named <==> HasNamed(es)) && c.deny.Keys == PlainKeys(es)
  }

  lemma FreshKey(p: Posix, front: seq<Entry>, e: Entry, c: Conv)
    requires WellFormed(front + [e]) && Reached(p, front, c) && Plain(e)
    ensures KeyOf(e) !in c.deny && Get(c.allow, KeyOf(e)) == {}
    ensures WhoOf(e) != SPECIAL_EVERYONE && (e.tag.UserObj? || e.tag.GroupObj? ==> e.id == 0)
  {
    var es := front + [e];
    assert e in es && es[|front|] == e && forall f <- front :: f in es;
    forall i | 0 <= i < |front| ensures KeyOf(front[i]) != KeyOf(e) {
      assert es[i] == front[i] && KeyOf(es[i]) != KeyOf(es[|front|]);
    }
    assert DistinctKeys(front) by {
      forall i, j | 0 <= i < j < |front| ensures KeyOf(front[i]) != KeyOf(front[j]) {
        assert es[i] == front[i] && es[j] == front[j];
      }
    }
    TargetAt(p, front, KeyOf(e));
  }

  lemma ReachStep(p: Posix, front: seq<Entry>, e: Entry, c: Conv, c': Conv)
    requires Reached(p, front, c) && Plain(e)
    requires c'.allow == c.allow[KeyOf(e) := Survives(p, e)] && c'.deny.Keys == c.deny.Keys + {KeyOf(e)}
    requires c'.everyoneDeny == {} && c'.named == (c.named || e.tag.User? || e.tag.Group?)
    ensures Reached(p, front + [e], c')
  {
    var es := front + [e];
    assert es[..|es| - 1] == front && es[|es| - 1] == e && e in es;
    assert PlainKeys(es) == PlainKeys(front) + {KeyOf(e)};
    assert HasNamed(es) <==> HasNamed(front) || e.tag.User? || e.tag.Group?;
  }

  lemma ReachPlain(p: Posix, front: seq<Entry>, e: Entry, c: Conv, isDir: bool, isInherit: bool)
    requires WellFormed(front + [e]) && Reached(p, front, c) && Plain(e)
    ensures Reached(p, front + [e], VisitAll(c, EntryAces(e, Later(p, e.tag), MaskOf(p), isDir, isInherit),
                                             Everyone(p.other, {}), TypeFor(isInherit)))
  {
    var later, ev, ty := Later(p, e.tag), Everyone(p.other, {}), TypeFor(isInherit);
    FreshKey(p, front, e, c);
    LaterHasOther(p, e.tag);
    VisitEntry(c, e, later, MaskOf(p), p.other, isDir, isInherit);
    ReachStep(p, front, e, c, VisitAll(c, EntryAces(e, later, MaskOf(p), isDir, isInherit), ev, ty));
  }

  // An ALLOW for everyone moves nothing but the tag.
  lemma VisitEveryone(c: Conv, made: seq<Ace>, ev: Everyone, ty: AclType)
    requires |made| == 1 && made[0].kind.Allow? && LooksEveryone(made[0]) && SpecialId in made[0].iflag
    ensures var c' := VisitAll(c, made, ev, ty);
            c'.allow == c.allow && c'.deny == c.deny && c'.everyoneDeny == c.everyoneDeny && c'.named == c.named
  {
    assert made[..0] == [];
    assert VisitAll(c, made, ev, ty) == Visit(c, made[0], ev, ty);
  }

  lemma TailKeys(front: seq<Entry>, e: Entry)
    requires !Plain(e) && !e.tag.User? && !e.tag.Group?
    ensures PlainKeys(front + [e]) == PlainKeys(front) && (HasNamed(front + [e]) <==> HasNamed(front))
  {
    var es := front + [e];
    assert forall x :: x in es <==> x in front || x == e;
  }

  lemma TailTarget(p: Posix, front: seq<Entry>, e: Entry)
    requires !Plain(e)
    ensures Target(p, front + [e]) == Target(p, front)
  {
    var es := front + [e];
    assert es[..|es| - 1] == front && es[|es| - 1] == e;
  }

  lemma TailReached(p: Posix, front: seq<Entry>, e: Entry, c: Conv, c': Conv)
    requires Reached(p, front, c) && (e.tag.Mask? || e.tag.Other?)
    requires c'.allow == c.allow && c'.deny == c.deny && c'.everyoneDeny == c.everyoneDeny && c'.named == c.named
    ensures Reached(p, front + [e], c')
  {
    TailKeys(front, e);
    TailTarget(p, front, e);
  }

  lemma ReachTail(p: Posix, front: seq<Entry>, e: Entry, c: Conv, isDir: bool, isInherit: bool)
    requires Reached(p, front, c) && (e.tag.Mask? || e.tag.Other?)
    ensures Reached(p, front + [e], VisitAll(c, EntryAces(e, Later(p, e.tag), MaskOf(p), isDir, isInherit),
                                             Everyone(p.other, {}), TypeFor(isInherit)))
  {
    OtherMade(p, e, isDir, isInherit);
    var made, ev, ty := EntryAces(e, Later(p, e.tag), MaskOf(p), isDir, isInherit), Everyone(p.other, {}),
                        TypeFor(isInherit);
    if e.tag.Other? {
      VisitEveryone(c, made, ev, ty);
    }
    TailReached(p, front, e, c, VisitAll(c, made, ev, ty));
  }

  lemma {:induction false} ConvIsTarget(p: Posix, es: seq<Entry>, isDir: bool, isInherit: bool)
    requires WellFormed(es)
    ensures Reached(p, es, ConvAfter(AcesOf(p, es, isDir, isInherit), TypeFor(isInherit), Everyone(p.other, {})))
  {
    if es != [] {
      var front, e := es[..|es| - 1], es[|es| - 1];
      assert es == front + [e] && e in es;
      assert forall f <- front :: f in es;
      ConvIsTarget(p, front, isDir, isInherit);
      var aces, ev, ty := AcesOf(p, front, isDir, isInherit), Everyone(p.other, {}), TypeFor(isInherit);
      AppendVisits(aces, EntryAces(e, Later(p, e.tag), MaskOf(p), isDir, isInherit), ty, ev);
      if Plain(e) {
        ReachPlain(p, front, e, ConvAfter(aces, ty, ev), isDir, isInherit);
      } else {
        ReachTail(p, front, e, ConvAfter(aces, ty, ev), isDir, isInherit);
      }
    } else {
      assert PlainKeys([]) == {};
    }
  }

  // The mask makes no ACE and the other entry makes one ALLOW for EVERYONE@.
  lemma OtherMade(p: Posix, e: Entry, isDir: bool, isInherit: bool)
    requires e.tag.Mask? || e.tag.Other?
    ensures var made := EntryAces(e, Later(p, e.tag), MaskOf(p), isDir, isInherit);
            if e.tag.Mask? then made == []
            else |made| == 1 && made[0].kind.Allow? && LooksEveryone(made[0]) && AcePerms(made[0]) == e.perm
                 && made[0].iflag == {SpecialId}
                 && Concerns(made[0], TypeFor(isInherit)) && !Concerns(made[0], TypeFor(!isInherit))
  {
    if e.tag.Other? {
      var made := EntryAces(e, Later(p, e.tag), MaskOf(p), isDir, isInherit);
      var bits := BitsFor(e.tag, Later(p, e.tag) - e.perm, isDir);
      var deny := Ace(Deny, bits, FlagOf(e, isInherit), IFlagOf(e), WhoOf(e));
      assert Later(p, e.tag) - e.perm == {};
      PermsOfDeny(e.tag, {}, isDir, deny);
      PermsOfAllow(e, MaskOf(p), isDir, made[0]);
      RightType(e, isInherit, made[0]);
    }
  }

  // ------------------------------------------------------- the first pass

  lemma EntryWho(e: Entry, later: set<Rwx>, m: set<Rwx>, isDir: bool, isInherit: bool, a: Ace)
    requires a in EntryAces(e, later, m, isDir, isInherit)
    ensures a.who == WhoOf(e)
  {
  }

  lemma {:induction false} MadeWho(p: Posix, es: seq<Entry>, isDir: bool, isInherit: bool, a: Ace) returns (e: Entry)
    requires a in AcesOf(p, es, isDir, isInherit)
    ensures e in es && a.who == WhoOf(e)
  {
    var front := es[..|es| - 1];
    e := es[|es| - 1];
    if a in AcesOf(p, front, isDir, isInherit) {
      e := MadeWho(p, front, isDir, isInherit, a);
    } else {
      EntryWho(e, Later(p, e.tag), MaskOf(p), isDir, isInherit, a);
    }
  }

  lemma {:induction false} NobodyIsEveryone(aces: seq<Ace>, ty: AclType)
    requires forall a <- aces :: !LooksEveryone(a)
    ensures EveryoneAfter(aces, ty) == Everyone({}, {})
  {
    if aces != [] {
      assert aces[|aces| - 1] in aces && forall a <- aces[..|aces| - 1] :: a in aces;
      NobodyIsEveryone(aces[..|aces| - 1], ty);
    }
  }

  lemma EveryoneIsLast(p: Posix, front: seq<Entry>, o: Entry, isDir: bool, isInherit: bool)
    requires o.tag.Other? && forall e <- front :: WhoOf(e) != SPECIAL_EVERYONE
    ensures EveryoneAfter(AcesOf(p, front + [o], isDir, isInherit), TypeFor(isInherit)) == Everyone(o.perm, {})
  {
    var es := front + [o];
    assert es[..|es| - 1] == front;
    var aces := AcesOf(p, front, isDir, isInherit);
    forall a <- aces ensures !LooksEveryone(a) {
      var e := MadeWho(p, front, isDir, isInherit, a);
    }
    NobodyIsEveryone(aces, TypeFor(isInherit));
    OtherMade(p, o, isDir, isInherit);
    var made := EntryAces(o, Later(p, o.tag), MaskOf(p), isDir, isInherit);
    assert (aces + made)[..|aces|] == aces;
    assert {} + (o.perm - {}) == o.perm;
  }

  function Front(p: Posix): seq<Entry> {
    UserPart(p) + GroupPart(p) + if p.mask.HasMask? then [Entry(Mask, 0, p.mask.perm)] else []
  }

  lemma OtherIsLast(p: Posix)
    ensures Entries(p) == Front(p) + [Entry(Other, 0, p.other)]
    ensures forall e <- Front(p) :: !e.tag.Other? && (!(e.tag.User? || e.tag.Group?) ==> e.id == 0)
    ensures Entry(UserObj, 0, p.userObj) in Front(p) && Entry(GroupObj, 0, p.groupObj) in Front(p)
  {
    assert Front(p)[0] == Entry(UserObj, 0, p.userObj);
    assert Front(p)[|UserPart(p)|] == Entry(GroupObj, 0, p.groupObj);
  }

  lemma EveryoneIsOther(p: Posix, isDir: bool, isInherit: bool)
    requires WellFormed(Entries(p))
    ensures EveryoneAfter(ToAces(p, isDir, isInherit), TypeFor(isInherit)) == Everyone(p.other, {})
  {
    OtherIsLast(p);
    assert forall e <- Front(p) :: e in Entries(p);
    forall e <- Front(p) ensures WhoOf(e) != SPECIAL_EVERYONE {
      assert e in Entries(p);
    }
    EveryoneIsLast(p, Front(p), Entry(Other, 0, p.other), isDir, isInherit);
  }

  // ------------------------------------------------------------ the result

  // No named entry carries the number that stands for EVERYONE@.
  predicate NoCollision(p: Posix) {
    (forall u <- p.users :: u.id != SPECIAL_EVERYONE) && forall g <- p.groups :: g.id != SPECIAL_EVERYONE
  }

  lemma EntriesWellFormed(p: Posix)
    requires Valid(p)
    ensures DistinctKeys(Entries(p)) && (NoCollision(p) ==> WellFormed(Entries(p)))
  {
    var es := Entries(p);
    forall i, j | 0 <= i < j < |es| ensures KeyOf(es[i]) != KeyOf(es[j]) {
    }
  }

  // The ACL as the map libacl represents.
  function AsMap(es: seq<Entry>): PermMap {
    if es == [] then map[] else AsMap(es[..|es| - 1])[KeyOf(es[|es| - 1]) := es[|es| - 1].perm]
  }

  lemma {:induction false} AsMapAt(es: seq<Entry>, k: Key)
    requires DistinctKeys(es)
    ensures k in AsMap(es) <==> exists e <- es :: KeyOf(e) == k
    ensures forall e <- es :: KeyOf(e) == k ==> AsMap(es)[k] == e.perm
  {
    if es != [] {
      var front, last := es[..|es| - 1], es[|es| - 1];
      assert es == front + [last];
      AsMapAt(front, k);
    }
  }

  function RoundTrip(p: Posix, isDir: bool, isInherit: bool): PermMap {
    FromAces(ToAces(p, isDir, isInherit), TypeFor(isInherit))
  }

  ghost predicate HeldAfter(p: Posix, es: seq<Entry>, r: Rwx) {
    exists e <- es :: InGroupClass(e.tag) && r in Survives(p, e)
  }

  // The union of the group class after the trip.
  ghost function GroupClassAfter(p: Posix, es: seq<Entry>): set<Rwx> {
    set r: Rwx | HeldAfter(p, es, r)
  }

  lemma MaskAfter(p: Posix, es: seq<Entry>)
    requires WellFormed(es) && Entry(GroupObj, 0, p.groupObj) in es
    ensures CalcMask(Target(p, es)) == GroupClassAfter(p, es)
  {
    var t := Target(p, es);
    forall r: Rwx ensures HeldByGroupClass(t, r) <==> HeldAfter(p, es, r) {
      if HeldByGroupClass(t, r) {
        var j :| j in t && InGroupClass(j.tag) && r in t[j];
        TargetAt(p, es, j);
        assert KeyOf(Entry(GroupObj, 0, p.groupObj)) == Key(GroupObj, 0);
      }
      if e :| e in es && InGroupClass(e.tag) && r in Survives(p, e) {
        TargetAt(p, es, KeyOf(e));
      }
    }
  }

  lemma TargetOfAll(p: Posix, front: seq<Entry>, k: Key)
    requires WellFormed(front + [Entry(Other, 0, p.other)]) && forall e <- front :: !e.tag.Other?
    requires Entry(UserObj, 0, p.userObj) in front && Entry(GroupObj, 0, p.groupObj) in front
    ensures var es := front + [Entry(Other, 0, p.other)];
            && (k in Target(p, es) <==> exists e <- es :: !e.tag.Mask? && KeyOf(e) == k)
            && forall e <- es :: !e.tag.Mask? && KeyOf(e) == k ==> Target(p, es)[k] == Survives(p, e)
  {
    var o := Entry(Other, 0, p.other);
    var es := front + [o];
    TargetAt(p, es, k);
    assert forall e <- es :: Plain(e) || e.tag.Mask? || e == o;
    if k == Key(UserObj, 0) {
      assert KeyOf(Entry(UserObj, 0, p.userObj)) == k && Entry(UserObj, 0, p.userObj) in es;
    } else if k == Key(GroupObj, 0) {
      assert KeyOf(Entry(GroupObj, 0, p.groupObj)) == k && Entry(GroupObj, 0, p.groupObj) in es;
    } else if k == Key(Other, 0) {
      assert KeyOf(o) == k && o in es;
      assert forall e <- es :: Plain(e) ==> KeyOf(e) != k;
    }
  }

  lemma RoundTripIsTarget(p: Posix, isDir: bool, isInherit: bool)
    requires Valid(p) && NoCollision(p)
    ensures var es := Entries(p);
            RoundTrip(p, isDir, isInherit) ==
            if HasNamed(es) then Target(p, es)[Key(Mask, 0) := GroupClassAfter(p, es)] else Target(p, es)
  {
    var es := Entries(p);
    EntriesWellFormed(p);
    EveryoneIsOther(p, isDir, isInherit);
    ConvIsTarget(p, es, isDir, isInherit);
    OtherIsLast(p);
    MaskAfter(p, es);
  }

  lemma TargetAll(p: Posix, k: Key)
    requires Valid(p) && NoCollision(p)
    ensures (k in Target(p, Entries(p)) <==> exists e <- Entries(p) :: !e.tag.Mask? && KeyOf(e) == k)
    ensures forall e <- Entries(p) :: !e.tag.Mask? && KeyOf(e) == k ==> Target(p, Entries(p))[k] == Survives(p, e)
  {
    EntriesWellFormed(p);
    OtherIsLast(p);
    TargetOfAll(p, Front(p), k);
  }

  // The exact result: every entry but the mask comes back with what survives,
  // and a mask comes back exactly when there is a named entry.
  lemma RoundTripExact(p: Posix, isDir: bool, isInherit: bool, k: Key)
    requires Valid(p) && NoCollision(p)
    ensures var m := RoundTrip(p, isDir, isInherit);
            && (k in m <==> (k == Key(Mask, 0) && HasNamed(Entries(p)))
                            || exists e <- Entries(p) :: !e.tag.Mask? && KeyOf(e) == k)
            && (forall e <- Entries(p) :: !e.tag.Mask? && KeyOf(e) == k ==> m[k] == Survives(p, e))
            && (k == Key(Mask, 0) && k in m ==> m[k] == GroupClassAfter(p, Entries(p)))
  {
    RoundTripIsTarget(p, isDir, isInherit);
    TargetAll(p, k);
  }

  // ------------------------------------------------- when it is the identity

  ghost predicate HeldByEntries(es: seq<Entry>, r: Rwx) {
    exists e <- es :: InGroupClass(e.tag) && r in e.perm
  }

  ghost function GroupClass(p: Posix): set<Rwx> {
    set r: Rwx | HeldByEntries(Entries(p), r)
  }

  // A mask is present exactly when a named entry is, and is the union of the
  // group class.
  ghost predicate MaskExact(p: Posix) {
    && (p.mask.HasMask? <==> HasNamed(Entries(p)))
    && (p.mask.HasMask? ==> p.mask.perm == GroupClass(p))
  }

  lemma MaskEntry(p: Posix)
    ensures p.mask.HasMask? ==> Entry(Mask, 0, p.mask.perm) in Entries(p)
    ensures forall e <- Entries(p) :: e.tag.Mask? ==> p.mask.HasMask? && e == Entry(Mask, 0, p.mask.perm)
  {
    if p.mask.HasMask? {
      assert TailPart(p)[0] == Entry(Mask, 0, p.mask.perm);
      assert Entries(p)[|UserPart(p)| + |GroupPart(p)|] == Entry(Mask, 0, p.mask.perm);
    }
  }

  lemma SurvivesUnderExactMask(p: Posix, e: Entry)
    requires MaskExact(p) && e in Entries(p)
    ensures Survives(p, e) == e.perm
  {
    forall r | r in e.perm && InGroupClass(e.tag) ensures r in MaskOf(p) {
      assert HeldByEntries(Entries(p), r);
      match r case R => case W => case X =>
    }
  }

  lemma SameUnion(p: Posix, es: seq<Entry>)
    requires forall e <- es :: InGroupClass(e.tag) ==> Survives(p, e) == e.perm
    ensures forall r: Rwx :: HeldAfter(p, es, r) <==> HeldByEntries(es, r)
  {
  }

  lemma IdentityUnderExactMask(p: Posix, isDir: bool, isInherit: bool, k: Key)
    requires Valid(p) && NoCollision(p) && MaskExact(p)
    ensures var m, n := RoundTrip(p, isDir, isInherit), AsMap(Entries(p));
            (k in m <==> k in n) && (k in m ==> m[k] == n[k])
  {
    var es := Entries(p);
    RoundTripExact(p, isDir, isInherit, k);
    EntriesWellFormed(p);
    AsMapAt(es, k);
    MaskEntry(p);
    forall e <- es ensures Survives(p, e) == e.perm {
      SurvivesUnderExactMask(p, e);
    }
    SameUnion(p, es);
    if k == Key(Mask, 0) {
      assert forall e <- es :: !e.tag.Mask? ==> KeyOf(e) != k;
      assert p.mask.HasMask? ==> KeyOf(Entry(Mask, 0, p.mask.perm)) == k;
    }
  }

  lemma ExactMaskUnderIdentity(p: Posix, isDir: bool, isInherit: bool)
    requires Valid(p) && NoCollision(p) && RoundTrip(p, isDir, isInherit) == AsMap(Entries(p))
    ensures MaskExact(p)
  {
    var es := Entries(p);
    EntriesWellFormed(p);
    MaskEntry(p);
    RoundTripExact(p, isDir, isInherit, Key(Mask, 0));
    AsMapAt(es, Key(Mask, 0));
    assert forall e <- es :: !e.tag.Mask? ==> KeyOf(e) != Key(Mask, 0);
    assert p.mask.HasMask? ==> KeyOf(Entry(Mask, 0, p.mask.perm)) == Key(Mask, 0);
    forall e <- es | InGroupClass(e.tag) ensures Survives(p, e) == e.perm {
      RoundTripExact(p, isDir, isInherit, KeyOf(e));
      AsMapAt(es, KeyOf(e));
    }
    SameUnion(p, es);
  }

  // Whatever the ACEs, no named entry with the number of EVERYONE@ comes back.
  lemma {:induction false} CollisionLost(aces: seq<Ace>, ty: AclType, ev: Everyone, k: Key)
    requires k in ConvAfter(aces, ty, ev).allow && (k.tag.User? || k.tag.Group?)
    ensures k.id != SPECIAL_EVERYONE
  {
    if aces != [] {
      var front := aces[..|aces| - 1];
      if k in ConvAfter(front, ty, ev).allow {
        CollisionLost(front, ty, ev, k);
      }
    }
  }

  lemma CollisionBreaks(p: Posix, isDir: bool, isInherit: bool)
    requires Valid(p) && !NoCollision(p)
    ensures RoundTrip(p, isDir, isInherit) != AsMap(Entries(p))
  {
    var es := Entries(p);
    EntriesWellFormed(p);
    var e := CollidingEntry(p);
    var k := KeyOf(e);
    AsMapAt(es, k);
    var aces, ty := ToAces(p, isDir, isInherit), TypeFor(isInherit);
    var ev := EveryoneAfter(aces, ty);
    if k in ConvAfter(aces, ty, ev).allow {
      CollisionLost(aces, ty, ev, k);
    }
  }

  lemma CollidingEntry(p: Posix) returns (e: Entry)
    requires !NoCollision(p)
    ensures e in Entries(p) && (e.tag.User? || e.tag.Group?) && e.id == SPECIAL_EVERYONE
  {
    if i :| 0 <= i < |p.users| && p.users[i].id == SPECIAL_EVERYONE {
      e := Entry(User, p.users[i].id, p.users[i].perm);
      assert Entries(p)[1 + i] == e;
    } else {
      var j :| 0 <= j < |p.groups| && p.groups[j].id == SPECIAL_EVERYONE;
      e := Entry(Group, p.groups[j].id, p.groups[j].perm);
      assert Entries(p)[|UserPart(p)| + 1 + j] == e;
    }
  }

  // POSIX to ACEs to POSIX is the identity exactly when the mask is what
  // acl_calc_mask computes and no named id collides with EVERYONE@.
  lemma RoundTripIff(p: Posix, isDir: bool, isInherit: bool)
    requires Valid(p)
    ensures RoundTrip(p, isDir, isInherit) == AsMap(Entries(p)) <==> MaskExact(p) && NoCollision(p)
  {
    if !NoCollision(p) {
      CollisionBreaks(p, isDir, isInherit);
    } else if MaskExact(p) {
      var m, n := RoundTrip(p, isDir, isInherit), AsMap(Entries(p));
      forall k: Key ensures (k in m <==> k in n) && (k in m ==> m[k] == n[k]) {
        IdentityUnderExactMask(p, isDir, isInherit, k);
      }
      assert m == n;
    } else if RoundTrip(p, isDir, isInherit) == AsMap(Entries(p)) {
      ExactMaskUnderIdentity(p, isDir, isInherit);
    }
  }

  // ----------------------------------------------- access and default together

  lemma {:induction false} SkipBack(aces: seq<Ace>, skip: seq<Ace>, ty: AclType, ev: Everyone)
    requires forall a <- skip :: !Concerns(a, ty)
    ensures EveryoneAfter(aces + skip, ty) == EveryoneAfter(aces, ty)
    ensures ConvAfter(aces + skip, ty, ev) == ConvAfter(aces, ty, ev)
  {
    if skip == [] {
      assert aces + skip == aces;
    } else {
      var all := aces + skip;
      assert all[..|all| - 1] == aces + skip[..|skip| - 1] && skip[|skip| - 1] in skip;
      assert forall a <- skip[..|skip| - 1] :: a in skip;
      SkipBack(aces, skip[..|skip| - 1], ty, ev);
    }
  }

  lemma {:induction false} SkipFront(skip: seq<Ace>, aces: seq<Ace>, ty: AclType, ev: Everyone)
    requires forall a <- skip :: !Concerns(a, ty)
    ensures EveryoneAfter(skip + aces, ty) == EveryoneAfter(aces, ty)
    ensures ConvAfter(skip + aces, ty, ev) == ConvAfter(aces, ty, ev)
  {
    if aces == [] {
      SkipBack([], skip, ty, ev);
      assert skip + aces == [] + skip;
    } else {
      var all := skip + aces;
      assert all[..|all| - 1] == skip + aces[..|aces| - 1];
      SkipFront(skip, aces[..|aces| - 1], ty, ev);
    }
  }

  lemma {:induction false} MadeType(p: Posix, es: seq<Entry>, isDir: bool, isInherit: bool)
    ensures forall a <- AcesOf(p, es, isDir, isInherit) :: !Concerns(a, TypeFor(!isInherit))
  {
    if es != [] {
      var e := es[|es| - 1];
      MadeType(p, es[..|es| - 1], isDir, isInherit);
      forall a <- EntryAces(e, Later(p, e.tag), MaskOf(p), isDir, isInherit) ensures !Concerns(a, TypeFor(!isInherit)) {
        RightType(e, isInherit, a);
      }
    }
  }

  // The access ACL and the default ACL of a directory share one list of ACEs,
  // and each is read back as if the other were not there.
  lemma BothComeBack(access: Posix, default: Posix)
    ensures var aces := ToAces(access, true, false) + ToAces(default, true, true);
            && FromAces(aces, AccessAcl) == RoundTrip(access, true, false)
            && FromAces(aces, DefaultAcl) == RoundTrip(default, true, true)
  {
    var a, d := ToAces(access, true, false), ToAces(default, true, true);
    MadeType(access, Entries(access), true, false);
    MadeType(default, Entries(default), true, true);
    SkipBack(a, d, AccessAcl, EveryoneAfter(a, AccessAcl));
    SkipFront(a, d, DefaultAcl, EveryoneAfter(d, DefaultAcl));
  }
}
