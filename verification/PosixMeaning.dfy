/** What the compiled ACEs mean, compared with the POSIX access check
    algorithm, for every valid ACL, caller and single permission. */
module PosixMeaning {
  import opened AclTypes
  import opened AccessCheck
  import opened ModeAcl
  import opened PosixAcl

  // ------------------------------------------------- the POSIX algorithm

  function NamedPerm(users: seq<Named>, uid: nat): MaskOpt {
    if users == [] then NoMask
    else if users[0].id == uid then HasMask(users[0].perm)
    else NamedPerm(users[1..], uid)
  }

  // Permissions of the group-class entries that match the caller, in order.
  function MatchingGroups(groups: seq<Named>, s: Subject): seq<set<Rwx>> {
    if groups == [] then []
    else (if InGroup(groups[0].id, s.creds) then [groups[0].perm] else []) + MatchingGroups(groups[1..], s)
  }

  function GroupList(p: Posix, s: Subject): seq<set<Rwx>> {
    (if InGroup(s.group, s.creds) then [p.groupObj] else []) + MatchingGroups(p.groups, s)
  }

  predicate PosixGrants(p: Posix, s: Subject, ask: set<Rwx>) {
    var named := NamedPerm(p.users, s.creds.uid);
    if IsOwner(s) then ask <= p.userObj
    else if named.HasMask? then ask <= named.perm * MaskOf(p)
    else if GroupList(p, s) != [] then exists q <- GroupList(p, s) :: ask <= q * MaskOf(p)
    else ask <= p.other
  }

  // The same question put to the compiled ACEs.
  ghost predicate ScanGrants(p: Posix, s: Subject, ask: set<Rwx>) {
    AclGrants(ToAces(p, s.isDir, false), s, PermBits(ask))
  }

  // ------------------------------------------------- verdicts of one entry

  predicate MatchesEntry(e: Entry, s: Subject) {
    match e.tag
    case UserObj => IsOwner(s)
    case User => s.creds.uid == e.id
    case GroupObj => InGroup(s.group, s.creds)
    case Group => InGroup(e.id, s.creds)
    case Other => true
    case _ => false
  }

  // A permission the mask removes is neither granted nor refused.
  function Vote(perm: set<Rwx>, m: set<Rwx>, later: set<Rwx>, r: Rwx): Verdict {
    if r in perm then (if r in m then Granted else Undecided)
    else if r in later then Refused else Undecided
  }

  function EffMask(p: Posix, tag: Tag): set<Rwx> {
    if Unmasked(tag) then ALL_RWX else MaskOf(p)
  }

  lemma InAllRwx(r: Rwx)
    ensures r in ALL_RWX
  {
    match r case R => case W => case X =>
  }

  // Bits that stand for one permission.
  predicate StandsFor(b: Bit, r: Rwx) {
    b in PermBits({r})
  }

  lemma StandsForIn(b: Bit, r: Rwx, q: set<Rwx>)
    requires StandsFor(b, r)
    ensures b in PermBits(q) <==> r in q
    ensures b in RWX_BITS
  {
    match r case R => case W => case X =>
  }

  lemma AllowHas(e: Entry, m: set<Rwx>, isDir: bool, b: Bit, r: Rwx)
    requires StandsFor(b, r)
    ensures b in AllowPerm(e, m, isDir) <==> r in e.perm && (Unmasked(e.tag) || r in m)
  {
    StandsForIn(b, r, e.perm);
    StandsForIn(b, r, e.perm * m);
  }

  lemma DenyHas(tag: Tag, q: set<Rwx>, isDir: bool, b: Bit, r: Rwx)
    requires StandsFor(b, r)
    ensures b in BitsFor(tag, q, isDir) <==> r in q
  {
    StandsForIn(b, r, q);
  }

  lemma EntryVote(e: Entry, later: set<Rwx>, m: set<Rwx>, s: Subject, isDir: bool, b: Bit, r: Rwx)
    requires !s.isRoot && StandsFor(b, r) && !e.tag.Mask? && !e.tag.Undefined?
    ensures FirstMatch(EntryAces(e, later, m, isDir, false), s, b) ==
            if MatchesEntry(e, s) then Vote(e.perm, if Unmasked(e.tag) then ALL_RWX else m, later, r) else Undecided
  {
    InAllRwx(r);
    AllowHas(e, m, isDir, b, r);
    DenyHas(e.tag, later - e.perm, isDir, b, r);
    var allow := Ace(Allow, AllowPerm(e, m, isDir), FlagOf(e, false), IFlagOf(e), WhoOf(e));
    var deny := Ace(Deny, BitsFor(e.tag, later - e.perm, isDir), FlagOf(e, false), IFlagOf(e), WhoOf(e));
    FirstMatchSingle(allow, s, b);
    FirstMatchSingle(deny, s, b);
    FirstMatchConcat([deny], [allow], s, b);
    assert [deny, allow] == [deny] + [allow];
  }

  // ------------------------------------------------ verdicts of the whole

  function Votes(p: Posix, es: seq<Entry>, s: Subject, r: Rwx): Verdict {
    if es == [] then Undecided
    else var e := es[0];
         Override(if !e.tag.Mask? && MatchesEntry(e, s)
                  then Vote(e.perm, EffMask(p, e.tag), Later(p, e.tag), r) else Undecided,
                  Votes(p, es[1..], s, r))
  }

  lemma {:induction false} VotesConcat(p: Posix, es: seq<Entry>, fs: seq<Entry>, s: Subject, r: Rwx)
    ensures Votes(p, es + fs, s, r) == Override(Votes(p, es, s, r), Votes(p, fs, s, r))
  {
    if es == [] {
      assert es + fs == fs;
    } else {
      assert (es + fs)[1..] == es[1..] + fs;
      VotesConcat(p, es[1..], fs, s, r);
    }
  }

  lemma {:induction false} ScanIsVotes(p: Posix, es: seq<Entry>, s: Subject, isDir: bool, b: Bit, r: Rwx)
    requires !s.isRoot && StandsFor(b, r) && forall e <- es :: !e.tag.Undefined?
    ensures FirstMatch(AcesOf(p, es, isDir, false), s, b) == Votes(p, es, s, r)
  {
    if es != [] {
      var front, e := es[..|es| - 1], es[|es| - 1];
      assert es == front + [e];
      ScanIsVotes(p, front, s, isDir, b, r);
      var made := EntryAces(e, Later(p, e.tag), MaskOf(p), isDir, false);
      FirstMatchConcat(AcesOf(p, front, isDir, false), made, s, b);
      VotesConcat(p, front, [e], s, r);
      if !e.tag.Mask? {
        EntryVote(e, Later(p, e.tag), MaskOf(p), s, isDir, b, r);
      }
      assert [e][1..] == [];
    }
  }

  function Combine(qs: seq<set<Rwx>>, m: set<Rwx>, later: set<Rwx>, r: Rwx): Verdict {
    if qs == [] then Undecided else Override(Vote(qs[0], m, later, r), Combine(qs[1..], m, later, r))
  }

  lemma {:induction false} UsersVote(p: Posix, users: seq<Named>, s: Subject, r: Rwx)
    requires DistinctIds(users)
    ensures Votes(p, Tagged(User, users), s, r) ==
            match NamedPerm(users, s.creds.uid)
            case NoMask => Undecided
            case HasMask(q) => Vote(q, MaskOf(p), Later(p, User), r)
  {
    if users != [] {
      assert Tagged(User, users)[1..] == Tagged(User, users[1..]);
      UsersVote(p, users[1..], s, r);
      if users[0].id == s.creds.uid {
        NotNamed(users[1..], s.creds.uid);
      }
    }
  }

  lemma {:induction false} NotNamed(users: seq<Named>, uid: nat)
    ensures NamedPerm(users, uid).NoMask? <==> forall u <- users :: u.id != uid
  {
    if users != [] {
      NotNamed(users[1..], uid);
      assert users == [users[0]] + users[1..];
    }
  }

  lemma {:induction false} GroupsVote(p: Posix, groups: seq<Named>, s: Subject, r: Rwx)
    ensures Votes(p, Tagged(Group, groups), s, r) == Combine(MatchingGroups(groups, s), MaskOf(p), Later(p, Group), r)
  {
    if groups != [] {
      assert Tagged(Group, groups)[1..] == Tagged(Group, groups[1..]);
      GroupsVote(p, groups[1..], s, r);
      if InGroup(groups[0].id, s.creds) {
        assert MatchingGroups(groups, s)[1..] == MatchingGroups(groups[1..], s);
      } else {
        assert MatchingGroups(groups, s) == MatchingGroups(groups[1..], s);
      }
    }
  }

  lemma LaterGroup(p: Posix)
    ensures Later(p, GroupObj) == Later(p, Group) == p.other
  {
    UnionOfOne(Entry(Other, 0, p.other));
  }

  lemma SingleVote(p: Posix, e: Entry, s: Subject, r: Rwx)
    ensures Votes(p, [e], s, r) ==
            if !e.tag.Mask? && MatchesEntry(e, s)
            then Vote(e.perm, EffMask(p, e.tag), Later(p, e.tag), r) else Undecided
  {
    assert [e][1..] == [];
  }

  lemma GroupPartVote(p: Posix, s: Subject, r: Rwx)
    ensures Votes(p, GroupPart(p), s, r) == Combine(GroupList(p, s), MaskOf(p), p.other, r)
  {
    var e := Entry(GroupObj, 0, p.groupObj);
    VotesConcat(p, [e], Tagged(Group, p.groups), s, r);
    SingleVote(p, e, s, r);
    GroupsVote(p, p.groups, s, r);
    LaterGroup(p);
    if InGroup(s.group, s.creds) {
      assert GroupList(p, s)[1..] == MatchingGroups(p.groups, s);
    } else {
      assert GroupList(p, s) == MatchingGroups(p.groups, s);
    }
  }

  lemma TailVote(p: Posix, s: Subject, r: Rwx)
    ensures Votes(p, TailPart(p), s, r) == if r in p.other then Granted else Undecided
  {
    InAllRwx(r);
    var o := Entry(Other, 0, p.other);
    SingleVote(p, o, s, r);
    if p.mask.HasMask? {
      var e := Entry(Mask, 0, p.mask.perm);
      VotesConcat(p, [e], [o], s, r);
      SingleVote(p, e, s, r);
    } else {
      assert TailPart(p) == [o];
    }
  }

  // The group entries and the other entry, read as the scan reads them.
  function GroupOrOther(p: Posix, s: Subject, r: Rwx): Verdict {
    Override(Combine(GroupList(p, s), MaskOf(p), p.other, r), if r in p.other then Granted else Undecided)
  }

  lemma WholeVote(p: Posix, s: Subject, r: Rwx)
    requires Valid(p)
    ensures Votes(p, Entries(p), s, r) ==
            Override(if IsOwner(s) then Vote(p.userObj, ALL_RWX, Later(p, UserObj), r) else Undecided,
                     Override(match NamedPerm(p.users, s.creds.uid)
                              case NoMask => Undecided
                              case HasMask(q) => Vote(q, MaskOf(p), Later(p, User), r),
                              GroupOrOther(p, s, r)))
  {
    var u := Entry(UserObj, 0, p.userObj);
    VotesConcat(p, UserPart(p) + GroupPart(p), TailPart(p), s, r);
    VotesConcat(p, UserPart(p), GroupPart(p), s, r);
    VotesConcat(p, [u], Tagged(User, p.users), s, r);
    SingleVote(p, u, s, r);
    UsersVote(p, p.users, s, r);
    GroupPartVote(p, s, r);
    TailVote(p, s, r);
  }

  // -------------------------------------------- who is consulted for denial

  lemma {:induction false} UnionHas(es: seq<Entry>, r: Rwx)
    ensures r in Union(es) <==> exists e <- es :: !e.tag.Mask? && r in e.perm
  {
    if es != [] {
      var front, last := es[..|es| - 1], es[|es| - 1];
      assert es == front + [last];
      UnionHas(front, r);
    }
  }

  lemma ConsultedHolds(p: Posix, r: Rwx)
    ensures r in Later(p, User) ==> r in Later(p, UserObj)
    ensures r in p.other || r in p.groupObj ==> r in Later(p, User)
    ensures forall g <- p.groups :: r in g.perm ==> r in Later(p, User)
    ensures forall u <- p.users :: r in u.perm ==> r in Later(p, UserObj)
  {
    var cu, co := Consulted(p, User), Consulted(p, UserObj);
    UnionHas(cu, r);
    UnionHas(co, r);
    assert co == Tagged(User, p.users) + cu;
    assert cu[0] == Entry(GroupObj, 0, p.groupObj) && cu[|cu| - 1] == Entry(Other, 0, p.other);
    forall g | g in p.groups && r in g.perm ensures r in Later(p, User) {
      var i :| 0 <= i < |p.groups| && p.groups[i] == g;
      assert cu[1 + i] == Entry(Group, g.id, g.perm);
    }
    forall u | u in p.users && r in u.perm ensures r in Later(p, UserObj) {
      var i :| 0 <= i < |p.users| && p.users[i] == u;
      assert co[i] == Entry(User, u.id, u.perm);
    }
  }

  lemma {:induction false} MatchingIn(groups: seq<Named>, s: Subject)
    ensures forall q <- MatchingGroups(groups, s) :: exists g <- groups :: g.perm == q && InGroup(g.id, s.creds)
  {
    if groups != [] {
      MatchingIn(groups[1..], s);
      assert groups == [groups[0]] + groups[1..];
      assert groups[0] in groups;
    }
  }

  lemma {:induction false} NamedIn(users: seq<Named>, uid: nat)
    ensures NamedPerm(users, uid).HasMask? ==> Named(uid, NamedPerm(users, uid).perm) in users
  {
    if users != [] {
      NamedIn(users[1..], uid);
    }
  }

  // ------------------------------------------------------- closed forms

  lemma {:induction false} CombineForm(qs: seq<set<Rwx>>, m: set<Rwx>, other: set<Rwx>, r: Rwx)
    ensures r in m && r in other && qs != [] ==> Combine(qs, m, other, r) == if r in qs[0] then Granted else Refused
    ensures r in m && r !in other ==>
              Combine(qs, m, other, r) == if exists q <- qs :: r in q then Granted else Undecided
    ensures r !in m ==> Combine(qs, m, other, r) ==
                        if r in other && exists q <- qs :: r !in q then Refused else Undecided
  {
    if qs != [] {
      CombineForm(qs[1..], m, other, r);
      assert qs == [qs[0]] + qs[1..];
    }
  }

  // What the scan of the compiled ACEs grants to a caller outside the owner
  // and named users.
  predicate GroupClassGrant(p: Posix, s: Subject, r: Rwx) {
    var qs := GroupList(p, s);
    if r !in MaskOf(p) then r in p.other && forall q <- qs :: r in q
    else if r in p.other then qs == [] || r in qs[0]
    else exists q <- qs :: r in q
  }

  predicate ScanForm(p: Posix, s: Subject, r: Rwx) {
    var named := NamedPerm(p.users, s.creds.uid);
    if IsOwner(s) then r in p.userObj
    else if named.HasMask? then r in named.perm && (r in MaskOf(p) || GroupClassGrant(p, s, r))
    else GroupClassGrant(p, s, r)
  }

  lemma GroupClassForm(p: Posix, s: Subject, r: Rwx)
    ensures GroupOrOther(p, s, r) == Granted <==> GroupClassGrant(p, s, r)
  {
    CombineForm(GroupList(p, s), MaskOf(p), p.other, r);
  }

  // If nobody consulted holds the permission, nothing further down grants it.
  lemma NothingLeft(p: Posix, s: Subject, r: Rwx)
    requires r !in Later(p, User)
    ensures GroupOrOther(p, s, r) != Granted
  {
    ConsultedHolds(p, r);
    MatchingIn(p.groups, s);
    GroupClassForm(p, s, r);
    forall q <- GroupList(p, s) ensures r !in q {
      if q !in MatchingGroups(p.groups, s) {
        assert q == p.groupObj;
      }
    }
  }

  lemma VoteForm(p: Posix, s: Subject, r: Rwx)
    requires Valid(p)
    ensures Votes(p, Entries(p), s, r) == Granted <==> ScanForm(p, s, r)
  {
    WholeVote(p, s, r);
    InAllRwx(r);
    ConsultedHolds(p, r);
    GroupClassForm(p, s, r);
    NamedIn(p.users, s.creds.uid);
    if r !in Later(p, User) {
      NothingLeft(p, s, r);
    }
  }

  lemma NoUndefined(p: Posix)
    ensures forall e <- Entries(p) :: !e.tag.Undefined?
  {
  }

  lemma OneVerdict(aces: seq<Ace>, s: Subject, r: Rwx, v: Verdict)
    requires !s.isRoot && forall b <- PermBits({r}) :: FirstMatch(aces, s, b) == v
    ensures AclGrants(aces, s, PermBits({r})) <==> v == Granted
  {
    assert Needed(PermBits({r}), s) == PermBits({r});
    assert (if r == R then ReadData else if r == W then WriteData else Execute) in PermBits({r});
  }

  lemma AllBitsVote(p: Posix, es: seq<Entry>, s: Subject, r: Rwx)
    requires !s.isRoot && forall e <- es :: !e.tag.Undefined?
    ensures forall b <- PermBits({r}) :: FirstMatch(AcesOf(p, es, s.isDir, false), s, b) == Votes(p, es, s, r)
  {
    forall b <- PermBits({r}) ensures FirstMatch(AcesOf(p, es, s.isDir, false), s, b) == Votes(p, es, s, r) {
      ScanIsVotes(p, es, s, s.isDir, b, r);
    }
  }

  // The exact meaning of the compiled ACEs, one permission at a time.
  lemma ScanExact(p: Posix, s: Subject, r: Rwx)
    requires Valid(p) && !s.isRoot
    ensures ScanGrants(p, s, {r}) <==> ScanForm(p, s, r)
  {
    NoUndefined(p);
    AllBitsVote(p, Entries(p), s, r);
    OneVerdict(AcesOf(p, Entries(p), s.isDir, false), s, r, Votes(p, Entries(p), s, r));
    VoteForm(p, s, r);
  }

  // ------------------------------------------------------ the comparison

  // The group-class caller whose first matching entry lacks what a later one
  // has: the DENY that shields the other entry gets there first.
  predicate Narrowed(p: Posix, s: Subject, r: Rwx) {
    var qs := GroupList(p, s);
    && !IsOwner(s) && NamedPerm(p.users, s.creds.uid).NoMask?
    && r in p.other && r in MaskOf(p) && qs != [] && r !in qs[0] && exists q <- qs :: r in q
  }

  // The group-class caller from whom the mask takes what everybody has: no
  // entry denies it, and the EVERYONE@ entry gives it back.
  predicate Widened(p: Posix, s: Subject, r: Rwx) {
    var named := NamedPerm(p.users, s.creds.uid);
    && !IsOwner(s) && (named.HasMask? || GroupList(p, s) != [])
    && r in p.other && r !in MaskOf(p)
    && (named.HasMask? ==> r in named.perm) && forall q <- GroupList(p, s) :: r in q
  }

  // The POSIX algorithm on one permission.
  predicate PosixForm(p: Posix, s: Subject, r: Rwx) {
    var named := NamedPerm(p.users, s.creds.uid);
    if IsOwner(s) then r in p.userObj
    else if named.HasMask? then r in named.perm && r in MaskOf(p)
    else if GroupList(p, s) != [] then r in MaskOf(p) && exists q <- GroupList(p, s) :: r in q
    else r in p.other
  }

  lemma PosixExact(p: Posix, s: Subject, r: Rwx)
    ensures PosixGrants(p, s, {r}) <==> PosixForm(p, s, r)
  {
    var qs, m := GroupList(p, s), MaskOf(p);
    if r in m && exists q <- qs :: r in q {
      var q :| q in qs && r in q;
      assert {r} <= q * m;
    }
    if exists q <- qs :: {r} <= q * m {
      var q :| q in qs && {r} <= q * m;
      assert r in q * m;
    }
  }

  lemma FormsCompared(p: Posix, s: Subject, r: Rwx)
    ensures ScanForm(p, s, r) && !PosixForm(p, s, r) <==> Widened(p, s, r)
    ensures PosixForm(p, s, r) && !ScanForm(p, s, r) <==> Narrowed(p, s, r)
  {
    var qs := GroupList(p, s);
    assert qs != [] ==> qs[0] in qs;
  }

  // The two algorithms disagree exactly in these two situations, and each is
  // a disagreement in its own direction.
  lemma ScanVersusPosix(p: Posix, s: Subject, r: Rwx)
    requires Valid(p) && !s.isRoot
    ensures ScanGrants(p, s, {r}) && !PosixGrants(p, s, {r}) <==> Widened(p, s, r)
    ensures PosixGrants(p, s, {r}) && !ScanGrants(p, s, {r}) <==> Narrowed(p, s, r)
  {
    ScanExact(p, s, r);
    PosixExact(p, s, r);
    FormsCompared(p, s, r);
  }

  // The mask removes `r` from some group-class entry.
  predicate MaskCuts(p: Posix, r: Rwx) {
    && r !in MaskOf(p)
    && (r in p.groupObj || (exists u <- p.users :: r in u.perm) || exists g <- p.groups :: r in g.perm)
  }

  lemma {:induction false} FreshId(xs: seq<Named>, floor: nat) returns (id: nat)
    ensures id >= floor && forall x <- xs :: x.id != id
    decreases |xs|
  {
    if xs == [] {
      id := floor;
    } else {
      id := FreshId(xs[1..], floor + xs[0].id + 1);
      assert xs == [xs[0]] + xs[1..];
    }
  }

  lemma {:induction false} NoGroups(groups: seq<Named>, s: Subject)
    requires forall g <- groups :: !InGroup(g.id, s.creds)
    ensures MatchingGroups(groups, s) == []
  {
    if groups != [] {
      assert groups[0] in groups && forall g <- groups[1..] :: g in groups;
      NoGroups(groups[1..], s);
    }
  }

  lemma {:induction false} OneGroup(groups: seq<Named>, s: Subject, g: Named)
    requires DistinctIds(groups) && g in groups && s.creds == Creds(s.creds.uid, g.id, [])
    ensures MatchingGroups(groups, s) == [g.perm]
  {
    if groups[0] == g {
      forall h <- groups[1..] ensures !InGroup(h.id, s.creds) {}
      NoGroups(groups[1..], s);
    } else {
      assert g in groups[1..];
      OneGroup(groups[1..], s, g);
    }
  }

  // A caller who is widened, when the mask cuts something everybody has.
  lemma WidenedWitness(p: Posix, r: Rwx) returns (s: Subject)
    requires Valid(p) && r in p.other && MaskCuts(p, r)
    ensures !s.isRoot && Widened(p, s, r)
  {
    var uid := FreshId(p.users, 0);
    var gid := FreshId(p.groups, 0);
    NotNamed(p.users, uid);
    if r in p.groupObj {
      s := Subject(Creds(uid, gid, []), uid + 1, gid, false, false);
      NoGroups(p.groups, s);
      assert GroupList(p, s) == [p.groupObj];
    } else if exists u <- p.users :: r in u.perm {
      var u :| u in p.users && r in u.perm;
      s := Subject(Creds(u.id, gid, []), u.id + 1, gid + 1, false, false);
      NoGroups(p.groups, s);
      NamedIn(p.users, u.id);
      NotNamed(p.users, u.id);
      assert GroupList(p, s) == [];
      SameId(p.users, u, Named(u.id, NamedPerm(p.users, u.id).perm));
    } else {
      var g :| g in p.groups && r in g.perm;
      s := Subject(Creds(uid, g.id, []), uid + 1, g.id + 1, false, false);
      OneGroup(p.groups, s, g);
      assert GroupList(p, s) == [g.perm];
    }
  }

  lemma SameId(xs: seq<Named>, x: Named, y: Named)
    requires DistinctIds(xs) && x in xs && y in xs && x.id == y.id
    ensures x == y
  {
    var i, j :| 0 <= i < |xs| && 0 <= j < |xs| && xs[i] == x && xs[j] == y;
    assert i == j;
  }

  lemma WidenedMeansCut(p: Posix, s: Subject, r: Rwx)
    requires Widened(p, s, r)
    ensures r in p.other && MaskCuts(p, r)
  {
    var named := NamedPerm(p.users, s.creds.uid);
    if named.HasMask? {
      NamedIn(p.users, s.creds.uid);
      assert Named(s.creds.uid, named.perm) in p.users;
    } else {
      MatchingIn(p.groups, s);
      var q := GroupList(p, s)[0];
      assert q in GroupList(p, s);
      assert q == p.groupObj || q in MatchingGroups(p.groups, s);
    }
  }

  // Compiling a POSIX ACL never widens access to a permission, for any owner,
  // group and ordinary caller, exactly when the mask takes nothing from the
  // group class that the other entry gives.
  lemma NeverWidensIff(p: Posix, r: Rwx)
    requires Valid(p)
    ensures (forall s: Subject :: !s.isRoot && ScanGrants(p, s, {r}) ==> PosixGrants(p, s, {r}))
            <==> !(r in p.other && MaskCuts(p, r))
  {
    if r in p.other && MaskCuts(p, r) {
      var s := WidenedWitness(p, r);
      ScanVersusPosix(p, s, r);
    } else {
      forall s: Subject | !s.isRoot && ScanGrants(p, s, {r}) ensures PosixGrants(p, s, {r}) {
        ScanVersusPosix(p, s, r);
        if Widened(p, s, r) {
          WidenedMeansCut(p, s, r);
        }
      }
    }
  }

  // ---------------------------------------------------- several permissions

  lemma ScanExactMany(p: Posix, s: Subject, ask: set<Rwx>)
    requires Valid(p) && !s.isRoot
    ensures ScanGrants(p, s, ask) <==> forall r <- ask :: ScanForm(p, s, r)
  {
    var aces := ToAces(p, s.isDir, false);
    GrantEach(aces, s, ask);
    forall r <- ask ensures AclGrants(aces, s, PermBits({r})) <==> ScanForm(p, s, r) {
      ScanExact(p, s, r);
    }
  }

  // A request is granted when each of its permissions is.
  lemma GrantEach(aces: seq<Ace>, s: Subject, ask: set<Rwx>)
    requires !s.isRoot
    ensures AclGrants(aces, s, PermBits(ask)) <==> forall r <- ask :: AclGrants(aces, s, PermBits({r}))
  {
    assert Needed(PermBits(ask), s) == PermBits(ask);
    forall r: Rwx ensures Needed(PermBits({r}), s) == PermBits({r}) && (r in ask ==> PermBits({r}) <= PermBits(ask)) {}
    forall b <- PermBits(ask) ensures exists r <- ask :: b in PermBits({r}) {
      var r := if b == ReadData then R else if b == Execute then X else W;
      assert r in ask && b in PermBits({r});
    }
  }

  // What the POSIX algorithm gives a caller who matches at most one group entry.
  function PosixHas(p: Posix, s: Subject): set<Rwx> {
    var named, qs := NamedPerm(p.users, s.creds.uid), GroupList(p, s);
    if IsOwner(s) then p.userObj
    else if named.HasMask? then named.perm * MaskOf(p)
    else if qs != [] then qs[0] * MaskOf(p)
    else p.other
  }

  lemma PosixHasMeans(p: Posix, s: Subject, ask: set<Rwx>)
    requires |GroupList(p, s)| <= 1
    ensures PosixGrants(p, s, ask) <==> ask <= PosixHas(p, s)
  {
    var qs := GroupList(p, s);
    if qs != [] {
      assert qs[0] in qs && forall q <- qs :: q == qs[0];
    }
  }

  lemma OneGroupForm(p: Posix, s: Subject, r: Rwx)
    requires |GroupList(p, s)| <= 1 && !Widened(p, s, r)
    ensures ScanForm(p, s, r) <==> r in PosixHas(p, s)
  {
    FormsCompared(p, s, r);
    PosixExact(p, s, r);
    PosixHasMeans(p, s, {r});
    var qs := GroupList(p, s);
    assert forall q <- qs :: q == qs[0];
  }

  // Callers who match at most one group entry and lose nothing to the mask
  // get the same answer from both algorithms, whatever they ask for.
  lemma OneGroupAgrees(p: Posix, s: Subject, ask: set<Rwx>)
    requires Valid(p) && !s.isRoot && |GroupList(p, s)| <= 1
    requires forall r <- ask :: !Widened(p, s, r)
    ensures ScanGrants(p, s, ask) <==> PosixGrants(p, s, ask)
  {
    ScanExactMany(p, s, ask);
    forall r <- ask ensures ScanForm(p, s, r) <==> r in PosixHas(p, s) {
      OneGroupForm(p, s, r);
    }
    PosixHasMeans(p, s, ask);
  }

  // Each permission is held by some matching group entry, all of them by none.
  predicate Spread(p: Posix, s: Subject, ask: set<Rwx>) {
    && !IsOwner(s) && NamedPerm(p.users, s.creds.uid).NoMask? && GroupList(p, s) != []
    && (forall r <- ask :: PosixGrants(p, s, {r}))
    && !exists q <- GroupList(p, s) :: ask <= q * MaskOf(p)
  }

  lemma GroupEach(qs: seq<set<Rwx>>, m: set<Rwx>, ask: set<Rwx>)
    ensures (exists q <- qs :: ask <= q * m) ==> forall r <- ask :: exists q <- qs :: {r} <= q * m
  {
    if q :| q in qs && ask <= q * m {
      forall r <- ask ensures exists x <- qs :: {r} <= x * m {
        assert {r} <= q * m;
      }
    }
  }

  // The POSIX algorithm grants a request when it grants each part and one entry
  // does so for all of them.
  lemma PosixEach(p: Posix, s: Subject, ask: set<Rwx>)
    ensures PosixGrants(p, s, ask) <==> (forall r <- ask :: PosixGrants(p, s, {r})) && !Spread(p, s, ask)
  {
    GroupEach(GroupList(p, s), MaskOf(p), ask);
  }

  // Requests for several permissions, members of several groups included: the
  // compiled ACEs grant more exactly when nothing asked for is narrowed away and
  // something is widened or spread over several entries, and grant less exactly
  // when something granted is narrowed away.
  lemma ManyVersusPosix(p: Posix, s: Subject, ask: set<Rwx>)
    requires Valid(p) && !s.isRoot
    ensures ScanGrants(p, s, ask) && !PosixGrants(p, s, ask) <==>
            && (forall r <- ask :: !Narrowed(p, s, r) && (PosixGrants(p, s, {r}) || Widened(p, s, r)))
            && (Spread(p, s, ask) || exists r <- ask :: Widened(p, s, r))
    ensures PosixGrants(p, s, ask) && !ScanGrants(p, s, ask) <==>
            PosixGrants(p, s, ask) && exists r <- ask :: Narrowed(p, s, r)
  {
    ScanExactMany(p, s, ask);
    PosixEach(p, s, ask);
    forall r <- ask
      ensures ScanForm(p, s, r) <==> !Narrowed(p, s, r) && (PosixGrants(p, s, {r}) || Widened(p, s, r))
      ensures Widened(p, s, r) ==> !PosixGrants(p, s, {r})
    {
      ScanVersusPosix(p, s, r);
      ScanExact(p, s, r);
    }
  }
}
