/** Mode to ACEs (fsal_mode_set_ace, fsal_mode_gen_set) and chmod over an
    existing ACL (fsal_mode_to_acl), with what each does to the meaning. */
module ModeAcl {
  import opened AclTypes
  import opened AccessCheck

  const ALL_RWX: set<Rwx> := {R, W, X}

  // The ACE bits that stand for mode permissions.
  function PermBits(p: set<Rwx>): set<Bit> {
    (if R in p then {ReadData} else {}) + (if W in p then {WriteData, AppendData} else {})
    + (if X in p then {Execute} else {})
  }

  function Pair(p: set<Rwx>, flag: set<Flag>, who: nat): seq<Ace> {
    [Ace(Deny, PermBits(ALL_RWX - p), flag, {ModeGen, SpecialId}, who),
     Ace(Allow, PermBits(p), flag, {ModeGen, SpecialId}, who)]
  }

  function ModeAces(mode: bv16): seq<Ace> {
    Pair(ModePerms(mode, OwnerClass), {}, SPECIAL_OWNER)
    + Pair(ModePerms(mode, GroupClass), {GroupId}, SPECIAL_GROUP)
    + Pair(ModePerms(mode, OtherClass), {}, SPECIAL_EVERYONE)
  }

  // ------------------------------------------------------------ generation

  // `mode` has the permissions of interest in the owner position.
  method ModeSetAce(a: array<Ace>, deny: nat, allow: nat, mode: bv16)
    requires deny < allow < a.Length && a[deny].perm == a[allow].perm == {}
    modifies a
    ensures var p := Named(mode, S_IRUSR, S_IWUSR, S_IXUSR);
            a[..] == old(a[..])[deny := old(a[deny]).(kind := Deny, perm := PermBits(ALL_RWX - p))]
                               [allow := old(a[allow]).(kind := Allow, perm := PermBits(p))]
  {
    a[allow] := a[allow].(kind := Allow);
    a[deny] := a[deny].(kind := Deny);
    if mode & S_IRUSR != 0 {
      a[allow] := a[allow].(perm := a[allow].perm + {ReadData});
    } else {
      a[deny] := a[deny].(perm := a[deny].perm + {ReadData});
    }
    if mode & S_IWUSR != 0 {
      a[allow] := a[allow].(perm := a[allow].perm + {WriteData, AppendData});
    } else {
      a[deny] := a[deny].(perm := a[deny].perm + {WriteData, AppendData});
    }
    if mode & S_IXUSR != 0 {
      a[allow] := a[allow].(perm := a[allow].perm + {Execute});
    } else {
      a[deny] := a[deny].(perm := a[deny].perm + {Execute});
    }
    assert a[allow].perm == PermBits(Named(mode, S_IRUSR, S_IWUSR, S_IXUSR));
    assert a[deny].perm == PermBits(ALL_RWX - Named(mode, S_IRUSR, S_IWUSR, S_IXUSR));
  }

  method GenPair(a: array<Ace>, at: nat, flag: set<Flag>, who: nat, mode: bv16)
    requires at + 2 <= a.Length && a[at] == a[at + 1] == ZERO_ACE
    modifies a
    ensures a[..] == old(a[..at]) + Pair(Named(mode, S_IRUSR, S_IWUSR, S_IXUSR), flag, who) + old(a[at + 2..])
  {
    var deny, allow := at, at + 1;
    a[allow] := a[allow].(who := who, iflag := a[allow].iflag + {ModeGen, SpecialId}, flag := flag);
    a[deny] := a[deny].(who := who, iflag := a[deny].iflag + {ModeGen, SpecialId}, flag := flag);
    assert a[allow].iflag == a[deny].iflag == {ModeGen, SpecialId};
    ModeSetAce(a, deny, allow, mode);
    assert a[at..at + 2] == Pair(Named(mode, S_IRUSR, S_IWUSR, S_IXUSR), flag, who);
    assert a[..] == a[..at] + a[at..at + 2] + a[at + 2..];
    assert a[..at] == old(a[..at]) && a[at + 2..] == old(a[at + 2..]);
  }

  // `after` is `before` with `part` written over it from `at` on.
  predicate Written(before: seq<Ace>, after: seq<Ace>, at: nat, part: seq<Ace>)
    requires at + |part| <= |before|
  {
    after == before[..at] + part + before[at + |part|..]
  }

  lemma WrittenAt(before: seq<Ace>, after: seq<Ace>, at: nat, part: seq<Ace>, k: nat)
    requires at + |part| <= |before| && Written(before, after, at, part) && k < |before|
    ensures |after| == |before| && after[k] == if at <= k < at + |part| then part[k - at] else before[k]
  {
  }

  lemma WrittenNext(a0: seq<Ace>, a1: seq<Ace>, a2: seq<Ace>, at: nat, p: seq<Ace>, q: seq<Ace>)
    requires at + |p| + |q| <= |a0| && Written(a0, a1, at, p) && |a1| == |a0| && Written(a1, a2, at + |p|, q)
    ensures Written(a0, a2, at, p + q)
  {
    var r := a0[..at] + (p + q) + a0[at + |p + q|..];
    assert |a2| == |r| == |a0|;
    forall k: nat | k < |a0| ensures a2[k] == r[k] {
      WrittenAt(a1, a2, at + |p|, q, k);
      WrittenAt(a0, a1, at, p, k);
    }
  }

  method ModeGenSet(a: array<Ace>, at: nat, mode: bv16)
    requires at + 6 <= a.Length && forall k | at <= k < at + 6 :: a[k] == ZERO_ACE
    modifies a
    ensures a[..] == old(a[..at]) + ModeAces(mode) + old(a[at + 6..])
  {
    ghost var a0 := a[..];
    ghost var o, g := Pair(ModePerms(mode, OwnerClass), {}, SPECIAL_OWNER),
                      Pair(ModePerms(mode, GroupClass), {GroupId}, SPECIAL_GROUP);
    ghost var e := Pair(ModePerms(mode, OtherClass), {}, SPECIAL_EVERYONE);
    ShiftedClasses(mode);
    GenPair(a, at, {}, SPECIAL_OWNER, mode & 0x1C0);
    ghost var a1 := a[..];
    assert Written(a0, a1, at, o);
    GenPair(a, at + 2, {GroupId}, SPECIAL_GROUP, (mode & 0x038) << 3);
    ghost var a2 := a[..];
    WrittenNext(a0, a1, a2, at, o, g);
    assert a[at + 4] == a2[at + 4] == a0[at + 4] && a[at + 5] == a2[at + 5] == a0[at + 5];
    GenPair(a, at + 4, {}, SPECIAL_EVERYONE, (mode & 0x007) << 6);
    WrittenNext(a0, a2, a[..], at, o + g, e);
    assert Written(a0, a[..], at, ModeAces(mode));
  }

  // Moving a class into the owner position keeps its permissions.
  lemma ShiftedClasses(mode: bv16)
    ensures Named(mode & 0x1C0, S_IRUSR, S_IWUSR, S_IXUSR) == ModePerms(mode, OwnerClass)
    ensures Named((mode & 0x038) << 3, S_IRUSR, S_IWUSR, S_IXUSR) == ModePerms(mode, GroupClass)
    ensures Named((mode & 0x007) << 6, S_IRUSR, S_IWUSR, S_IXUSR) == ModePerms(mode, OtherClass)
  {
  }

  // --------------------------------------------------- meaning of generation

  lemma PairMatch(p: set<Rwx>, flag: set<Flag>, who: nat, s: Subject, b: Bit)
    requires InheritOnly !in flag
    ensures FirstMatch(Pair(p, flag, who), s, b) ==
            if s.isRoot then (if b in PermBits(p) then Granted else Undecided)
            else if !Matches(Pair(p, flag, who)[0], s) || b !in RWX_BITS then Undecided
            else if b in PermBits(p) then Granted else Refused
  {
    var q := Pair(p, flag, who);
    assert q == [q[0]] + [q[1]];
    FirstMatchConcat([q[0]], [q[1]], s, b);
    FirstMatchSingle(q[0], s, b);
    FirstMatchSingle(q[1], s, b);
  }

  // Three pairs in a row, whatever they permit.
  lemma ThreePairs(o: set<Rwx>, g: set<Rwx>, e: set<Rwx>, s: Subject, b: Bit)
    ensures var aces := Pair(o, {}, SPECIAL_OWNER) + Pair(g, {GroupId}, SPECIAL_GROUP) + Pair(e, {}, SPECIAL_EVERYONE);
            var mine := if ClassOf(s).OwnerClass? then o else if ClassOf(s).GroupClass? then g else e;
            FirstMatch(aces, s, b) ==
            if b !in RWX_BITS then Undecided
            else if s.isRoot then (if b in PermBits(o) + PermBits(g) + PermBits(e) then Granted else Undecided)
            else if b in PermBits(mine) then Granted else Refused
  {
    var po, pg, pe := Pair(o, {}, SPECIAL_OWNER), Pair(g, {GroupId}, SPECIAL_GROUP), Pair(e, {}, SPECIAL_EVERYONE);
    FirstMatchConcat(po + pg, pe, s, b);
    FirstMatchConcat(po, pg, s, b);
    PairMatch(o, {}, SPECIAL_OWNER, s, b);
    PairMatch(g, {GroupId}, SPECIAL_GROUP, s, b);
    PairMatch(e, {}, SPECIAL_EVERYONE, s, b);
  }

  lemma ModeAcesMatch(mode: bv16, s: Subject, b: Bit)
    ensures b !in RWX_BITS ==> FirstMatch(ModeAces(mode), s, b) == Undecided
    ensures b in RWX_BITS && !s.isRoot ==>
              FirstMatch(ModeAces(mode), s, b) ==
              if b in PermBits(ModePerms(mode, ClassOf(s))) then Granted else Refused
    ensures b in RWX_BITS && s.isRoot ==>
              FirstMatch(ModeAces(mode), s, b) ==
              if exists c: Class :: b in PermBits(ModePerms(mode, c)) then Granted else Undecided
  {
    var o, g, e := ModePerms(mode, OwnerClass), ModePerms(mode, GroupClass), ModePerms(mode, OtherClass);
    ThreePairs(o, g, e, s, b);
    forall c: Class ensures ModePerms(mode, c) == o || ModePerms(mode, c) == g || ModePerms(mode, c) == e {
      match c case OwnerClass => case GroupClass => case OtherClass =>
    }
  }

  lemma PermBitsOrder(p: set<Rwx>, q: set<Rwx>)
    ensures PermBits(p) <= PermBits(q) <==> p <= q
  {
    if PermBits(p) <= PermBits(q) {
      forall r | r in p ensures r in q {
        assert (if r == R then ReadData else if r == W then WriteData else Execute) in PermBits(p);
      }
    }
  }

  lemma RootMeaning(mode: bv16, s: Subject, ask: set<Rwx>)
    requires s.isRoot
    ensures AclGrants(ModeAces(mode), s, PermBits(ask)) <==> ModeGrants(mode, s, ask)
  {
    assert Needed(PermBits(ask), s) == if s.isDir || X !in ask then {} else {Execute};
    if !s.isDir && X in ask {
      ModeAcesMatch(mode, s, Execute);
      forall c: Class ensures Execute in PermBits(ModePerms(mode, c)) <==> X in ModePerms(mode, c) {}
    }
  }

  lemma UserMeaning(mode: bv16, s: Subject, ask: set<Rwx>)
    requires !s.isRoot
    ensures AclGrants(ModeAces(mode), s, PermBits(ask)) <==> ModeGrants(mode, s, ask)
  {
    assert Needed(PermBits(ask), s) == PermBits(ask);
    var have := PermBits(ModePerms(mode, ClassOf(s)));
    forall b <- PermBits(ask) ensures FirstMatch(ModeAces(mode), s, b) == Granted <==> b in have {
      ModeAcesMatch(mode, s, b);
    }
    PermBitsOrder(ask, ModePerms(mode, ClassOf(s)));
  }

  // Compiling a mode to ACEs preserves its meaning, for every caller and request.
  lemma ModeAclMeaning(mode: bv16, s: Subject, ask: set<Rwx>)
    ensures AclGrants(ModeAces(mode), s, PermBits(ask)) <==> ModeGrants(mode, s, ask)
  {
    if s.isRoot {
      RootMeaning(mode, s, ask);
    } else {
      UserMeaning(mode, s, ask);
    }
  }

  // ------------------------------------------------------------------ chmod

  // IS_FSAL_ACE_SPECIAL looks at the number alone, not at the special-id flag.
  predicate LooksSpecial(a: Ace) {
    a.who == SPECIAL_OWNER || a.who == SPECIAL_GROUP || a.who == SPECIAL_EVERYONE
  }

  predicate IsPerm(a: Ace) {
    a.kind.Allow? || a.kind.Deny?
  }

  function Strip(a: Ace): Ace {
    if LooksSpecial(a) then a.(perm := a.perm - RWX_BITS) else a
  }

  // What one source entry turns into.
  function Rewrite(a: Ace): seq<Ace> {
    if InheritOnly in a.flag || !IsPerm(a) then [a]
    else if a.flag * INHERIT_FLAGS != {} then
      [a.(flag := a.flag + {InheritOnly}), Strip(a.(flag := a.flag - INHERIT_FLAGS))]
    else [Strip(a)]
  }

  function Rewritten(sacl: seq<Ace>): seq<Ace> {
    if sacl == [] then [] else Rewritten(sacl[..|sacl| - 1]) + Rewrite(sacl[|sacl| - 1])
  }

  predicate NoModeGen(sacl: seq<Ace>) {
    forall a <- sacl :: ModeGen !in a.iflag
  }

  predicate OnlyModeGen(sacl: seq<Ace>) {
    forall a <- sacl :: ModeGen in a.iflag
  }

  function Chmod(sacl: seq<Ace>, mode: bv16): seq<Ace> {
    (if OnlyModeGen(sacl) then [] else Rewritten(sacl)) + ModeAces(mode)
  }

  // `Overrun` is a write past the end of the buffer.
  datatype ChmodResult = Unchanged | NewAcl(aces: seq<Ace>) | ServerFault | Overrun

  // Entries the first pass counts: mode-generated ones will be made anew.
  function Counted(sacl: seq<Ace>): nat {
    if sacl == [] then 0
    else Counted(sacl[..|sacl| - 1]) + if ModeGen in sacl[|sacl| - 1].iflag then 0 else |Rewrite(sacl[|sacl| - 1])|
  }

  // What the second pass leaves before its cursor: it also steps over the
  // entries it does not copy.
  function Filled(sacl: seq<Ace>): seq<Ace> {
    if sacl == [] then []
    else
      var last := sacl[|sacl| - 1];
      Filled(sacl[..|sacl| - 1]) + if ModeGen in last.iflag then [ZERO_ACE] else Rewrite(last)
  }

  // Every entry the second pass copies lies within a buffer of that length.
  predicate FillsWithin(sacl: seq<Ace>, length: nat) {
    sacl != [] ==>
      FillsWithin(sacl[..|sacl| - 1], length) && (ModeGen in sacl[|sacl| - 1].iflag || |Filled(sacl)| <= length)
  }

  // First pass: how many entries the copied part will take.
  method CountPass(sacl: seq<Ace>) returns (naces: nat)
    ensures naces == Counted(sacl)
  {
    naces := 0;
    for i := 0 to |sacl|
      invariant naces == Counted(sacl[..i])
    {
      assert sacl[..i + 1][..i] == sacl[..i];
      var sace := sacl[i];
      if ModeGen in sace.iflag {
        continue;
      }
      naces := naces + 1;
      if InheritOnly in sace.flag {
        continue;
      }
      if !IsPerm(sace) {
        continue;
      }
      if sace.flag * INHERIT_FLAGS != {} {
        naces := naces + 1;
      }
    }
    assert sacl[..|sacl|] == sacl;
  }

  lemma Spliced(before: seq<Ace>, after: seq<Ace>, at: nat, r: seq<Ace>)
    requires |after| == |before| && at + |r| <= |before|
    requires forall k | 0 <= k < |r| :: after[at + k] == r[k]
    requires forall k | 0 <= k < |before| && !(at <= k < at + |r|) :: after[k] == before[k]
    ensures after == before[..at] + r + before[at + |r|..]
  {
    assert after[at..at + |r|] == r;
    assert after[..at] == before[..at];
    assert after[at + |r|..] == before[at + |r|..];
  }

  // One turn of the second pass: `dace` is the output cursor.
  method CopyAce(buf: array<Ace>, at: nat, sace: Ace) returns (dace: nat)
    requires at + |Rewrite(sace)| <= buf.Length
    modifies buf
    ensures dace == at + |Rewrite(sace)|
    ensures buf[..] == old(buf[..at]) + Rewrite(sace) + old(buf[dace..])
  {
    ghost var r := Rewrite(sace);
    dace := at;
    buf[dace] := sace;
    if InheritOnly !in buf[dace].flag && IsPerm(buf[dace]) {
      if buf[dace].flag * INHERIT_FLAGS != {} {
        buf[dace] := buf[dace].(flag := buf[dace].flag + {InheritOnly});
        dace := dace + 1;
        buf[dace] := sace;
        buf[dace] := buf[dace].(flag := buf[dace].flag - INHERIT_FLAGS);
      }
      if LooksSpecial(buf[dace]) {
        buf[dace] := buf[dace].(perm := buf[dace].perm - RWX_BITS);
      }
    }
    dace := dace + 1;
    assert buf[at] == r[0] && (|r| == 2 ==> buf[at + 1] == r[1]);
    Spliced(old(buf[..]), buf[..], at, r);
  }

  // A zeroed buffer with `s` laid over its front.
  predicate Holds(buf: seq<Ace>, s: seq<Ace>) {
    forall k | 0 <= k < |buf| :: buf[k] == if k < |s| then s[k] else ZERO_ACE
  }

  lemma HoldsMore(before: seq<Ace>, after: seq<Ace>, s: seq<Ace>, more: seq<Ace>)
    requires Holds(before, s) && |s| + |more| <= |before|
    requires after == before[..|s|] + more + before[|s| + |more|..]
    ensures Holds(after, s + more)
  {
  }

  // Second pass: copy and rewrite, up to the place of the generated entries.
  // It stops where it would leave the buffer.
  method FillPass(sacl: seq<Ace>, buf: array<Ace>) returns (inside: bool, dace: nat, filled: nat)
    requires Holds(buf[..], [])
    modifies buf
    ensures inside <==> FillsWithin(sacl, buf.Length)
    ensures inside ==> dace == |Filled(sacl)| && filled == Counted(sacl) && Holds(buf[..], Filled(sacl))
  {
    inside, filled, dace := true, 0, 0;
    for i := 0 to |sacl|
      invariant inside && FillsWithin(sacl[..i], buf.Length)
      invariant dace == |Filled(sacl[..i])| && filled == Counted(sacl[..i]) && Holds(buf[..], Filled(sacl[..i]))
    {
      assert sacl[..i + 1][..i] == sacl[..i];
      if ModeGen in sacl[i].iflag {
        dace := dace + 1;
        continue;
      }
      if dace + |Rewrite(sacl[i])| > buf.Length {
        WithinPrefix(sacl, i + 1, buf.Length);
        return false, dace, filled;
      }
      ghost var before := buf[..];
      var next := CopyAce(buf, dace, sacl[i]);
      HoldsMore(before, buf[..], Filled(sacl[..i]), Rewrite(sacl[i]));
      filled := filled + (next - dace);
      dace := next;
    }
    assert sacl[..|sacl|] == sacl;
  }

  lemma {:induction false} WithinPrefix(sacl: seq<Ace>, n: nat, length: nat)
    requires n <= |sacl|
    ensures FillsWithin(sacl, length) ==> FillsWithin(sacl[..n], length)
    decreases |sacl|
  {
    if n == |sacl| {
      assert sacl[..n] == sacl;
    } else {
      WithinPrefix(sacl[..|sacl| - 1], n, length);
      assert sacl[..|sacl| - 1][..n] == sacl[..n];
    }
  }

  // The generated entries take the last six places.
  method Generate(buf: array<Ace>, dace: nat, mode: bv16, ghost kept: seq<Ace>)
    requires dace == |kept| && dace + 6 == buf.Length && Holds(buf[..], kept)
    modifies buf
    ensures buf[..] == kept + ModeAces(mode)
  {
    assert buf[..dace] == kept;
    forall k | dace <= k < dace + 6 ensures buf[k] == ZERO_ACE {
      assert buf[..][k] == ZERO_ACE;
    }
    ModeGenSet(buf, dace, mode);
  }

  // `hasMode` is the ATTR_MODE bit of the attributes being set. The count pass
  // and the fill pass agree, so the server fault cannot happen; a mixture of
  // mode-generated and other entries makes the pass leave its buffer.
  method ModeToAcl(hasMode: bool, sacl: seq<Ace>, mode: bv16) returns (r: ChmodResult)
    ensures r == if !hasMode then Unchanged
                 else if NoModeGen(sacl) || OnlyModeGen(sacl) then NewAcl(Chmod(sacl, mode))
                 else Overrun
  {
    if !hasMode {
      return Unchanged;
    }
    StaysInsideIff(sacl);
    var naces := CountPass(sacl);
    if naces == 0 {
      var buf := new Ace[6](_ => ZERO_ACE);
      ModeGenSet(buf, 0, mode);
      assert buf[..] == ModeAces(mode);
      return NewAcl(buf[..]);
    }
    naces := naces + 6;
    var buf := new Ace[naces](_ => ZERO_ACE);
    var inside, dace, filled := FillPass(sacl, buf);
    if !inside {
      return Overrun;
    }
    if naces - filled != 6 {
      return ServerFault;
    }
    if dace + 6 > buf.Length {
      return Overrun;
    }
    FilledIsRewritten(sacl);
    Generate(buf, dace, mode, Rewritten(sacl));
    return NewAcl(buf[..]);
  }

  // ------------------------------------------------- staying inside the buffer

  lemma {:induction false} CursorVersusCount(sacl: seq<Ace>)
    ensures |Filled(sacl)| >= Counted(sacl)
    ensures |Filled(sacl)| == Counted(sacl) <==> NoModeGen(sacl)
    ensures Counted(sacl) == 0 <==> OnlyModeGen(sacl)
  {
    if sacl != [] {
      var front, last := sacl[..|sacl| - 1], sacl[|sacl| - 1];
      CursorVersusCount(front);
      assert sacl == front + [last];
    }
  }

  lemma {:induction false} FilledIsRewritten(sacl: seq<Ace>)
    ensures NoModeGen(sacl) ==> Filled(sacl) == Rewritten(sacl)
    ensures NoModeGen(sacl) ==> forall length: nat | |Rewritten(sacl)| <= length :: FillsWithin(sacl, length)
  {
    if sacl != [] {
      var front, last := sacl[..|sacl| - 1], sacl[|sacl| - 1];
      FilledIsRewritten(front);
      assert sacl == front + [last];
    }
  }

  // The pass keeps to the buffer it has sized: nothing to copy, or every copied
  // entry and then the six generated ones lie within it.
  predicate StaysInside(sacl: seq<Ace>) {
    Counted(sacl) == 0 || (FillsWithin(sacl, Counted(sacl) + 6) && |Filled(sacl)| + 6 <= Counted(sacl) + 6)
  }

  // chmod stays inside its buffer exactly when the source has no
  // mode-generated entry or nothing else.
  lemma StaysInsideIff(sacl: seq<Ace>)
    ensures StaysInside(sacl) <==> NoModeGen(sacl) || OnlyModeGen(sacl)
    ensures Counted(sacl) == 0 <==> OnlyModeGen(sacl)
    ensures Counted(sacl) <= |Filled(sacl)| && (|Filled(sacl)| <= Counted(sacl) <==> NoModeGen(sacl))
  {
    CursorVersusCount(sacl);
    FilledIsRewritten(sacl);
  }

  lemma RewriteKept(a: Ace)
    requires ModeGen !in a.iflag
    ensures NoModeGen(Rewrite(a)) && Rewrite(a) != []
  {
  }

  lemma NoModeGenConcat(a: seq<Ace>, b: seq<Ace>)
    ensures NoModeGen(a + b) <==> NoModeGen(a) && NoModeGen(b)
  {
    if NoModeGen(a + b) {
      forall x | x in a || x in b ensures ModeGen !in x.iflag {
        assert x in a + b;
      }
    }
  }

  lemma {:induction false} RewrittenKept(sacl: seq<Ace>)
    requires NoModeGen(sacl)
    ensures NoModeGen(Rewritten(sacl)) && (sacl != [] ==> Rewritten(sacl) != [])
  {
    if sacl != [] {
      var front, last := sacl[..|sacl| - 1], sacl[|sacl| - 1];
      assert sacl == front + [last];
      NoModeGenConcat(front, [last]);
      RewrittenKept(front);
      RewriteKept(last);
      NoModeGenConcat(Rewritten(front), Rewrite(last));
    }
  }

  // The input that occurs: what a chmod over an ACL of one's own leaves behind is
  // such a mixture, so the next chmod leaves its buffer.
  lemma SecondChmod(sacl: seq<Ace>, mode: bv16)
    requires sacl != [] && NoModeGen(sacl)
    ensures !StaysInside(Chmod(sacl, mode))
  {
    RewrittenKept(sacl);
    var kept, made := Rewritten(sacl), ModeAces(mode);
    assert sacl[0] in sacl;
    assert Chmod(sacl, mode) == kept + made;
    assert kept[0] in kept + made && made[0] in kept + made;
    StaysInsideIff(kept + made);
  }

  // -------------------------------------------------------- meaning of chmod

  function NamedOnly(sacl: seq<Ace>): seq<Ace> {
    if sacl == [] then []
    else NamedOnly(sacl[..|sacl| - 1]) + if LooksSpecial(sacl[|sacl| - 1]) then [] else [sacl[|sacl| - 1]]
  }

  lemma RewriteMatch(a: Ace, s: Subject, b: Bit)
    ensures FirstMatch(Rewrite(a), s, b) ==
            if b in RWX_BITS && LooksSpecial(a) then Undecided else FirstMatch([a], s, b)
  {
    FirstMatchSingle(a, s, b);
    var r := Rewrite(a);
    if |r| == 2 {
      assert r == [r[0]] + [r[1]];
      FirstMatchConcat([r[0]], [r[1]], s, b);
      FirstMatchSingle(r[0], s, b);
      FirstMatchSingle(r[1], s, b);
    } else {
      assert r == [r[0]];
      FirstMatchSingle(r[0], s, b);
    }
  }

  lemma {:induction false} RewrittenMatch(sacl: seq<Ace>, s: Subject, b: Bit)
    ensures FirstMatch(Rewritten(sacl), s, b) == FirstMatch(if b in RWX_BITS then NamedOnly(sacl) else sacl, s, b)
  {
    if sacl != [] {
      var front, last := sacl[..|sacl| - 1], sacl[|sacl| - 1];
      RewrittenMatch(front, s, b);
      RewriteMatch(last, s, b);
      FirstMatchConcat(Rewritten(front), Rewrite(last), s, b);
      assert sacl == front + [last];
      FirstMatchConcat(front, [last], s, b);
      FirstMatchConcat(NamedOnly(front), if LooksSpecial(last) then [] else [last], s, b);
    }
  }

  // chmod leaves every other permission as it was, and decides read, write,
  // append and execute by the named entries first and the new mode after them.
  lemma ChmodMeaning(sacl: seq<Ace>, mode: bv16, s: Subject, b: Bit)
    requires NoModeGen(sacl)
    ensures b !in RWX_BITS ==> FirstMatch(Chmod(sacl, mode), s, b) == FirstMatch(sacl, s, b)
    ensures b in RWX_BITS ==> FirstMatch(Chmod(sacl, mode), s, b) ==
                              Override(FirstMatch(NamedOnly(sacl), s, b), FirstMatch(ModeAces(mode), s, b))
  {
    assert sacl != [] ==> sacl[0] in sacl;
    assert Chmod(sacl, mode) == Rewritten(sacl) + ModeAces(mode);
    FirstMatchConcat(Rewritten(sacl), ModeAces(mode), s, b);
    RewrittenMatch(sacl, s, b);
    ModeAcesMatch(mode, s, b);
  }

  lemma {:induction false} NoNamed(sacl: seq<Ace>)
    requires forall a <- sacl :: LooksSpecial(a)
    ensures NamedOnly(sacl) == []
  {
    if sacl != [] {
      assert forall a <- sacl[..|sacl| - 1] :: a in sacl;
      NoNamed(sacl[..|sacl| - 1]);
      assert sacl[|sacl| - 1] in sacl;
    }
  }

  // Over an ACL of OWNER@, GROUP@ and EVERYONE@ entries, the new mode alone
  // decides read, write and execute.
  lemma ChmodSetsMode(sacl: seq<Ace>, mode: bv16, s: Subject, ask: set<Rwx>)
    requires NoModeGen(sacl) && forall a <- sacl :: LooksSpecial(a)
    ensures AclGrants(Chmod(sacl, mode), s, PermBits(ask)) <==> ModeGrants(mode, s, ask)
  {
    NoNamed(sacl);
    forall b <- Needed(PermBits(ask), s)
      ensures FirstMatch(Chmod(sacl, mode), s, b) == FirstMatch(ModeAces(mode), s, b)
    {
      ChmodMeaning(sacl, mode, s, b);
    }
    ModeAclMeaning(mode, s, ask);
  }

  // The entries that are not OWNER@, GROUP@ or EVERYONE@ by their flag.
  function TrulyNamed(sacl: seq<Ace>): seq<Ace> {
    if sacl == [] then []
    else
      var last := sacl[|sacl| - 1];
      TrulyNamed(sacl[..|sacl| - 1]) + if SpecialId in last.iflag && LooksSpecial(last) then [] else [last]
  }

  // No user or group id reads as one of the three special numbers.
  predicate NoClash(sacl: seq<Ace>) {
    forall a <- sacl :: SpecialId !in a.iflag ==> !LooksSpecial(a)
  }

  lemma {:induction false} NamedOnlyIff(sacl: seq<Ace>)
    ensures |NamedOnly(sacl)| <= |TrulyNamed(sacl)|
    ensures |NamedOnly(sacl)| == |TrulyNamed(sacl)| <==> NoClash(sacl)
    ensures NamedOnly(sacl) == TrulyNamed(sacl) <==> NoClash(sacl)
  {
    if sacl != [] {
      var front, last := sacl[..|sacl| - 1], sacl[|sacl| - 1];
      NamedOnlyIff(front);
      assert sacl == front + [last];
    }
  }

  // The entries of named users and groups decide read, write, append and execute
  // before the new mode does, whenever no id clashes with a special number.
  lemma NamedDecideFirst(sacl: seq<Ace>, mode: bv16, s: Subject, b: Bit)
    requires NoModeGen(sacl) && NoClash(sacl) && b in RWX_BITS
    ensures FirstMatch(Chmod(sacl, mode), s, b) ==
            Override(FirstMatch(TrulyNamed(sacl), s, b), FirstMatch(ModeAces(mode), s, b))
  {
    NamedOnlyIff(sacl);
    ChmodMeaning(sacl, mode, s, b);
  }

  // A named user keeps its own grant through chmod exactly when its uid does
  // not collide with a special-who number.
  lemma NamedGrantSurvivesIff(uid: nat, other: nat)
    requires uid != other
    ensures var s := Subject(Creds(uid, other, []), other, uid, false, false);
            var sacl := [Ace(Allow, {ReadData}, {}, {}, uid)];
            && FirstMatch(sacl, s, ReadData) == Granted
            && (FirstMatch(Chmod(sacl, 0), s, ReadData) == Granted <==>
                uid != SPECIAL_OWNER && uid != SPECIAL_GROUP && uid != SPECIAL_EVERYONE)
  {
    var s := Subject(Creds(uid, other, []), other, uid, false, false);
    var a := Ace(Allow, {ReadData}, {}, {}, uid);
    FirstMatchSingle(a, s, ReadData);
    ChmodMeaning([a], 0, s, ReadData);
    assert [a][..0] == [];
    assert NamedOnly([a]) == if LooksSpecial(a) then [] else [a];
    ModeAcesMatch(0, s, ReadData);
  }
}
