/** fsal_check_access_acl: the one-pass scan over a list of ACEs, proved against
    the per-bit first-match meaning. */
module AccessCheck {
  import opened AclTypes

  datatype Status = NoError | Access | Perm | NoAce

  const EPERM_BITS: set<Bit> := {WriteAttr, WriteAcl, WriteOwner}

  // `rfcAcl` is the ENABLE_RFC_ACL build option.
  function Denial(bits: set<Bit>, rfcAcl: bool): Status {
    if !rfcAcl && bits * EPERM_BITS != {} then Perm else Access
  }

  method CheckAceGroup(gid: nat, creds: Creds) returns (found: bool)
    ensures found <==> InGroup(gid, creds)
  {
    if creds.gid == gid {
      return true;
    }
    for i := 0 to |creds.groups|
      invariant gid !in creds.groups[..i]
    {
      if creds.groups[i] == gid {
        return true;
      }
    }
    return false;
  }

  // Bits granted before any entry is looked at.
  function Base(mask: set<Bit>, s: Subject): set<Bit> {
    if mask - {Continue} == {} then {}
    else if s.isRoot && s.isDir then mask
    else (if s.isRoot then mask - {Execute} else {}) + (if IsOwner(s) then mask * OWNER_BITS else {})
  }

  ghost function Decided(aces: seq<Ace>, s: Subject, bits: set<Bit>, v: Verdict): set<Bit> {
    set b | b in bits && FirstMatch(aces, s, b) == v
  }

  // The entry at `n` is the first one to refuse a needed bit.
  ghost predicate FirstRefusalAt(aces: seq<Ace>, s: Subject, needed: set<Bit>, n: nat) {
    && n < |aces|
    && Decided(aces[..n], s, needed, Refused) == {}
    && Decided(aces[..n + 1], s, needed, Refused) != {}
  }

  // One step of the scan, for one bit.
  lemma Extend(aces: seq<Ace>, s: Subject, b: Bit, n: nat)
    requires n < |aces|
    ensures FirstMatch(aces[..n + 1], s, b) ==
            if FirstMatch(aces[..n], s, b) != Undecided || !Decides(aces[n], s, b) then FirstMatch(aces[..n], s, b)
            else if aces[n].kind.Allow? then Granted else Refused
  {
    assert aces[..n + 1] == aces[..n] + [aces[n]];
    FirstMatchConcat(aces[..n], [aces[n]], s, b);
    FirstMatchSingle(aces[n], s, b);
  }

  // A verdict reached on a prefix is final.
  lemma Final(aces: seq<Ace>, s: Subject, b: Bit, m: nat, n: nat)
    requires m <= n <= |aces|
    ensures FirstMatch(aces[..m], s, b) != Undecided ==> FirstMatch(aces[..n], s, b) == FirstMatch(aces[..m], s, b)
  {
    assert aces[..n] == aces[..m] + aces[m..n];
    FirstMatchConcat(aces[..m], aces[m..n], s, b);
  }

  lemma FinalAll(aces: seq<Ace>, s: Subject, needed: set<Bit>, n: nat)
    requires n <= |aces|
    ensures forall b <- needed :: FirstMatch(aces[..n], s, b) != Undecided
                                  ==> FirstMatch(aces, s, b) == FirstMatch(aces[..n], s, b)
  {
    assert aces[..|aces|] == aces;
    forall b <- needed
      ensures FirstMatch(aces[..n], s, b) != Undecided ==> FirstMatch(aces, s, b) == FirstMatch(aces[..n], s, b)
    {
      Final(aces, s, b, n, |aces|);
    }
  }

  // What the scan knows after reading `seen`: `base` is what was granted up
  // front, and every bit asked for is in `base` or `needed`.
  datatype Scan = Scan(missing: set<Bit>, allowed: set<Bit>, denied: set<Bit>)

  ghost predicate Knows(seen: seq<Ace>, s: Subject, needed: set<Bit>, base: set<Bit>, st: Scan) {
    && st.missing == Decided(seen, s, needed, Undecided)
    && (forall b | b != Continue :: b in st.allowed <==> b in base || b in Decided(seen, s, needed, Granted))
    && Decided(seen, s, needed, Refused) <= st.denied
    && st.missing !! st.denied
    && (st.denied != {} ==> Decided(seen, s, needed, Refused) != {})
  }

  ghost predicate Split(mask: set<Bit>, needed: set<Bit>, base: set<Bit>) {
    mask - {Continue} <= base + needed && needed <= mask - {Continue} && needed !! base
  }

  lemma SkipStep(aces: seq<Ace>, i: nat, s: Subject, needed: set<Bit>, base: set<Bit>, st: Scan)
    requires i < |aces| && Knows(aces[..i], s, needed, base, st)
    requires forall b <- st.missing :: !Decides(aces[i], s, b)
    ensures Knows(aces[..i + 1], s, needed, base, st)
  {
    forall b: Bit | b in needed
      ensures FirstMatch(aces[..i + 1], s, b) == FirstMatch(aces[..i], s, b)
    {
      Extend(aces, s, b, i);
    }
    forall v: Verdict ensures Decided(aces[..i + 1], s, needed, v) == Decided(aces[..i], s, needed, v) {}
  }

  lemma AllowStep(aces: seq<Ace>, i: nat, s: Subject, mask: set<Bit>, needed: set<Bit>, base: set<Bit>, st: Scan)
    requires i < |aces| && Knows(aces[..i], s, needed, base, st) && Split(mask, needed, base)
    requires aces[i].kind.Allow? && Applicable(aces[i], s)
    ensures var tperm := aces[i].perm - st.denied;
            Knows(aces[..i + 1], s, needed, base,
                  Scan(st.missing - tperm * st.missing, st.allowed + mask * tperm, st.denied))
  {
    forall b: Bit | b in needed
      ensures FirstMatch(aces[..i + 1], s, b) ==
              if b in st.missing && b in aces[i].perm then Granted else FirstMatch(aces[..i], s, b)
    {
      Extend(aces, s, b, i);
    }
    assert Decided(aces[..i + 1], s, needed, Refused) == Decided(aces[..i], s, needed, Refused);
    assert Decided(aces[..i + 1], s, needed, Granted) ==
           Decided(aces[..i], s, needed, Granted) + aces[i].perm * st.missing;
  }

  lemma DenyStep(aces: seq<Ace>, i: nat, s: Subject, mask: set<Bit>, needed: set<Bit>, base: set<Bit>, st: Scan)
    requires i < |aces| && Knows(aces[..i], s, needed, base, st) && Split(mask, needed, base)
    requires aces[i].kind.Deny? && Applicable(aces[i], s) && !s.isRoot && aces[i].perm * st.missing != {}
    ensures var hit := aces[i].perm * st.missing;
            && Decided(aces[..i + 1], s, needed, Refused) == Decided(aces[..i], s, needed, Refused) + hit
            && Decided(aces[..i + 1], s, needed, Granted) == Decided(aces[..i], s, needed, Granted)
            && Knows(aces[..i + 1], s, needed, base,
                     Scan(st.missing - hit, st.allowed, st.denied + mask * aces[i].perm))
  {
    forall b: Bit | b in needed
      ensures FirstMatch(aces[..i + 1], s, b) ==
              if b in st.missing && b in aces[i].perm then Refused else FirstMatch(aces[..i], s, b)
    {
      Extend(aces, s, b, i);
    }
    assert aces[i].perm * st.missing <= mask * aces[i].perm;
  }

  // Bits the scan can still leave open or has settled, once it has stopped.
  lemma Settled(aces: seq<Ace>, i: nat, s: Subject, needed: set<Bit>)
    requires i <= |aces|
    requires i == |aces| || Decided(aces[..i], s, needed, Undecided) == {}
    ensures forall v: Verdict :: Decided(aces, s, needed, v) == Decided(aces[..i], s, needed, v)
  {
    FinalAll(aces, s, needed, i);
    assert aces[..|aces|] == aces;
    if i < |aces| {
      assert forall b <- needed :: b !in Decided(aces[..i], s, needed, Undecided);
    }
    forall v: Verdict ensures Decided(aces, s, needed, v) == Decided(aces[..i], s, needed, v) {}
  }

  lemma Trichotomy(aces: seq<Ace>, s: Subject, needed: set<Bit>)
    ensures Decided(aces, s, needed, Granted) == needed <==>
            Decided(aces, s, needed, Refused) == {} && Decided(aces, s, needed, Undecided) == {}
  {
    assert forall b <- needed :: b in Decided(aces, s, needed, Granted)
                                 || b in Decided(aces, s, needed, Refused) || b in Decided(aces, s, needed, Undecided);
  }

  // The status the reference meaning calls for.
  ghost predicate StatusFits(aces: seq<Ace>, s: Subject, mask: set<Bit>, needed: set<Bit>,
                             goOn: bool, rfcAcl: bool, status: Status) {
    var refused := Decided(aces, s, needed, Refused);
    var open := Decided(aces, s, needed, Undecided);
    if refused == {} && open == {} then status == NoError
    else if refused != {} && !goOn then
      exists n: nat :: && FirstRefusalAt(aces, s, needed, n)
                       && status == Denial(Decided(aces[..n + 1], s, needed, Refused), rfcAcl)
    else status == if Required in mask && open != {} then NoAce else Denial(open, rfcAcl)
  }

  // What a scan over `aces` may return.
  ghost predicate Outcome(aces: seq<Ace>, s: Subject, mask: set<Bit>, needed: set<Bit>, base: set<Bit>, goOn: bool,
                          rfcAcl: bool, status: Status, allowed: set<Bit>, denied: set<Bit>) {
    && (status.NoError? <==> Decided(aces, s, needed, Granted) == needed)
    && StatusFits(aces, s, mask, needed, goOn, rfcAcl, status)
    && allowed - {Continue} <= base + Decided(aces, s, needed, Granted)
    && (status.NoError? || goOn ==> allowed - {Continue} == base + Decided(aces, s, needed, Granted))
    && (goOn ==> (denied * needed) - allowed == Decided(aces, s, needed, Refused))
  }

  // A scan that stops at entry `i` has met the first refusal.
  lemma StoppedAt(aces: seq<Ace>, i: nat, s: Subject, needed: set<Bit>, base: set<Bit>, st: Scan)
    requires i < |aces| && Knows(aces[..i], s, needed, base, st) && st.denied == {}
    requires Decided(aces[..i + 1], s, needed, Refused) ==
             Decided(aces[..i], s, needed, Refused) + aces[i].perm * st.missing
    requires aces[i].perm * st.missing != {}
    ensures Decided(aces, s, needed, Refused) != {}
    ensures Decided(aces[..i], s, needed, Granted) <= Decided(aces, s, needed, Granted)
    ensures Decided(aces[..i + 1], s, needed, Refused) == aces[i].perm * st.missing
    ensures FirstRefusalAt(aces, s, needed, i)
  {
    FinalAll(aces, s, needed, i + 1);
    FinalAll(aces, s, needed, i);
    assert Decided(aces[..i + 1], s, needed, Refused) <= Decided(aces, s, needed, Refused);
  }

  lemma StoppedOutcome(aces: seq<Ace>, i: nat, s: Subject, mask: set<Bit>, needed: set<Bit>, base: set<Bit>,
                       rfcAcl: bool, st: Scan, denied: set<Bit>)
    requires i < |aces| && Knows(aces[..i], s, needed, base, st) && Split(mask, needed, base) && st.denied == {}
    requires aces[i].kind.Deny? && Applicable(aces[i], s) && !s.isRoot && aces[i].perm * st.missing != {}
    requires Continue !in base
    ensures Outcome(aces, s, mask, needed, base, false, rfcAcl,
                    Denial(aces[i].perm * st.missing, rfcAcl), st.allowed, denied)
  {
    DenyStep(aces, i, s, mask, needed, base, st);
    StoppedAt(aces, i, s, needed, base, st);
    Trichotomy(aces, s, needed);
  }

  // The status once the loop is over.
  function EndStatus(mask: set<Bit>, st: Scan, rfcAcl: bool): Status {
    if Required in mask && st.missing != {} then NoAce
    else if st.missing != {} || st.denied != {} then Denial(st.missing, rfcAcl)
    else NoError
  }

  lemma EndOutcome(aces: seq<Ace>, i: nat, s: Subject, mask: set<Bit>, needed: set<Bit>, base: set<Bit>, goOn: bool,
                   rfcAcl: bool, st: Scan)
    requires i <= |aces| && Knows(aces[..i], s, needed, base, st) && Split(mask, needed, base) && Continue !in base
    requires i == |aces| || st.missing == {}
    requires goOn || st.denied == {}
    ensures Outcome(aces, s, mask, needed, base, goOn, rfcAcl, EndStatus(mask, st, rfcAcl), st.allowed, st.denied)
  {
    Settled(aces, i, s, needed);
    Trichotomy(aces, s, needed);
  }

  // The loop over the entries, entered with something still missing.
  method ScanAces(aces: seq<Ace>, s: Subject, mask: set<Bit>, needed: set<Bit>, base: set<Bit>,
                  wantDenied: bool, rfcAcl: bool)
    returns (status: Status, allowed: set<Bit>, denied: set<Bit>)
    requires Split(mask, needed, base - {Continue}) && needed != {}
    ensures Outcome(aces, s, mask, needed, base - {Continue}, wantDenied && Continue in mask, rfcAcl,
                    status, allowed, denied)
    ensures !wantDenied ==> denied == {}
  {
    var missing := needed;
    allowed, denied := base, {};
    var i := 0;
    while i < |aces|
      invariant 0 <= i <= |aces|
      invariant Knows(aces[..i], s, needed, base - {Continue}, Scan(missing, allowed, denied))
      invariant missing != {}
      invariant (wantDenied && Continue in mask) || denied == {}
    {
      var ace := aces[i];
      ghost var st := Scan(missing, allowed, denied);
      if (ace.kind.Allow? || ace.kind.Deny?) && Applicable(ace, s) {
        if ace.kind.Allow? {
          AllowStep(aces, i, s, mask, needed, base - {Continue}, st);
          var tperm := ace.perm - denied;
          allowed := allowed + mask * tperm;
          missing := missing - tperm * missing;
          if missing == {} {
            i := i + 1;
            break;
          }
        } else if ace.perm * missing != {} && !s.isRoot {
          DenyStep(aces, i, s, mask, needed, base - {Continue}, st);
          if wantDenied {
            denied := denied + mask * ace.perm;
          }
          if !wantDenied || Continue !in mask {
            status := Denial(ace.perm * missing, rfcAcl);
            StoppedOutcome(aces, i, s, mask, needed, base - {Continue}, rfcAcl, st, denied);
            return;
          }
          missing := missing - ace.perm * missing;
          if missing == {} {
            i := i + 1;
            break;
          }
        } else {
          SkipStep(aces, i, s, needed, base - {Continue}, st);
        }
      } else {
        SkipStep(aces, i, s, needed, base - {Continue}, st);
      }
      i := i + 1;
    }
    EndOutcome(aces, i, s, mask, needed, base - {Continue}, wantDenied && Continue in mask, rfcAcl,
               Scan(missing, allowed, denied));
    if Required in mask && missing != {} {
      status := NoAce;
    } else if missing != {} || denied != {} {
      status := Denial(missing, rfcAcl);
    } else {
      status := NoError;
    }
  }

  // NoAcl when the object has no ACL.
  datatype AclOpt = NoAcl | Acl(aces: seq<Ace>)

  // `wantDenied` says whether the caller passed a `denied` mask to fill in.
  method CheckAccessAcl(acl: AclOpt, s: Subject, mask: set<Bit>, wantDenied: bool, rfcAcl: bool)
    returns (status: Status, allowed: set<Bit>, denied: set<Bit>)
    ensures acl.NoAcl? ==> status == NoAce && allowed == denied == {}
    // Granting is exactly the reference meaning, whatever the mode of the scan.
    ensures acl.Acl? ==> (status.NoError? <==> AclGrants(acl.aces, s, mask))
    // Which status: the first refusing entry picks it unless the scan goes on;
    // otherwise the bits no entry decided pick it.
    ensures acl.Acl? ==> StatusFits(acl.aces, s, mask, Needed(mask, s), wantDenied && Continue in mask, rfcAcl, status)
    // Nothing beyond the reference meaning is ever reported as allowed; the
    // report is complete when the scan is told to continue, and on success.
    ensures acl.Acl? ==> allowed - {Continue} <=
                         Base(mask, s) - {Continue} + Decided(acl.aces, s, Needed(mask, s), Granted)
    ensures acl.Acl? && (status.NoError? || (wantDenied && Continue in mask)) ==>
              allowed - {Continue} == Base(mask, s) - {Continue} + Decided(acl.aces, s, Needed(mask, s), Granted)
    // Among the needed bits not allowed, the denied ones are the refused ones.
    ensures acl.Acl? && wantDenied && Continue in mask ==>
              (denied * Needed(mask, s)) - allowed == Decided(acl.aces, s, Needed(mask, s), Refused)
    ensures !wantDenied ==> denied == {}
  {
    allowed, denied := {}, {};
    if acl.NoAcl? {
      return NoAce, {}, {};
    }
    Trichotomy(acl.aces, s, Needed(mask, s));
    var missing := mask - {Continue};
    if missing == {} {
      return NoError, {}, {};
    }
    if s.isRoot {
      if s.isDir {
        return NoError, mask, {};
      }
      missing := missing * {Execute};
      allowed := mask - {Execute};
      if missing == {} {
        return NoError, allowed, {};
      }
    }
    var isOwner := s.creds.uid == s.owner;
    if isOwner {
      allowed := allowed + mask * OWNER_BITS;
      missing := missing - {WriteAcl, ReadAcl};
      missing := missing - {WriteAttr, ReadAttr};
      if missing == {} {
        return NoError, allowed, {};
      }
    }
    assert missing == Needed(mask, s);
    assert allowed == Base(mask, s);
    status, allowed, denied := ScanAces(acl.aces, s, mask, missing, allowed, wantDenied, rfcAcl);
  }

  // ---------------------------------------------------------------- mode bits

  datatype Rwx = R | W | X

  const S_IRUSR: bv16 := 0x100
  const S_IWUSR: bv16 := 0x080
  const S_IXUSR: bv16 := 0x040
  const S_IRGRP: bv16 := 0x020
  const S_IWGRP: bv16 := 0x010
  const S_IXGRP: bv16 := 0x008
  const S_IROTH: bv16 := 0x004
  const S_IWOTH: bv16 := 0x002
  const S_IXOTH: bv16 := 0x001

  datatype Class = OwnerClass | GroupClass | OtherClass

  function ClassOf(s: Subject): Class {
    if IsOwner(s) then OwnerClass else if InGroup(s.group, s.creds) then GroupClass else OtherClass
  }

  function Named(bits: bv16, r: bv16, w: bv16, x: bv16): set<Rwx> {
    (if bits & r != 0 then {R} else {}) + (if bits & w != 0 then {W} else {}) + (if bits & x != 0 then {X} else {})
  }

  // The permissions a mode word gives to each class.
  function ModePerms(mode: bv16, c: Class): set<Rwx> {
    match c
    case OwnerClass => Named(mode, S_IRUSR, S_IWUSR, S_IXUSR)
    case GroupClass => Named(mode, S_IRGRP, S_IWGRP, S_IXGRP)
    case OtherClass => Named(mode, S_IROTH, S_IWOTH, S_IXOTH)
  }

  // The reference meaning of a mode: the superuser only needs somebody to have
  // execute on a file; everybody else is judged by exactly one class.
  predicate ModeGrants(mode: bv16, s: Subject, ask: set<Rwx>) {
    if s.isRoot then s.isDir || X !in ask || exists c: Class :: X in ModePerms(mode, c)
    else ask <= ModePerms(mode, ClassOf(s))
  }

  // Execution for the superuser: any class will do.
  lemma AnyExecute(mode: bv16)
    ensures mode & (S_IXOTH | S_IXUSR | S_IXGRP) != 0 <==>
            X in ModePerms(mode, OwnerClass) || X in ModePerms(mode, GroupClass) || X in ModePerms(mode, OtherClass)
  {
  }

  lemma ShiftedDown(mode: bv16)
    ensures Named(mode >> 6, S_IROTH, S_IWOTH, S_IXOTH) == ModePerms(mode, OwnerClass)
    ensures Named(mode >> 3, S_IROTH, S_IWOTH, S_IXOTH) == ModePerms(mode, GroupClass)
    ensures Named(mode, S_IROTH, S_IWOTH, S_IXOTH) == ModePerms(mode, OtherClass)
  {
  }

  method CheckAccessNoAcl(mode: bv16, s: Subject, ask: set<Rwx>)
    returns (status: Status, allowed: set<Rwx>, denied: set<Rwx>)
    ensures status == if ModeGrants(mode, s, ask) then NoError else Access
    // The request is split between the two masks, bit by bit.
    ensures ask != {} ==> allowed !! denied && allowed + denied == ask
    ensures forall b <- ask :: b in allowed <==> ModeGrants(mode, s, {b})
  {
    if ask == {} {
      return NoError, {}, {};
    }
    if s.isRoot {
      if s.isDir {
        return NoError, ask, {};
      }
      var rc := X !in ask || mode & (S_IXOTH | S_IXUSR | S_IXGRP) != 0;
      AnyExecute(mode);
      if !rc {
        return Access, ask - {X}, ask * {X};
      } else {
        return NoError, ask, {};
      }
    }
    ShiftedDown(mode);
    var m := mode;
    if s.creds.uid == s.owner {
      m := m >> 6;
    } else {
      var inGroup := CheckAceGroup(s.group, s.creds);
      if inGroup {
        m := m >> 3;
      }
    }
    var have := Named(m, S_IROTH, S_IWOTH, S_IXOTH);
    assert have == ModePerms(mode, ClassOf(s));
    return if ask <= have then NoError else Access, have * ask, ask - have;
  }
}
