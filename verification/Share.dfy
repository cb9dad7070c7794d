/** Share reservations: five counters that stand for the opens of a file. */
module Share {

  datatype Flag =
    Read | Write | Reclaim | ReopenFlag | AnyMode | Trunc | DenyRead | DenyWrite | DenyWriteMand

  type Open = set<Flag>

  datatype Counters = Counters(
    accessRead: int, accessWrite: int, denyRead: int, denyWrite: int, denyWriteMand: int)

  const NONE := Counters(0, 0, 0, 0, 0)

  // ------------------------------------------------- what a reservation means

  predicate DeniesWrite(o: Open) {
    DenyWrite in o || DenyWriteMand in o
  }

  // Neither access is denied by the other.
  predicate Compatible(a: Open, b: Open) {
    && !(Read in a && DenyRead in b) && !(DenyRead in a && Read in b)
    && !(Write in a && DeniesWrite(b)) && !(DeniesWrite(a) && Write in b)
  }

  // What a caller that bypasses advisory denies still sees of an open.
  function Seen(o: Open, bypass: bool): Open {
    if bypass then o - {DenyRead, DenyWrite} else o
  }

  predicate Peaceful(opens: seq<Open>) {
    forall i, j | 0 <= i < j < |opens| :: Compatible(opens[i], opens[j])
  }

  // --------------------------------------------------------- the counters

  function One(b: bool): int {
    if b then 1 else 0
  }

  function Weight(o: Open): Counters {
    Counters(One(Read in o), One(Write in o), One(DenyRead in o),
             One(DenyWrite in o) + One(DenyWriteMand in o), One(DenyWriteMand in o))
  }

  function Plus(a: Counters, b: Counters): Counters {
    Counters(a.accessRead + b.accessRead, a.accessWrite + b.accessWrite, a.denyRead + b.denyRead,
             a.denyWrite + b.denyWrite, a.denyWriteMand + b.denyWriteMand)
  }

  function Minus(a: Counters, b: Counters): Counters {
    Counters(a.accessRead - b.accessRead, a.accessWrite - b.accessWrite, a.denyRead - b.denyRead,
             a.denyWrite - b.denyWrite, a.denyWriteMand - b.denyWriteMand)
  }

  // How many of the opens carry a flag.
  function Count(opens: seq<Open>, f: Flag): nat {
    if opens == [] then 0 else Count(opens[..|opens| - 1], f) + One(f in opens[|opens| - 1])
  }

  function Tally(opens: seq<Open>): Counters {
    Counters(Count(opens, Read), Count(opens, Write), Count(opens, DenyRead),
             Count(opens, DenyWrite) + Count(opens, DenyWriteMand), Count(opens, DenyWriteMand))
  }

  lemma {:induction false} CountConcat(a: seq<Open>, b: seq<Open>, f: Flag)
    ensures Count(a + b, f) == Count(a, f) + Count(b, f)
  {
    if b == [] {
      assert a + b == a;
    } else {
      var n := |b| - 1;
      CountConcat(a, b[..n], f);
      assert (a + b)[..|a| + n] == a + b[..n];
    }
  }

  lemma CountSplit(opens: seq<Open>, i: nat, f: Flag)
    requires i < |opens|
    ensures Count(opens, f) == Count(opens[..i], f) + One(f in opens[i]) + Count(opens[i + 1..], f)
  {
    assert opens == opens[..i + 1] + opens[i + 1..];
    assert opens[..i + 1][..i] == opens[..i];
    CountConcat(opens[..i + 1], opens[i + 1..], f);
  }

  lemma CountReplace(opens: seq<Open>, i: nat, o: Open, f: Flag)
    requires i < |opens|
    ensures Count(opens[i := o], f) == Count(opens, f) + One(f in o) - One(f in opens[i])
  {
    CountSplit(opens, i, f);
    CountSplit(opens[i := o], i, f);
    assert opens[i := o][..i] == opens[..i] && opens[i := o][i + 1..] == opens[i + 1..];
  }

  lemma CountRemove(opens: seq<Open>, i: nat, f: Flag)
    requires i < |opens|
    ensures Count(opens[..i] + opens[i + 1..], f) == Count(opens, f) - One(f in opens[i])
  {
    CountSplit(opens, i, f);
    CountConcat(opens[..i], opens[i + 1..], f);
  }

  lemma TallyConcat(a: seq<Open>, b: seq<Open>)
    ensures Tally(a + b) == Plus(Tally(a), Tally(b))
  {
    CountConcat(a, b, Read);
    CountConcat(a, b, Write);
    CountConcat(a, b, DenyRead);
    CountConcat(a, b, DenyWrite);
    CountConcat(a, b, DenyWriteMand);
  }

  lemma TallyAdd(opens: seq<Open>, o: Open)
    ensures Tally(opens + [o]) == Minus(Plus(Tally(opens), Weight(o)), Weight({}))
  {
    assert (opens + [o])[..|opens|] == opens;
  }

  // Replacing one open adds the new weight and takes the old one off.
  lemma TallyReplace(opens: seq<Open>, i: nat, o: Open)
    requires i < |opens|
    ensures Tally(opens[i := o]) == Minus(Plus(Tally(opens), Weight(o)), Weight(opens[i]))
  {
    CountReplace(opens, i, o, Read);
    CountReplace(opens, i, o, Write);
    CountReplace(opens, i, o, DenyRead);
    CountReplace(opens, i, o, DenyWrite);
    CountReplace(opens, i, o, DenyWriteMand);
  }

  lemma TallyRemove(opens: seq<Open>, i: nat)
    requires i < |opens|
    ensures Tally(opens[..i] + opens[i + 1..]) == Minus(Plus(Tally(opens), Weight({})), Weight(opens[i]))
  {
    CountRemove(opens, i, Read);
    CountRemove(opens, i, Write);
    CountRemove(opens, i, DenyRead);
    CountRemove(opens, i, DenyWrite);
    CountRemove(opens, i, DenyWriteMand);
  }

  predicate Some(opens: seq<Open>, f: Flag) {
    exists i | 0 <= i < |opens| :: f in opens[i]
  }

  lemma SomeSplit(opens: seq<Open>, f: Flag)
    requires opens != []
    ensures Some(opens, f) <==> Some(opens[..|opens| - 1], f) || f in opens[|opens| - 1]
  {
    var n := |opens| - 1;
    if Some(opens[..n], f) {
      var i :| 0 <= i < n && f in opens[..n][i];
      assert f in opens[i];
    }
    if Some(opens, f) {
      var i :| 0 <= i < |opens| && f in opens[i];
      assert i < n ==> f in opens[..n][i];
    }
  }

  lemma {:induction false} CountMeans(opens: seq<Open>, f: Flag)
    ensures Count(opens, f) > 0 <==> Some(opens, f)
  {
    if opens != [] {
      CountMeans(opens[..|opens| - 1], f);
      SomeSplit(opens, f);
    }
  }

  // No counter is negative, and each is positive exactly when some open counts in it.
  lemma TallyMeans(opens: seq<Open>)
    ensures var t := Tally(opens);
            && NonNegative(t) && t.denyWriteMand <= t.denyWrite
            && (t.accessRead > 0 <==> Some(opens, Read)) && (t.accessWrite > 0 <==> Some(opens, Write))
            && (t.denyRead > 0 <==> Some(opens, DenyRead)) && (t.denyWriteMand > 0 <==> Some(opens, DenyWriteMand))
            && (t.denyWrite > 0 <==> SomeDeniesWrite(opens))
  {
    CountMeans(opens, Read);
    CountMeans(opens, Write);
    CountMeans(opens, DenyRead);
    CountMeans(opens, DenyWrite);
    CountMeans(opens, DenyWriteMand);
  }

  predicate NonNegative(c: Counters) {
    0 <= c.accessRead && 0 <= c.accessWrite && 0 <= c.denyRead && 0 <= c.denyWrite && 0 <= c.denyWriteMand
  }

  predicate SomeDeniesWrite(opens: seq<Open>) {
    Some(opens, DenyWrite) || Some(opens, DenyWriteMand)
  }

  predicate CompatibleWithAll(opens: seq<Open>, o: Open, bypass: bool) {
    forall i | 0 <= i < |opens| :: Compatible(o, Seen(opens[i], bypass))
  }

  // Compatibility with every open, said flag by flag.
  lemma AllMeans(opens: seq<Open>, o: Open, bypass: bool)
    ensures CompatibleWithAll(opens, o, bypass) <==>
              && !(Read in o && !bypass && Some(opens, DenyRead))
              && !(Write in o && (Some(opens, DenyWriteMand) || (!bypass && Some(opens, DenyWrite))))
              && !(DenyRead in o && Some(opens, Read))
              && !(DeniesWrite(o) && Some(opens, Write))
  {
    if !CompatibleWithAll(opens, o, bypass) {
      var i :| 0 <= i < |opens| && !Compatible(o, Seen(opens[i], bypass));
    }
  }

  predicate AllCompatible(a: seq<Open>, b: seq<Open>) {
    forall i, j | 0 <= i < |a| && 0 <= j < |b| :: Compatible(a[i], b[j])
  }

  lemma CrossMeans(a: seq<Open>, b: seq<Open>)
    ensures AllCompatible(a, b) <==>
              && !(Some(b, Read) && Some(a, DenyRead)) && !(Some(b, DenyRead) && Some(a, Read))
              && !(Some(b, Write) && SomeDeniesWrite(a)) && !(SomeDeniesWrite(b) && Some(a, Write))
  {
    if !AllCompatible(a, b) {
      var i, j :| 0 <= i < |a| && 0 <= j < |b| && !Compatible(a[i], b[j]);
    }
  }

  lemma PeacefulJoin(a: seq<Open>, b: seq<Open>)
    ensures Peaceful(a + b) <==> Peaceful(a) && Peaceful(b) && AllCompatible(a, b)
  {
    var c := a + b;
    if Peaceful(c) {
      forall i, j | 0 <= i < j < |a| ensures Compatible(a[i], a[j]) {
        assert a[i] == c[i] && a[j] == c[j];
      }
      forall i, j | 0 <= i < j < |b| ensures Compatible(b[i], b[j]) {
        assert b[i] == c[|a| + i] && b[j] == c[|a| + j];
      }
      forall i, j | 0 <= i < |a| && 0 <= j < |b| ensures Compatible(a[i], b[j]) {
        assert a[i] == c[i] && b[j] == c[|a| + j];
      }
    }
  }

  lemma JoinKeeps(a: seq<Open>, b: seq<Open>, both: seq<Open>)
    requires Peaceful(a) && Peaceful(b) && AllCompatible(a, b) && both == a + b
    ensures Peaceful(both) && Tally(both) == Plus(Tally(a), Tally(b))
  {
    PeacefulJoin(a, b);
    TallyConcat(a, b);
  }

  // ------------------------------------------------------------- the object

  class FileShare {
    var accessRead: int
    var accessWrite: int
    var denyRead: int
    var denyWrite: int
    var denyWriteMand: int
    // The opens the counters stand for.
    ghost var opens: seq<Open>

    function Value(): Counters
      reads this
    {
      Counters(accessRead, accessWrite, denyRead, denyWrite, denyWriteMand)
    }

    ghost predicate Valid()
      reads this
    {
      Value() == Tally(opens) && Peaceful(opens)
    }

    // Whatever other threads do while this one holds no lock.
    method Interfere()
      requires Valid()
      modifies this
      ensures Valid()
    {
    }

    constructor ()
      ensures Valid() && opens == []
    {
      accessRead, accessWrite, denyRead, denyWrite, denyWriteMand := 0, 0, 0, 0, 0;
      opens := [];
    }

    method UpdateCounters(was: Open, now: Open)
      modifies this`accessRead, this`accessWrite, this`denyRead, this`denyWrite, this`denyWriteMand
      ensures Value() == Minus(Plus(old(Value()), Weight(now)), Weight(was))
    {
      var accessReadInc := One(Read in now) - One(Read in was);
      var accessWriteInc := One(Write in now) - One(Write in was);
      var denyReadInc := One(DenyRead in now) - One(DenyRead in was);
      var denyWriteInc := One(DenyWrite in now) - One(DenyWrite in was)
                          + One(DenyWriteMand in now) - One(DenyWriteMand in was);
      var denyWriteMandInc := One(DenyWriteMand in now) - One(DenyWriteMand in was);
      accessRead := accessRead + accessReadInc;
      accessWrite := accessWrite + accessWriteInc;
      denyRead := denyRead + denyReadInc;
      denyWrite := denyWrite + denyWriteInc;
      denyWriteMand := denyWriteMand + denyWriteMandInc;
    }

    method CheckConflict(o: Open, bypass: bool) returns (ok: bool)
      requires Value() == Tally(opens)
      ensures ok <==> CompatibleWithAll(opens, o, bypass)
    {
      TallyMeans(opens);
      AllMeans(opens, o, bypass);
      if Read in o && denyRead > 0 && !bypass {
        return false;
      }
      if Write in o && (denyWriteMand > 0 || (!bypass && denyWrite > 0)) {
        return false;
      }
      if DenyRead in o && accessRead > 0 {
        return false;
      }
      if (DenyWrite in o || DenyWriteMand in o) && accessWrite > 0 {
        return false;
      }
      return true;
    }

    // Check, then register: as an open does under the object lock.
    method Add(o: Open) returns (ok: bool)
      requires Valid()
      modifies this
      ensures Valid()
      ensures ok <==> CompatibleWithAll(old(opens), o, false)
      ensures opens == if ok then old(opens) + [o] else old(opens)
    {
      ok := CheckConflict(o, false);
      if ok {
        StepKeepsPeace(opens, Added(o), opens + [o]);
        TallyAdd(opens, o);
        UpdateCounters({}, o);
        opens := opens + [o];
      }
    }

    // Give an open back; no counter drops below zero.
    method Remove(o: Open, ghost i: nat)
      requires Valid() && i < |opens| && opens[i] == o
      modifies this
      ensures Valid() && opens == old(opens)[..i] + old(opens)[i + 1..]
      ensures NonNegative(Value())
    {
      ghost var rest := opens[..i] + opens[i + 1..];
      StepKeepsPeace(opens, Removed(i), rest);
      TallyRemove(opens, i);
      TallyMeans(rest);
      UpdateCounters(o, {});
      opens := rest;
    }

    // Reopen checks the new mode against every open, its own old one included.
    method Reopen(was: Open, now: Open, ghost i: nat) returns (ok: bool)
      requires Valid() && i < |opens| && opens[i] == was
      modifies this
      ensures Valid()
      ensures ok <==> CompatibleWithAll(old(opens), now, false)
      ensures opens == if ok then old(opens)[i := now] else old(opens)
    {
      ok := CheckConflict(now, false);
      if ok {
        StepKeepsPeace(opens, Reopened(i, now), opens[i := now]);
        TallyReplace(opens, i, now);
        UpdateCounters(was, now);
        opens := opens[i := now];
      }
    }

    method CheckMerge(dupe: FileShare) returns (ok: bool)
      requires Value() == Tally(opens) && dupe.Value() == Tally(dupe.opens)
      ensures ok <==> AllCompatible(opens, dupe.opens)
    {
      TallyMeans(opens);
      TallyMeans(dupe.opens);
      CrossMeans(opens, dupe.opens);
      if dupe.accessRead > 0 && denyRead > 0 {
        return false;
      }
      if dupe.denyRead > 0 && accessRead > 0 {
        return false;
      }
      if dupe.accessWrite > 0 && denyWrite > 0 {
        return false;
      }
      if dupe.denyWrite > 0 && accessWrite > 0 {
        return false;
      }
      return true;
    }

    method AddCounters(dupe: FileShare)
      modifies this`accessRead, this`accessWrite, this`denyRead, this`denyWrite, this`denyWriteMand
      ensures Value() == Plus(old(Value()), old(dupe.Value()))
    {
      accessRead := accessRead + dupe.accessRead;
      accessWrite := accessWrite + dupe.accessWrite;
      denyRead := denyRead + dupe.denyRead;
      denyWrite := denyWrite + dupe.denyWrite;
      denyWriteMand := denyWriteMand + dupe.denyWriteMand;
    }

    method Merge(dupe: FileShare) returns (ok: bool)
      requires Valid() && dupe.Valid()
      modifies this
      ensures Valid()
      ensures ok <==> AllCompatible(old(opens), old(dupe.opens))
      ensures opens == if ok then old(opens) + old(dupe.opens) else old(opens)
    {
      ghost var both := opens + dupe.opens;
      ok := CheckMerge(dupe);
      if ok {
        JoinKeeps(opens, dupe.opens, both);
        AddCounters(dupe);
        opens := both;
      }
    }
  }

  // ------------------------------------------------------------------ runs

  datatype Step = Added(o: Open) | Removed(i: nat) | Reopened(i: nat, o: Open) | Merged(other: seq<Open>)

  // The steps that succeed, on the opens alone.
  predicate Next(opens: seq<Open>, step: Step, next: seq<Open>) {
    match step
    case Added(o) => CompatibleWithAll(opens, o, false) && next == opens + [o]
    case Removed(i) => i < |opens| && next == opens[..i] + opens[i + 1..]
    case Reopened(i, o) => i < |opens| && CompatibleWithAll(opens, o, false) && next == opens[i := o]
    case Merged(other) => Peaceful(other) && AllCompatible(opens, other) && next == opens + other
  }

  predicate IsRun(states: seq<seq<Open>>, steps: seq<Step>) {
    && |states| == |steps| + 1 && states[0] == []
    && forall i | 0 <= i < |steps| :: Next(states[i], steps[i], states[i + 1])
  }

  // How the code updates the counters in a step.
  function Recount(c: Counters, opens: seq<Open>, step: Step): Counters {
    match step
    case Added(o) => Minus(Plus(c, Weight(o)), Weight({}))
    case Removed(n) => if n < |opens| then Minus(Plus(c, Weight({})), Weight(opens[n])) else c
    case Reopened(n, o) => if n < |opens| then Minus(Plus(c, Weight(o)), Weight(opens[n])) else c
    case Merged(other) => Plus(c, Tally(other))
  }

  function CountersAfter(states: seq<seq<Open>>, steps: seq<Step>, k: nat): Counters
    requires |states| == |steps| + 1 && k < |states|
  {
    if k == 0 then NONE else Recount(CountersAfter(states, steps, k - 1), states[k - 1], steps[k - 1])
  }

  lemma StepKeepsTally(opens: seq<Open>, step: Step, next: seq<Open>)
    requires Next(opens, step, next)
    ensures Tally(next) == Recount(Tally(opens), opens, step)
  {
    match step {
      case Added(o) => TallyAdd(opens, o);
      case Removed(n) => TallyRemove(opens, n);
      case Reopened(n, o) => TallyReplace(opens, n, o);
      case Merged(other) => TallyConcat(opens, other);
    }
  }

  lemma StepKeepsPeace(opens: seq<Open>, step: Step, next: seq<Open>)
    requires Next(opens, step, next) && Peaceful(opens)
    ensures Peaceful(next)
  {
    if step.Merged? {
      PeacefulJoin(opens, step.other);
    }
  }

  /** Over every run the counters are the exact tally of the live opens, never
      negative, and all pairs of live opens are compatible. */
  lemma {:induction false} RunExact(states: seq<seq<Open>>, steps: seq<Step>, k: nat)
    requires IsRun(states, steps) && k < |states|
    ensures CountersAfter(states, steps, k) == Tally(states[k])
    ensures Peaceful(states[k]) && NonNegative(Tally(states[k]))
  {
    if k > 0 {
      RunExact(states, steps, k - 1);
      StepKeepsTally(states[k - 1], steps[k - 1], states[k]);
      StepKeepsPeace(states[k - 1], steps[k - 1], states[k]);
    }
  }
}
