/** The grace period: restarts under the lock, lifting decided without it
    (section 9.6.2 of RFC 7530). */
module Grace {

  // A thread inside nfs_try_lift_grace: it has read the period's start, then
  // decided to lift it, because its time was up or because every previous
  // client completed its reclaim. `seen` is the number of restarts at that point.
  datatype Lifter =
    | Reading(current: int)
    | TimedOut(current: int, at: int, seen: nat)
    | Reclaimed(current: int, at: int, seen: nat)

  // `start` is current_grace, 0 when not in grace; `restarts` and `lastStart`
  // record the starts that (re)opened a period.
  datatype Server = Server(
    start: int, clids: seq<nat>, count: int, completes: int, lifters: map<nat, Lifter>,
    now: int, restarts: nat, lastStart: int, period: nat, graceless: bool, nlm: bool)

  // What a start was called with: a server start, or an event of the cluster.
  datatype Event = Startup | JustGrace | ClearBlocked | ReleaseIp | TakeOver

  datatype Step =
    | Start(event: Event, found: seq<nat>)
    | Read(t: nat)
    | Decide(t: nat)
    | Lift(t: nat)
    | Complete
    | Tick(now: int)

  function Fresh(now: int, period: nat, graceless: bool, nlm: bool): Server {
    Server(0, [], 0, 0, map[], now, 0, 0, period, graceless, nlm)
  }

  function LiftLocked(s: Server, current: int): Server {
    if s.start == current then s.(start := 0) else s
  }

  // A start-up rereads the list unless a period is already open; a take-over adds to it.
  function Loaded(s: Server, event: Event, wasGrace: bool, found: seq<nat>): Server {
    if event.Startup? then
      if wasGrace then s else s.(clids := found, count := |found|, completes := 0)
    else if event.TakeOver? then s.(clids := found + s.clids, count := s.count + |found|)
    else s
  }

  function StartNext(s: Server, event: Event, found: seq<nat>): Server {
    if s.graceless then LiftLocked(s, s.start)
    else
      Loaded(s.(start := s.now, restarts := s.restarts + 1, lastStart := s.now), event, s.start != 0, found)
  }

  predicate Done(s: Server) {
    !s.nlm && s.completes == s.count
  }

  function DecideNext(s: Server, t: nat, current: int): Server {
    if Done(s) then s.(lifters := s.lifters[t := Reclaimed(current, s.now, s.restarts)])
    else if current + s.period > s.now then s.(lifters := s.lifters - {t})
    else s.(lifters := s.lifters[t := TimedOut(current, s.now, s.restarts)])
  }

  predicate CanLift(s: Server, t: nat) {
    t in s.lifters && !s.lifters[t].Reading?
  }

  predicate Next(s: Server, step: Step, e: Server) {
    match step
    case Start(event, found) => e == StartNext(s, event, found)
    case Read(t) =>
      t !in s.lifters && e == if s.start == 0 then s else s.(lifters := s.lifters[t := Reading(s.start)])
    case Decide(t) => t in s.lifters && s.lifters[t].Reading? && e == DecideNext(s, t, s.lifters[t].current)
    case Lift(t) => CanLift(s, t) && e == LiftLocked(s, s.lifters[t].current).(lifters := s.lifters - {t})
    case Complete => e == s.(completes := s.completes + 1)
    case Tick(now) => s.now <= now && e == s.(now := now)
  }

  // ------------------------------------------------------------- invariant

  predicate LifterOk(s: Server, l: Lifter) {
    match l
    case Reading(current) => 0 < current <= s.lastStart && current <= s.now
    case TimedOut(current, at, seen) =>
      && 0 < current && current + s.period <= at <= s.now && current <= s.lastStart
      && seen <= s.restarts && (seen < s.restarts ==> at <= s.lastStart)
    case Reclaimed(current, at, seen) =>
      && 0 < current <= at <= s.now && current <= s.lastStart
      && seen <= s.restarts && (seen < s.restarts ==> at <= s.lastStart)
  }

  predicate Inv(s: Server) {
    && s.now > 0 && s.lastStart <= s.now && s.count == |s.clids|
    && (s.start != 0 ==> s.start == s.lastStart > 0)
    && forall t <- s.lifters :: LifterOk(s, s.lifters[t])
  }

  lemma StartLifter(s: Server, event: Event, found: seq<nat>, e: Server, l: Lifter)
    requires s.now > 0 && s.lastStart <= s.now && e == StartNext(s, event, found) && LifterOk(s, l)
    ensures LifterOk(e, l) && e.lifters == s.lifters
  {
    assert e.lifters == s.lifters && e.period == s.period && e.now == s.now;
    assert s.lastStart <= e.lastStart && s.restarts <= e.restarts;
    assert s.restarts < e.restarts ==> e.lastStart == s.now;
  }

  // Steps that restart nothing.
  lemma LaterLifter(s: Server, e: Server, l: Lifter)
    requires LifterOk(s, l) && s.now <= e.now
    requires e.period == s.period && e.restarts == s.restarts && e.lastStart == s.lastStart
    ensures LifterOk(e, l)
  {
  }

  lemma LifterStep(s: Server, step: Step, e: Server, t: nat)
    requires s.now > 0 && s.lastStart <= s.now && (s.start != 0 ==> s.start == s.lastStart > 0)
    requires Next(s, step, e) && t in e.lifters && (t in s.lifters ==> LifterOk(s, s.lifters[t]))
    ensures LifterOk(e, e.lifters[t])
  {
    if step.Start? {
      assert t in s.lifters;
      StartLifter(s, step.event, step.found, e, s.lifters[t]);
    } else if t in s.lifters && e.lifters[t] == s.lifters[t] {
      LaterLifter(s, e, s.lifters[t]);
    }
  }

  lemma StepKeeps(s: Server, step: Step, e: Server)
    requires Inv(s) && Next(s, step, e)
    ensures Inv(e)
  {
    forall t <- e.lifters ensures LifterOk(e, e.lifters[t]) {
      LifterStep(s, step, e, t);
    }
  }

  predicate IsRun(servers: seq<Server>, steps: seq<Step>) {
    && |servers| == |steps| + 1 && servers[0].now > 0
    && servers[0] == Fresh(servers[0].now, servers[0].period, servers[0].graceless, servers[0].nlm)
    && forall i | 0 <= i < |steps| :: Next(servers[i], steps[i], servers[i + 1])
  }

  lemma {:induction false} RunInv(servers: seq<Server>, steps: seq<Step>, k: nat)
    requires IsRun(servers, steps) && k < |servers|
    ensures Inv(servers[k])
  {
    if k > 0 {
      RunInv(servers, steps, k - 1);
      StepKeeps(servers[k - 1], steps[k - 1], servers[k]);
    }
  }

  predicate Ends(s: Server, t: nat)
    requires CanLift(s, t)
  {
    s.start == s.lifters[t].current
  }

  /** A lift decided by timeout that takes effect ends a period whose own time is
      over: whichever restart came last, it lies a whole period back. With a
      positive period there was none since the decision. */
  lemma TimeoutLift(servers: seq<Server>, steps: seq<Step>, k: nat, t: nat)
    requires IsRun(servers, steps) && k < |servers| && CanLift(servers[k], t) && servers[k].lifters[t].TimedOut?
    requires Ends(servers[k], t)
    ensures var s := servers[k];
            && s.lastStart + s.period <= s.now
            && (s.period > 0 ==> s.restarts == s.lifters[t].seen)
  {
    RunInv(servers, steps, k);
    assert LifterOk(servers[k], servers[k].lifters[t]);
  }

  /** Any restart after the decision defeats the lift: the compare fails. */
  lemma RestartSurvives(servers: seq<Server>, steps: seq<Step>, k: nat, t: nat)
    requires IsRun(servers, steps) && k < |steps| && steps[k] == Lift(t) && CanLift(servers[k], t)
    requires servers[k].lifters[t].TimedOut? && servers[k].period > 0
    requires servers[k].restarts > servers[k].lifters[t].seen
    ensures servers[k + 1].start == servers[k].start
  {
    assert Next(servers[k], steps[k], servers[k + 1]);
    RunInv(servers, steps, k);
    assert LifterOk(servers[k], servers[k].lifters[t]);
  }

  // A lift ends a period that was restarted after the decision to lift.
  predicate Cancels(s: Server, t: nat, e: Server)
    requires CanLift(s, t)
  {
    e.start != s.start && s.restarts > s.lifters[t].seen
  }

  /** A lift decided because all reclaims are complete has no such guard: it cancels
      a restart made after its decision exactly when the open period is a restart
      within the second whose start it read; its decision then fell into that
      second too. */
  lemma ReclaimCancelsIff(servers: seq<Server>, steps: seq<Step>, k: nat, t: nat)
    requires IsRun(servers, steps) && k < |steps| && steps[k] == Lift(t) && CanLift(servers[k], t)
    requires servers[k].lifters[t].Reclaimed?
    ensures var s := servers[k];
            && (Cancels(s, t, servers[k + 1]) <==>
                s.restarts > s.lifters[t].seen && s.start != 0 && s.lastStart == s.lifters[t].current)
            && (Cancels(s, t, servers[k + 1]) ==> s.lifters[t].at == s.lifters[t].current)
  {
    assert Next(servers[k], steps[k], servers[k + 1]);
    RunInv(servers, steps, k);
    assert LifterOk(servers[k], servers[k].lifters[t]);
  }

  /** So no lift ever cancels a later restart if it was decided in a later second
      than the start it read, whatever it was decided by. */
  lemma LateDecisionSafe(servers: seq<Server>, steps: seq<Step>, k: nat, t: nat)
    requires IsRun(servers, steps) && k < |steps| && steps[k] == Lift(t) && CanLift(servers[k], t)
    requires servers[k].lifters[t].at > servers[k].lifters[t].current
    ensures !Cancels(servers[k], t, servers[k + 1])
  {
    if servers[k].lifters[t].Reclaimed? {
      ReclaimCancelsIff(servers, steps, k, t);
    } else {
      assert Next(servers[k], steps[k], servers[k + 1]);
      RunInv(servers, steps, k);
      assert LifterOk(servers[k], servers[k].lifters[t]);
    }
  }

  /** The run that shows it: no client to wait for, a lift decided, a restart in
      the same second, and the lift ends the restarted period at once. */
  lemma SameSecondRestart(now: int, period: nat, client: nat) returns (servers: seq<Server>, steps: seq<Step>)
    requires now > 0 && period > 0
    ensures IsRun(servers, steps) && |steps| == 5 && steps[3] == Start(TakeOver, [client])
    ensures CanLift(servers[4], 0) && Cancels(servers[4], 0, servers[5])
    ensures servers[4].start != 0 && servers[5].start == 0 && servers[5].count == 1 && servers[5].now == now
  {
    var s0 := Fresh(now, period, false, false);
    steps := [Start(Startup, []), Read(0), Decide(0), Start(TakeOver, [client]), Lift(0)];
    var s1 := StartNext(s0, Startup, []);
    var s2 := s1.(lifters := map[0 := Reading(now)]);
    var s3 := s2.(lifters := map[0 := Reclaimed(now, now, 1)]);
    var s4 := StartNext(s3, TakeOver, [client]);
    var s5 := s4.(start := 0, lifters := map[]);
    servers := [s0, s1, s2, s3, s4, s5];
    assert s1.lifters[0 := Reading(now)] == s2.lifters;
    assert s2.lifters[0 := Reclaimed(now, now, 1)] == s3.lifters;
    assert s4.lifters - {0} == s5.lifters;
    assert [client] + s3.clids == [client];
    forall i | 0 <= i < |steps| ensures Next(servers[i], steps[i], servers[i + 1]) {
      assert i == 0 || i == 1 || i == 2 || i == 3 || i == 4;
    }
  }

  // ------------------------------------------------------------- the object

  class Recovery {
    var start: int
    var clids: seq<nat>
    var count: int
    var completes: int
    ghost var lifters: map<nat, Lifter>
    ghost var now: int
    ghost var restarts: nat
    ghost var lastStart: int
    const period: nat
    const graceless: bool
    const nlm: bool

    ghost function View(): Server
      reads this
    {
      Server(start, clids, count, completes, lifters, now, restarts, lastStart, period, graceless, nlm)
    }

    constructor (time: int, period: nat, graceless: bool, nlm: bool)
      ensures View() == Fresh(time, period, graceless, nlm)
    {
      start, clids, count, completes := 0, [], 0, 0;
      lifters, now, restarts, lastStart := map[], time, 0, 0;
      this.period, this.graceless, this.nlm := period, graceless, nlm;
    }

    method AddClid(name: nat)
      modifies this`clids, this`count
      ensures clids == [name] + old(clids) && count == old(count) + 1
    {
      clids := [name] + clids;
      count := count + 1;
    }

    // The count reaches zero with the list.
    method CleanupClids()
      requires count == |clids|
      modifies this`clids, this`count, this`completes
      ensures clids == [] && count == 0 && completes == 0
    {
      while clids != []
        invariant count == |clids|
        decreases |clids|
      {
        clids := clids[1..];
        count := count - 1;
      }
      assert count == 0;
      completes := 0;
    }

    // Read the client list kept on stable storage, `found` in the order of the list.
    method LoadClids(event: Event, found: seq<nat>)
      requires count == |clids|
      modifies this`clids, this`count, this`completes
      ensures clids == found + (if event.Startup? then [] else old(clids))
      ensures count == |clids| && completes == if event.Startup? then 0 else old(completes)
    {
      if event.Startup? {
        CleanupClids();
      }
      ghost var base := clids;
      var i := |found|;
      while i > 0
        invariant 0 <= i <= |found| && clids == found[i..] + base && count == |clids|
        invariant completes == if event.Startup? then 0 else old(completes)
      {
        i := i - 1;
        AddClid(found[i]);
        assert found[i..] == [found[i]] + found[i + 1..];
      }
    }

    method Lifting(current: int)
      modifies this`start
      ensures View() == LiftLocked(old(View()), current)
    {
      if start == current {
        start := 0;
      }
    }

    method StartGrace(event: Event, time: int, found: seq<nat>)
      requires time == now && count == |clids|
      modifies this
      ensures View() == StartNext(old(View()), event, found)
    {
      if graceless {
        Lifting(start);
        return;
      }
      var wasGrace := start != 0;
      start := time;
      restarts, lastStart := restarts + 1, now;
      if event.Startup? {
        if !wasGrace {
          LoadClids(event, found);
        }
      } else if event.TakeOver? {
        LoadClids(event, found);
      }
      assert clids + [] == clids;
    }

    // The decision, from the value read before and the clock.
    method StillInGrace(current: int, time: int) returns (inGrace: bool)
      ensures inGrace <==> !Done(View()) && current + period > time
    {
      inGrace := true;
      if !nlm {
        inGrace := completes != count;
      }
      if inGrace {
        inGrace := current + period > time;
      }
    }
  }
}
