/** The lease of a client: validity, reservation and renewal, over every run of
    its steps (section 9.5 of RFC 7530). */
module Lease {

  datatype Lease = Lease(expired: bool, reservations: nat, lastRenew: int)

  // A lease and the clock.
  datatype World = World(lease: Lease, now: int)

  // Seconds left, 0 if the lease is not valid.
  function Left(l: Lease, now: int, lifetime: nat): int {
    if l.expired then 0
    else if l.reservations != 0 then lifetime
    else if l.lastRenew + lifetime > now then l.lastRenew + lifetime - now
    else 0
  }

  predicate Valid(l: Lease, now: int, lifetime: nat) {
    Left(l, now, lifetime) != 0
  }

  // Validity from the data: the clock is past neither while a reservation is out
  // nor before a lifetime has gone by since the last renewal.
  lemma ValidMeans(l: Lease, now: int, lifetime: nat)
    requires l.lastRenew <= now
    ensures 0 <= Left(l, now, lifetime) <= lifetime
    ensures Valid(l, now, lifetime) <==>
              !l.expired && lifetime > 0 && (l.reservations > 0 || now - l.lastRenew < lifetime)
  {
  }

  datatype Step =
    | Tick(now: int)
    | Reserve
    | Update
    // CREATE_SESSION bumps the timer without looking at it.
    | Renew
    | Expire

  predicate Enabled(w: World, step: Step) {
    match step
    case Tick(now) => w.now <= now
    case Update => w.lease.reservations > 0
    case _ => true
  }

  function Apply(w: World, step: Step, lifetime: nat): World {
    match step
    case Tick(now) => w.(now := now)
    case Reserve =>
      if Valid(w.lease, w.now, lifetime) then w.(lease := w.lease.(reservations := w.lease.reservations + 1)) else w
    case Update =>
      var n := if w.lease.reservations > 0 then w.lease.reservations - 1 else 0;
      w.(lease := w.lease.(reservations := n, lastRenew := if n == 0 then w.now else w.lease.lastRenew))
    case Renew => w.(lease := w.lease.(lastRenew := w.now))
    case Expire => w.(lease := w.lease.(expired := true))
  }

  // The world after the first `k` steps.
  function After(w: World, steps: seq<Step>, lifetime: nat, k: nat): World
    requires k <= |steps|
  {
    if k == 0 then w else Apply(After(w, steps, lifetime, k - 1), steps[k - 1], lifetime)
  }

  predicate Legal(w: World, steps: seq<Step>, lifetime: nat) {
    forall k | 0 <= k < |steps| :: Enabled(After(w, steps, lifetime, k), steps[k])
  }

  predicate ValidAt(w: World, lifetime: nat) {
    Valid(w.lease, w.now, lifetime)
  }

  // The one step that brings an invalid lease back.
  predicate Revives(w: World, step: Step, lifetime: nat) {
    step.Renew? && !w.lease.expired && lifetime > 0
  }

  lemma StepFromInvalid(w: World, step: Step, lifetime: nat)
    requires !ValidAt(w, lifetime) && Enabled(w, step)
    ensures ValidAt(Apply(w, step, lifetime), lifetime) <==> Revives(w, step, lifetime)
  {
  }

  /** Lease invalidity is permanent exactly when no session is created on an id
      that has not been expired: along any legal run from an invalid lease, every
      later state is invalid if and only if no step revives it. */
  lemma PermanentIff(w: World, steps: seq<Step>, lifetime: nat)
    requires Legal(w, steps, lifetime) && !ValidAt(w, lifetime)
    ensures (forall k | 0 <= k <= |steps| :: !ValidAt(After(w, steps, lifetime, k), lifetime)) <==>
            (forall k | 0 <= k < |steps| :: !Revives(After(w, steps, lifetime, k), steps[k], lifetime))
  {
    if forall k | 0 <= k < |steps| :: !Revives(After(w, steps, lifetime, k), steps[k], lifetime) {
      forall k | 0 <= k <= |steps| ensures !ValidAt(After(w, steps, lifetime, k), lifetime) {
        StaysInvalid(w, steps, lifetime, k);
      }
    } else {
      FirstRevival(w, steps, lifetime, 0);
    }
  }

  lemma {:induction false} StaysInvalid(w: World, steps: seq<Step>, lifetime: nat, k: nat)
    requires Legal(w, steps, lifetime) && !ValidAt(w, lifetime) && k <= |steps|
    requires forall j | 0 <= j < |steps| :: !Revives(After(w, steps, lifetime, j), steps[j], lifetime)
    ensures !ValidAt(After(w, steps, lifetime, k), lifetime)
  {
    if k > 0 {
      StaysInvalid(w, steps, lifetime, k - 1);
      StepFromInvalid(After(w, steps, lifetime, k - 1), steps[k - 1], lifetime);
    }
  }

  // The first reviving step makes the lease valid.
  lemma FirstRevival(w: World, steps: seq<Step>, lifetime: nat, from: nat)
    requires Legal(w, steps, lifetime) && !ValidAt(w, lifetime) && from <= |steps|
    requires exists k :: from <= k < |steps| && Revives(After(w, steps, lifetime, k), steps[k], lifetime)
    requires !ValidAt(After(w, steps, lifetime, from), lifetime)
    ensures exists k :: 0 <= k <= |steps| && ValidAt(After(w, steps, lifetime, k), lifetime)
    decreases |steps| - from
  {
    var here := After(w, steps, lifetime, from);
    StepFromInvalid(here, steps[from], lifetime);
    if Revives(here, steps[from], lifetime) {
      assert ValidAt(After(w, steps, lifetime, from + 1), lifetime);
    } else {
      FirstRevival(w, steps, lifetime, from + 1);
    }
  }

  predicate NoRenew(steps: seq<Step>) {
    forall k | 0 <= k < |steps| :: !steps[k].Renew?
  }

  // What the reaper relies on across its gap.
  lemma GapHarmless(w: World, steps: seq<Step>, lifetime: nat)
    requires Legal(w, steps, lifetime) && !ValidAt(w, lifetime) && NoRenew(steps)
    ensures var e := After(w, steps, lifetime, |steps|);
            !ValidAt(e, lifetime) && (!e.lease.expired && lifetime > 0 ==> e.lease.reservations == 0)
  {
    StaysInvalid(w, steps, lifetime, |steps|);
  }

  /** A session created in the gap defeats it: the reaper then expires a lease that
      is valid, and possibly reserved. */
  lemma GapWithSession(now: int, lifetime: nat)
    requires lifetime > 0
    ensures var w := World(Lease(false, 0, now - lifetime), now);
            var steps := [Renew, Reserve];
            && Legal(w, steps, lifetime) && !ValidAt(w, lifetime)
            && ValidAt(After(w, steps, lifetime, 2), lifetime)
            && After(w, steps, lifetime, 2).lease.reservations == 1
  {
    var w := World(Lease(false, 0, now - lifetime), now);
    var steps := [Renew, Reserve];
    assert After(w, steps, lifetime, 0) == w;
    assert After(w, steps, lifetime, 1) == World(Lease(false, 0, now), now);
    assert After(w, steps, lifetime, 2) == World(Lease(false, 1, now), now);
  }

  // ------------------------------------------------------------- the object

  class ClientLease {
    var expired: bool
    var reservations: nat
    var lastRenew: int
    const lifetime: nat

    function View(): Lease
      reads this
    {
      Lease(expired, reservations, lastRenew)
    }

    constructor (now: int, lifetime: nat)
      ensures View() == Lease(false, 0, now) && this.lifetime == lifetime
    {
      expired, reservations, lastRenew := false, 0, now;
      this.lifetime := lifetime;
    }

    method ReserveLease(now: int) returns (ok: bool)
      modifies this`reservations
      ensures World(View(), now) == Apply(World(old(View()), now), Reserve, lifetime)
      ensures ok <==> Valid(old(View()), now, lifetime)
      ensures ok ==> View().reservations > 0 && Left(View(), now, lifetime) == if expired then 0 else lifetime
    {
      var valid := 0;
      if !expired {
        if reservations != 0 {
          valid := lifetime;
        } else if lastRenew + lifetime > now {
          valid := lastRenew + lifetime - now;
        }
      }
      ok := valid != 0;
      if ok {
        reservations := reservations + 1;
      }
    }

    method UpdateLease(now: int)
      requires reservations > 0
      modifies this`reservations, this`lastRenew
      ensures World(View(), now) == Apply(World(old(View()), now), Update, lifetime)
    {
      reservations := reservations - 1;
      if reservations == 0 {
        lastRenew := now;
      }
    }
  }
}
