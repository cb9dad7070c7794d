/** The reaper's walk over a client table: check, drop the locks, expire, start the
    partition again. */
module Reaper {
  import opened Lease

  // The ids of a partition whose lease is valid.
  function Live(part: seq<nat>, leases: map<nat, Lease>, now: int, lifetime: nat): seq<nat> {
    if part == [] then []
    else
      var rest := Live(part[1..], leases, now, lifetime);
      if part[0] in leases && Valid(leases[part[0]], now, lifetime) then [part[0]] + rest else rest
  }

  function Without(part: seq<nat>, id: nat): seq<nat> {
    if part == [] then []
    else if part[0] == id then Without(part[1..], id)
    else [part[0]] + Without(part[1..], id)
  }

  function Ids(part: seq<nat>): set<nat> {
    set x | x in part
  }

  predicate SameValidity(a: map<nat, Lease>, b: map<nat, Lease>, now: int, lifetime: nat) {
    a.Keys == b.Keys && forall x <- a :: Valid(a[x], now, lifetime) <==> Valid(b[x], now, lifetime)
  }

  lemma {:induction false} LiveSame(part: seq<nat>, a: map<nat, Lease>, b: map<nat, Lease>, now: int, lifetime: nat)
    requires SameValidity(a, b, now, lifetime)
    ensures Live(part, a, now, lifetime) == Live(part, b, now, lifetime)
  {
    if part != [] {
      LiveSame(part[1..], a, b, now, lifetime);
      assert part[0] in a <==> part[0] in b;
    }
  }

  lemma {:induction false} LiveWithout(part: seq<nat>, id: nat, leases: map<nat, Lease>, now: int, lifetime: nat)
    requires id in leases ==> !Valid(leases[id], now, lifetime)
    ensures Live(Without(part, id), leases, now, lifetime) == Live(part, leases, now, lifetime)
  {
    if part != [] {
      LiveWithout(part[1..], id, leases, now, lifetime);
      if part[0] != id {
        assert Without(part, id)[1..] == Without(part[1..], id);
      }
    }
  }

  lemma {:induction false} AllLive(part: seq<nat>, leases: map<nat, Lease>, now: int, lifetime: nat)
    requires AllValid(part, leases, now, lifetime)
    ensures Live(part, leases, now, lifetime) == part
  {
    if part != [] {
      AllLive(part[1..], leases, now, lifetime);
    }
  }

  lemma {:induction false} WithoutIds(part: seq<nat>, id: nat)
    ensures Ids(Without(part, id)) == Ids(part) - {id}
  {
    if part != [] {
      WithoutIds(part[1..], id);
      assert Ids(part) == Ids(part[1..]) + {part[0]};
      if part[0] != id {
        assert Ids(Without(part, id)) == Ids(Without(part[1..], id)) + {part[0]};
      }
    }
  }

  // The ids of a partition nobody has marked expired yet.
  function Unmarked(part: seq<nat>, leases: map<nat, Lease>): seq<nat> {
    if part == [] then []
    else
      var rest := Unmarked(part[1..], leases);
      if part[0] in leases && leases[part[0]].expired then rest else [part[0]] + rest
  }

  lemma {:induction false} UnmarkedIds(part: seq<nat>, leases: map<nat, Lease>)
    ensures forall x: nat :: x in Unmarked(part, leases) <==> x in part && !(x in leases && leases[x].expired)
  {
    if part != [] {
      UnmarkedIds(part[1..], leases);
      assert part == [part[0]] + part[1..];
    }
  }

  lemma {:induction false} LiveUnmarked(part: seq<nat>, leases: map<nat, Lease>, now: int, lifetime: nat)
    ensures Live(Unmarked(part, leases), leases, now, lifetime) == Live(part, leases, now, lifetime)
  {
    if part != [] {
      LiveUnmarked(part[1..], leases, now, lifetime);
      var rest := Unmarked(part[1..], leases);
      assert ([part[0]] + rest)[1..] == rest;
    }
  }

  predicate AllValid(part: seq<nat>, leases: map<nat, Lease>, now: int, lifetime: nat) {
    forall j | 0 <= j < |part| :: part[j] in leases && Valid(leases[part[j]], now, lifetime)
  }

  lemma {:induction false} ValidUnmarked(part: seq<nat>, leases: map<nat, Lease>, now: int, lifetime: nat)
    requires AllValid(part, leases, now, lifetime)
    ensures Unmarked(part, leases) == part
  {
    if part != [] {
      ValidUnmarked(part[1..], leases, now, lifetime);
    }
  }

  function Settle(parts: seq<seq<nat>>, leases: map<nat, Lease>): seq<seq<nat>> {
    seq(|parts|, i requires 0 <= i < |parts| => Unmarked(parts[i], leases))
  }

  predicate KnownIn(parts: seq<seq<nat>>, leases: map<nat, Lease>) {
    forall i | 0 <= i < |parts| :: Ids(parts[i]) <= leases.Keys
  }

  // An id another thread has marked expired has left its partition.
  predicate Settled(parts: seq<seq<nat>>, leases: map<nat, Lease>) {
    forall i | 0 <= i < |parts| :: forall x <- parts[i] :: x in leases && !leases[x].expired
  }

  lemma SettleSettles(parts: seq<seq<nat>>, leases: map<nat, Lease>)
    requires KnownIn(parts, leases)
    ensures Settled(Settle(parts, leases), leases) && KnownIn(Settle(parts, leases), leases)
    ensures forall i | 0 <= i < |parts| :: Ids(Settle(parts, leases)[i]) <= Ids(parts[i])
  {
    var e := Settle(parts, leases);
    forall i | 0 <= i < |parts|
      ensures Ids(e[i]) <= Ids(parts[i]) && forall x <- e[i] :: x in leases && !leases[x].expired
    {
      UnmarkedIds(parts[i], leases);
      assert forall x <- e[i] :: x in Ids(parts[i]);
    }
  }

  lemma KnownWithout(parts: seq<seq<nat>>, leases: map<nat, Lease>, i: nat, id: nat)
    requires KnownIn(parts, leases) && i < |parts| && id in leases
    ensures KnownIn(parts[i := Without(parts[i], id)], leases[id := leases[id].(expired := true)])
  {
    WithoutIds(parts[i], id);
  }

  lemma ExpiredSame(leases: map<nat, Lease>, id: nat, now: int, lifetime: nat)
    requires id in leases && !Valid(leases[id], now, lifetime)
    ensures SameValidity(leases, leases[id := leases[id].(expired := true)], now, lifetime)
  {
  }

  // Every partition has the same valid ids, and one that had only valid ids and
  // is not the one walked is untouched.
  predicate SameLive(parts: seq<seq<nat>>, leases: map<nat, Lease>, e: seq<seq<nat>>, f: map<nat, Lease>,
                     now: int, lifetime: nat, walked: nat) {
    && |e| == |parts| && SameValidity(leases, f, now, lifetime)
    && (forall m | 0 <= m < |parts| :: Live(e[m], f, now, lifetime) == Live(parts[m], leases, now, lifetime))
    && (forall m | 0 <= m < |parts| && m != walked && AllValid(parts[m], leases, now, lifetime) :: e[m] == parts[m])
  }

  lemma SettleSameLive(parts: seq<seq<nat>>, leases: map<nat, Lease>, now: int, lifetime: nat, i: nat)
    ensures SameLive(parts, leases, Settle(parts, leases), leases, now, lifetime, i)
  {
    var e := Settle(parts, leases);
    forall m | 0 <= m < |parts|
      ensures Live(e[m], leases, now, lifetime) == Live(parts[m], leases, now, lifetime)
              && (AllValid(parts[m], leases, now, lifetime) ==> e[m] == parts[m])
    {
      LiveUnmarked(parts[m], leases, now, lifetime);
      if AllValid(parts[m], leases, now, lifetime) {
        ValidUnmarked(parts[m], leases, now, lifetime);
      }
    }
  }

  lemma ExpireSameLive(parts: seq<seq<nat>>, leases: map<nat, Lease>, now: int, lifetime: nat, i: nat, id: nat)
    requires i < |parts| && id in leases && !Valid(leases[id], now, lifetime)
    ensures SameLive(parts, leases, parts[i := Without(parts[i], id)],
                     leases[id := leases[id].(expired := true)], now, lifetime, i)
  {
    var e, f := parts[i := Without(parts[i], id)], leases[id := leases[id].(expired := true)];
    ExpiredSame(leases, id, now, lifetime);
    forall m | 0 <= m < |parts| ensures Live(e[m], f, now, lifetime) == Live(parts[m], leases, now, lifetime) {
      LiveSame(e[m], leases, f, now, lifetime);
      if m == i {
        LiveWithout(parts[i], id, leases, now, lifetime);
      }
    }
  }

  lemma SameLiveTwice(parts: seq<seq<nat>>, a: map<nat, Lease>, e: seq<seq<nat>>, b: map<nat, Lease>,
                      g: seq<seq<nat>>, c: map<nat, Lease>, now: int, lifetime: nat, i: nat)
    requires SameLive(parts, a, e, b, now, lifetime, i) && SameLive(e, b, g, c, now, lifetime, i)
    ensures SameLive(parts, a, g, c, now, lifetime, i)
  {
    forall m | 0 <= m < |parts| && m != i && AllValid(parts[m], a, now, lifetime) ensures g[m] == parts[m] {
      assert e[m] == parts[m];
      assert AllValid(e[m], b, now, lifetime);
    }
  }

  // A lease as it was when it was found invalid, and when the reaper expired it.
  datatype Victim = Victim(found: World, at: World)

  class Table {
    var parts: seq<seq<nat>>
    var leases: map<nat, Lease>
    var now: int
    const lifetime: nat
    ghost var kills: seq<Victim>

    constructor (parts: seq<seq<nat>>, leases: map<nat, Lease>, now: int, lifetime: nat)
      ensures this.parts == parts && this.leases == leases && this.now == now && this.lifetime == lifetime
      ensures kills == []
    {
      this.parts, this.leases, this.now, this.lifetime, kills := parts, leases, now, lifetime, [];
    }

    ghost predicate Known()
      reads this
    {
      KnownIn(parts, leases)
    }

    // Other threads while no lock is held: each lease goes through a legal run, and ids
    // come and go. An id one of them has marked expired leaves the table and no id
    // is added, except that up to `budget` gaps may be otherwise; `left` is what
    // remains of them. `sessions` allows CREATE_SESSION among the steps; `quiet` is
    // when the others only finish what they have marked.
    method Gap(ghost sessions: bool, ghost quiet: bool, ghost budget: nat)
      returns (ghost did: map<nat, seq<Step>>, ghost left: nat)
      requires Known()
      modifies this`parts, this`leases, this`now
      ensures Known() && |parts| == |old(parts)| && did.Keys == old(leases).Keys <= leases.Keys && left <= budget
      ensures left == budget ==> Settled(parts, leases)
      ensures left == budget ==> forall i | 0 <= i < |parts| :: Ids(parts[i]) <= Ids(old(parts)[i])
      ensures forall x <- did ::
                && Legal(World(old(leases)[x], old(now)), did[x], lifetime) && (!sessions ==> NoRenew(did[x]))
                && World(leases[x], now) == After(World(old(leases)[x], old(now)), did[x], lifetime, |did[x]|)
      ensures quiet ==> parts == Settle(old(parts), old(leases)) && leases == old(leases) && now == old(now)
    {
      did, left := map x | x in leases :: [], budget;
      SettleSettles(parts, leases);
      parts := Settle(parts, leases);
    }

    // nfs_client_id_expire, as far as the table and the lease go: an id marked
    // before is left alone.
    method ExpireClient(i: nat, id: nat) returns (expired: bool)
      requires i < |parts| && id in leases
      modifies this`parts, this`leases
      ensures expired <==> !old(leases)[id].expired
      ensures !expired ==> parts == old(parts) && leases == old(leases)
      ensures expired ==> parts == old(parts)[i := Without(old(parts)[i], id)]
      ensures expired ==> leases == old(leases)[id := old(leases)[id].(expired := true)]
    {
      if leases[id].expired {
        return false;
      }
      leases := leases[id := leases[id].(expired := true)];
      parts := parts[i := Without(parts[i], id)];
      return true;
    }

    // The gap as the victim sees it.
    method GapFor(i: nat, id: nat, ghost sessions: bool, ghost quiet: bool, ghost budget: nat)
      returns (ghost left: nat)
      requires Known() && i < |parts| && id in leases && !Valid(leases[id], now, lifetime)
      modifies this`parts, this`leases, this`now
      ensures Known() && old(leases).Keys <= leases.Keys && |parts| == |old(parts)| && left <= budget
      ensures left == budget ==> Ids(parts[i]) <= Ids(old(parts)[i]) && (leases[id].expired ==> id !in parts[i])
      ensures Harmless(Victim(World(old(leases)[id], old(now)), World(leases[id], now)), lifetime, sessions)
      ensures quiet ==> parts == Settle(old(parts), old(leases)) && leases == old(leases) && now == old(now)
    {
      ghost var found, did := World(leases[id], now), map[];
      did, left := Gap(sessions, quiet, budget);
      assert id in did;
      if !sessions {
        GapHarmless(found, did[id], lifetime);
      }
    }

    // One victim: drop the locks, let the others run, expire it.
    method ExpireOne(i: nat, id: nat, ghost sessions: bool, ghost quiet: bool, ghost budget: nat)
      returns (ghost left: nat)
      requires Known() && i < |parts| && id in leases && !Valid(leases[id], now, lifetime)
      requires forall k <- kills :: Harmless(k, lifetime, sessions)
      modifies this
      ensures Known() && |parts| == |old(parts)| && left <= budget
      ensures left == budget ==> Ids(parts[i]) <= Ids(old(parts)[i]) - {id}
      ensures forall k <- kills :: Harmless(k, lifetime, sessions)
      ensures quiet ==> now == old(now) && SameLive(old(parts), old(leases), parts, leases, now, lifetime, i)
    {
      ghost var found, p0, l0 := World(leases[id], now), parts, leases;
      left := GapFor(i, id, sessions, quiet, budget);
      ghost var at, p1, l1 := World(leases[id], now), parts, leases;
      WithoutIds(parts[i], id);
      KnownWithout(parts, leases, i, id);
      var expired := ExpireClient(i, id);
      if expired {
        kills := kills + [Victim(found, at)];
      }
      if quiet {
        SettleSameLive(p0, l0, now, lifetime, i);
        if expired {
          ExpireSameLive(p1, l1, now, lifetime, i, id);
          SameLiveTwice(p0, l0, p1, l1, parts, leases, now, lifetime, i);
        }
      }
    }

    /** Every lease the reaper expires was found invalid, and unless a session was
        created meanwhile is still invalid and unreserved when it goes. The walk ends
        if ids are added, or marked ids stay hashed, in finitely many gaps, however
        many. If nobody else acts but to unhash what they have marked, exactly the ids
        with a valid lease remain. */
    method Reap(ghost sessions: bool, ghost quiet: bool, ghost budget: nat) returns (count: nat)
      requires Known() && kills == []
      modifies this
      ensures forall k <- kills :: Harmless(k, lifetime, sessions)
      ensures |parts| == |old(parts)|
      ensures quiet ==>
                forall i | 0 <= i < |parts| :: parts[i] == Live(old(parts)[i], old(leases), old(now), lifetime)
    {
      count := 0;
      var i := 0;
      ghost var left := budget;
      while i < |parts|
        invariant i <= |parts| == |old(parts)| && Known()
        invariant forall k <- kills :: Harmless(k, lifetime, sessions)
        invariant quiet ==> now == old(now) && SameValidity(old(leases), leases, now, lifetime)
        invariant quiet ==> forall m | 0 <= m < |parts| ::
                    Live(parts[m], leases, now, lifetime) == Live(old(parts)[m], old(leases), now, lifetime)
        invariant quiet ==> forall m | 0 <= m < i ::
                    && AllValid(parts[m], leases, now, lifetime)
                    && parts[m] == Live(old(parts)[m], old(leases), now, lifetime)
        decreases |old(parts)| - i
      {
        count, left := ReapPart(i, sessions, quiet, left, count);
        i := i + 1;
      }
    }

    method ReapPart(i: nat, ghost sessions: bool, ghost quiet: bool, ghost budget: nat, soFar: nat)
      returns (count: nat, ghost left: nat)
      requires Known() && i < |parts|
      requires forall k <- kills :: Harmless(k, lifetime, sessions)
      modifies this
      ensures Known() && |parts| == |old(parts)|
      ensures forall k <- kills :: Harmless(k, lifetime, sessions)
      ensures quiet ==> now == old(now) && SameLive(old(parts), old(leases), parts, leases, now, lifetime, i)
      ensures quiet ==> AllValid(parts[i], leases, now, lifetime) &&
                        parts[i] == Live(old(parts)[i], old(leases), now, lifetime)
    {
      count, left := soFar, budget;
      var j := 0;
      ghost var p0, l0 := parts, leases;
      while j < |parts[i]|
        invariant Known() && |parts| == |old(parts)| && j <= |parts[i]|
        invariant forall k <- kills :: Harmless(k, lifetime, sessions)
        invariant quiet ==> now == old(now) && SameLive(p0, l0, parts, leases, now, lifetime, i)
        invariant quiet ==> AllValid(parts[i][..j], leases, now, lifetime)
        decreases left, Ids(parts[i]), |parts[i]| - j
      {
        var id := parts[i][j];
        assert id in Ids(parts[i]);
        count := count + 1;
        if Valid(leases[id], now, lifetime) {
          j := j + 1;
        } else {
          ghost var p1, l1 := parts, leases;
          left := ExpireOne(i, id, sessions, quiet, left);
          if quiet {
            SameLiveTwice(p0, l0, p1, l1, parts, leases, now, lifetime, i);
          }
          j := 0;
        }
      }
      assert parts[i][..j] == parts[i];
      if quiet {
        AllLive(parts[i], leases, now, lifetime);
      }
    }
  }

  predicate Harmless(k: Victim, lifetime: nat, sessions: bool) {
    && !ValidAt(k.found, lifetime)
    && (!sessions ==>
          !ValidAt(k.at, lifetime) && (!k.at.lease.expired && lifetime > 0 ==> k.at.lease.reservations == 0))
  }
}
