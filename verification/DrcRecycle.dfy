/** Life of the per-connection caches: reference counts, the recycle queue and
    its expiry, at the granularity of the locks of nfs_dupreq.c. */
module DrcRecycle {

  // `calls`, `queued` and `leaked` record who holds the counted references:
  // requests on their call path, cached entries, and duplicate hits, which keep
  // their call-path reference for good.
  datatype Drc = Drc(
    addr: nat, refcnt: nat, recycle: bool, recycleTime: int, calls: nat, queued: nat, leaked: nat)

  // `xprts` is xp_u2 of the live transports; `putters` holds the threads that
  // dropped a count to zero and wait for the global lock.
  datatype Store = Store(
    drcs: map<nat, Drc>, tree: map<nat, nat>, queue: seq<nat>, qlen: int, lastCheck: int,
    xprts: map<nat, nat>, putters: map<nat, nat>, nextId: nat, now: int, delta: nat)

  const CHECK_INTERVAL := 600

  function Fresh(now: int, delta: nat): Store {
    Store(map[], map[], [], 0, now, map[], map[], 0, now, delta)
  }

  // Whose reference a put gives back.
  datatype Owner = Xprt(x: nat) | Call | Entry

  datatype Step =
    | GetBound(x: nat)
    | GetSlow(x: nat, addr: nat)
    | Keep(d: nat, hit: bool)
    | PutFast(t: nat, d: nat, owner: Owner)
    | PutSlow(t: nat)
    | FreeExpired(at: int)
    | Tick(now: int)

  predicate Holds(s: Store, d: nat, owner: Owner) {
    && d in s.drcs
    && match owner
       case Xprt(x) => x in s.xprts && s.xprts[x] == d
       case Call => s.drcs[d].calls > 0
       case Entry => s.drcs[d].queued > 0
  }

  predicate Waits(s: Store, d: nat) {
    d in s.drcs && s.drcs[d].refcnt == 0 && !s.drcs[d].recycle
  }

  // What each caller brings. A lookup that meets a count of zero outside the
  // queue retries, so that step waits.
  predicate Enabled(s: Store, step: Step) {
    match step
    case GetBound(x) => x in s.xprts && s.xprts[x] in s.drcs
    case GetSlow(x, addr) => x !in s.xprts && (addr in s.tree ==> s.tree[addr] in s.drcs && !Waits(s, s.tree[addr]))
    case Keep(d, _) => d in s.drcs && s.drcs[d].calls > 0
    case PutFast(t, d, owner) => t !in s.putters && Holds(s, d, owner)
    case PutSlow(t) => t in s.putters && s.putters[t] in s.drcs
    case FreeExpired(at) => at <= s.now
    case Tick(now) => s.now <= now
  }

  function Without(q: seq<nat>, d: nat): seq<nat> {
    if q == [] then [] else if q[0] == d then q[1..] else [q[0]] + Without(q[1..], d)
  }

  // Take a cache off the recycle queue if it is on it.
  function Revived(s: Store, d: nat): Store
    requires d in s.drcs
  {
    if s.drcs[d].refcnt == 0 then
      s.(queue := Without(s.queue, d), qlen := s.qlen - 1, drcs := s.drcs[d := s.drcs[d].(recycle := false)])
    else s
  }

  // A transport reference and a call-path reference.
  function Bound(s: Store, x: nat, d: nat): Store
    requires d in s.drcs
  {
    var c := s.drcs[d];
    s.(xprts := s.xprts[x := d],
       drcs := s.drcs[d := c.(refcnt := c.refcnt + 2, calls := c.calls + 1, recycleTime := 0)])
  }

  function Allocated(s: Store, addr: nat): Store {
    s.(drcs := s.drcs[s.nextId := Drc(addr, 0, false, 0, 0, 0, 0)], tree := s.tree[addr := s.nextId],
       nextId := s.nextId + 1)
  }

  function GetSlowNext(s: Store, x: nat, addr: nat): Store
    requires Enabled(s, GetSlow(x, addr))
  {
    if addr in s.tree then Bound(Revived(s, s.tree[addr]), x, s.tree[addr])
    else Bound(Allocated(s, addr), x, s.nextId)
  }

  function GetBoundNext(s: Store, x: nat): Store
    requires Enabled(s, GetBound(x))
  {
    var d := s.xprts[x];
    var c := s.drcs[d];
    s.(drcs := s.drcs[d := c.(refcnt := c.refcnt + 1, calls := c.calls + 1)])
  }

  // The call-path reference passes to the new entry, or stays behind on a hit.
  function KeepNext(s: Store, d: nat, hit: bool): Store
    requires Enabled(s, Keep(d, hit))
  {
    var c := s.drcs[d].(calls := s.drcs[d].calls - 1);
    s.(drcs := s.drcs[d := if hit then c.(leaked := c.leaked + 1) else c.(queued := c.queued + 1)])
  }

  function Dropped(c: Drc, owner: Owner): Drc
    requires owner.Call? ==> c.calls > 0
    requires owner.Entry? ==> c.queued > 0
    requires c.refcnt > 0
  {
    var r := c.(refcnt := c.refcnt - 1);
    match owner
    case Xprt(_) => r
    case Call => r.(calls := r.calls - 1)
    case Entry => r.(queued := r.queued - 1)
  }

  function PutFastNext(s: Store, t: nat, d: nat, owner: Owner): Store
    requires Enabled(s, PutFast(t, d, owner)) && s.drcs[d].refcnt > 0
  {
    var c := Dropped(s.drcs[d], owner);
    s.(drcs := s.drcs[d := c],
       xprts := if owner.Xprt? then s.xprts - {owner.x} else s.xprts,
       putters := if c.refcnt == 0 then s.putters[t := d] else s.putters)
  }

  function PutSlowNext(s: Store, t: nat): Store
    requires Enabled(s, PutSlow(t))
  {
    var d := s.putters[t];
    var u := s.(putters := s.putters - {t});
    if Waits(s, d) then
      u.(drcs := s.drcs[d := s.drcs[d].(recycleTime := s.now, recycle := true)],
         queue := s.queue + [d], qlen := s.qlen + 1)
    else u
  }

  predicate Expired(s: Store, d: nat, at: int) {
    d in s.drcs && s.drcs[d].recycleTime > 0 && at - s.drcs[d].recycleTime > s.delta
  }

  // Unlink and free the head of the queue.
  function HeadFreed(s: Store): Store
    requires s.queue != [] && s.queue[0] in s.drcs
  {
    var d := s.queue[0];
    s.(queue := s.queue[1..], qlen := s.qlen - 1, tree := s.tree - {s.drcs[d].addr}, drcs := s.drcs - {d})
  }

  function Expire(s: Store, at: int): Store
    decreases |s.queue|
  {
    if s.queue != [] && Expired(s, s.queue[0], at) then Expire(HeadFreed(s), at) else s.(lastCheck := at)
  }

  function FreeExpiredNext(s: Store, at: int): Store {
    if s.qlen < 1 || at - s.lastCheck < CHECK_INTERVAL then s else Expire(s, at)
  }

  predicate Next(s: Store, step: Step, e: Store) {
    Enabled(s, step) &&
    match step
    case GetBound(x) => e == GetBoundNext(s, x)
    case GetSlow(x, addr) => e == GetSlowNext(s, x, addr)
    case Keep(d, hit) => e == KeepNext(s, d, hit)
    case PutFast(t, d, owner) => s.drcs[d].refcnt > 0 && e == PutFastNext(s, t, d, owner)
    case PutSlow(t) => e == PutSlowNext(s, t)
    case FreeExpired(at) => e == FreeExpiredNext(s, at)
    case Tick(now) => e == s.(now := now)
  }

  // ------------------------------------------------------------ invariant

  // One cache per address, all of them in the tree.
  predicate Indexed(s: Store) {
    && (forall a <- s.tree :: s.tree[a] in s.drcs && s.drcs[s.tree[a]].addr == a)
    && (forall d <- s.drcs :: d < s.nextId && s.drcs[d].addr in s.tree && s.tree[s.drcs[d].addr] == d)
  }

  function Keys(m: map<nat, nat>, d: nat): set<nat> {
    set x | x in m && m[x] == d
  }

  predicate Counted(s: Store) {
    && (forall d <- s.drcs ::
          s.drcs[d].refcnt == |Keys(s.xprts, d)| + s.drcs[d].calls + s.drcs[d].queued + s.drcs[d].leaked)
    && (forall x <- s.xprts :: s.xprts[x] in s.drcs)
  }

  // A count of zero outside the queue has exactly one putter, and no other has any.
  predicate OnePutter(s: Store) {
    && (forall d <- s.drcs :: |Keys(s.putters, d)| == if Waits(s, d) then 1 else 0)
    && (forall t <- s.putters :: s.putters[t] in s.drcs)
  }

  predicate Queue(s: Store) {
    && s.qlen == |s.queue|
    && (forall i, j | 0 <= i < j < |s.queue| :: s.queue[i] != s.queue[j])
    && (forall d <- s.queue :: d in s.drcs)
    && (forall d <- s.drcs :: d in s.queue <==> s.drcs[d].recycle)
    && (forall d <- s.queue :: s.drcs[d].refcnt == 0)
  }

  predicate Timed(s: Store) {
    && s.now > 0
    && (forall d <- s.queue :: d in s.drcs && 0 < s.drcs[d].recycleTime <= s.now)
    && (forall i, j | 0 <= i < j < |s.queue| ::
          s.queue[i] in s.drcs && s.queue[j] in s.drcs
          && s.drcs[s.queue[i]].recycleTime <= s.drcs[s.queue[j]].recycleTime)
  }

  predicate Inv(s: Store) {
    Indexed(s) && Counted(s) && OnePutter(s) && Queue(s) && Timed(s)
  }

  // ------------------------------------------------- each step keeps it

  lemma KeysAdd(m: map<nat, nat>, x: nat, d: nat, e: nat)
    requires x !in m
    ensures |Keys(m[x := d], e)| == |Keys(m, e)| + if e == d then 1 else 0
  {
    assert Keys(m[x := d], e) == if e == d then Keys(m, e) + {x} else Keys(m, e);
  }

  lemma KeysDrop(m: map<nat, nat>, x: nat, e: nat)
    requires x in m
    ensures |Keys(m - {x}, e)| == |Keys(m, e)| - if e == m[x] then 1 else 0
  {
    assert Keys(m - {x}, e) == Keys(m, e) - {x};
    assert e == m[x] <==> x in Keys(m, e);
  }

  lemma NoneHeld(m: map<nat, nat>, d: nat)
    requires |Keys(m, d)| == 0
    ensures forall x <- m :: m[x] != d
  {
    assert Keys(m, d) == {};
    forall x <- m ensures m[x] != d {
      assert m[x] == d ==> x in Keys(m, d);
    }
  }

  // A change of one record that leaves it off the queue, with a count above zero.
  predicate Touched(s: Store, e: Store, d: nat) {
    && d in s.drcs && d !in s.queue && d in e.drcs
    && e == s.(drcs := s.drcs[d := e.drcs[d]], xprts := e.xprts)
    && e.drcs[d].addr == s.drcs[d].addr && !e.drcs[d].recycle
    && s.drcs[d].refcnt > 0 && e.drcs[d].refcnt > 0
  }

  lemma TouchedKeeps(s: Store, e: Store, d: nat)
    requires Indexed(s) && OnePutter(s) && Queue(s) && Timed(s) && Touched(s, e, d)
    ensures Indexed(e) && OnePutter(e) && Queue(e) && Timed(e)
  {
    forall c <- e.drcs ensures Waits(e, c) <==> Waits(s, c) {}
  }

  lemma OffQueue(s: Store, d: nat)
    requires Queue(s) && d in s.drcs && s.drcs[d].refcnt > 0
    ensures d !in s.queue && !s.drcs[d].recycle
  {
  }

  lemma BoundCounted(s: Store, d: nat, x: nat)
    requires Counted(s) && x in s.xprts && s.xprts[x] == d
    ensures d in s.drcs && s.drcs[d].refcnt > 0
  {
    assert x in Keys(s.xprts, d);
  }

  // No put underruns the count.
  lemma HolderCounted(s: Store, d: nat, owner: Owner)
    requires Counted(s) && Holds(s, d, owner)
    ensures s.drcs[d].refcnt > 0
  {
    if owner.Xprt? {
      BoundCounted(s, d, owner.x);
    }
  }

  lemma GetBoundKeeps(s: Store, x: nat)
    requires Inv(s) && Enabled(s, GetBound(x))
    ensures Inv(GetBoundNext(s, x))
  {
    var d := s.xprts[x];
    BoundCounted(s, d, x);
    OffQueue(s, d);
    TouchedKeeps(s, GetBoundNext(s, x), d);
  }

  lemma KeepKeeps(s: Store, d: nat, hit: bool)
    requires Inv(s) && Enabled(s, Keep(d, hit))
    ensures Inv(KeepNext(s, d, hit))
  {
    OffQueue(s, d);
    TouchedKeeps(s, KeepNext(s, d, hit), d);
  }

  lemma WithoutContents(q: seq<nat>, d: nat)
    requires forall i, j | 0 <= i < j < |q| :: q[i] != q[j]
    ensures forall x: nat :: x in Without(q, d) <==> x in q && x != d
    ensures |Without(q, d)| == |q| - if d in q then 1 else 0
  {
    if q != [] && q[0] != d {
      WithoutContents(q[1..], d);
      assert q == [q[0]] + q[1..];
    } else if q != [] {
      assert q == [q[0]] + q[1..];
    }
  }

  // Positions keep their order.
  lemma {:induction false} WithoutOrder(q: seq<nat>, d: nat, i: nat, j: nat) returns (a: nat, b: nat)
    requires i < j < |Without(q, d)|
    ensures a < b < |q| && Without(q, d)[i] == q[a] && Without(q, d)[j] == q[b]
    decreases |q|
  {
    if q[0] == d {
      a, b := i + 1, j + 1;
    } else if i == 0 {
      a := 0;
      b := WithoutAt(q[1..], d, j - 1);
      b := b + 1;
    } else {
      a, b := WithoutOrder(q[1..], d, i - 1, j - 1);
      a, b := a + 1, b + 1;
    }
  }

  lemma {:induction false} WithoutAt(q: seq<nat>, d: nat, i: nat) returns (a: nat)
    requires i < |Without(q, d)|
    ensures a < |q| && Without(q, d)[i] == q[a]
    decreases |q|
  {
    if q[0] == d {
      a := i + 1;
    } else if i == 0 {
      a := 0;
    } else {
      a := WithoutAt(q[1..], d, i - 1);
      a := a + 1;
    }
  }

  // Back in service: off the queue, flag cleared, not yet counted.
  lemma RevivedQueue(s: Store, d: nat)
    requires Queue(s) && Timed(s) && d in s.drcs && !Waits(s, d)
    ensures Queue(Revived(s, d)) && Timed(Revived(s, d))
    ensures d !in Revived(s, d).queue && !Revived(s, d).drcs[d].recycle
  {
    var e := Revived(s, d);
    WithoutContents(s.queue, d);
    if s.drcs[d].refcnt == 0 {
      forall i, j | 0 <= i < j < |e.queue|
        ensures e.queue[i] != e.queue[j] && e.queue[i] in e.drcs && e.queue[j] in e.drcs
                && e.drcs[e.queue[i]].recycleTime <= e.drcs[e.queue[j]].recycleTime
      {
        var a, b := WithoutOrder(s.queue, d, i, j);
      }
    }
  }

  lemma BoundKeepsQueue(s: Store, x: nat, d: nat)
    requires Queue(s) && Timed(s) && d in s.drcs && d !in s.queue && !s.drcs[d].recycle
    ensures Queue(Bound(s, x, d)) && Timed(Bound(s, x, d))
  {
  }

  lemma BoundKeepsCount(s: Store, x: nat, d: nat)
    requires Counted(s) && d in s.drcs && x !in s.xprts
    ensures Counted(Bound(s, x, d))
  {
    var e := Bound(s, x, d);
    forall c <- e.drcs
      ensures e.drcs[c].refcnt == |Keys(e.xprts, c)| + e.drcs[c].calls + e.drcs[c].queued + e.drcs[c].leaked
    {
      KeysAdd(s.xprts, x, d, c);
    }
  }

  // After binding, nobody is about to enqueue the cache.
  lemma BoundKeepsPutters(s: Store, x: nat, d: nat)
    requires (forall t <- s.putters :: s.putters[t] in s.drcs) && d in s.drcs && |Keys(s.putters, d)| == 0
    requires forall c <- s.drcs :: c != d ==> |Keys(s.putters, c)| == if Waits(s, c) then 1 else 0
    ensures OnePutter(Bound(s, x, d))
  {
    var e := Bound(s, x, d);
    forall c <- e.drcs ensures |Keys(e.putters, c)| == if Waits(e, c) then 1 else 0 {
      assert c != d ==> (Waits(e, c) <==> Waits(s, c));
    }
  }

  lemma GetOldQueue(s: Store, x: nat, d: nat)
    requires Queue(s) && Timed(s) && d in s.drcs && !Waits(s, d)
    ensures Queue(Bound(Revived(s, d), x, d)) && Timed(Bound(Revived(s, d), x, d))
  {
    RevivedQueue(s, d);
    BoundKeepsQueue(Revived(s, d), x, d);
  }

  lemma GetOldPutters(s: Store, x: nat, d: nat)
    requires OnePutter(s) && d in s.drcs && !Waits(s, d)
    ensures OnePutter(Bound(Revived(s, d), x, d))
  {
    var r := Revived(s, d);
    forall c <- r.drcs ensures c != d ==> (Waits(r, c) <==> Waits(s, c)) {}
    BoundKeepsPutters(r, x, d);
  }

  lemma GetOldIndexed(s: Store, x: nat, d: nat)
    requires Indexed(s) && d in s.drcs
    ensures Indexed(Bound(Revived(s, d), x, d))
  {
  }

  lemma GetOldCounted(s: Store, x: nat, d: nat)
    requires Counted(s) && d in s.drcs && x !in s.xprts
    ensures Counted(Bound(Revived(s, d), x, d))
  {
    BoundKeepsCount(Revived(s, d), x, d);
  }

  lemma GetOldKeeps(s: Store, x: nat, d: nat, e: Store)
    requires Inv(s) && x !in s.xprts && d in s.drcs && !Waits(s, d) && e == Bound(Revived(s, d), x, d)
    ensures Inv(e)
  {
    GetOldQueue(s, x, d);
    GetOldPutters(s, x, d);
    GetOldIndexed(s, x, d);
    GetOldCounted(s, x, d);
  }

  lemma AllocatedQueue(s: Store, addr: nat)
    requires Indexed(s) && Queue(s) && Timed(s)
    ensures Queue(Allocated(s, addr)) && Timed(Allocated(s, addr)) && s.nextId !in s.queue
  {
  }

  lemma AllocatedCounted(s: Store, addr: nat)
    requires Indexed(s) && Counted(s)
    ensures Counted(Allocated(s, addr))
  {
    assert Keys(s.xprts, s.nextId) == {};
  }

  lemma AllocatedIndexed(s: Store, addr: nat, x: nat)
    requires Indexed(s) && addr !in s.tree
    ensures Indexed(Bound(Allocated(s, addr), x, s.nextId))
  {
  }

  lemma AllocatedPutters(s: Store, addr: nat, x: nat)
    requires Indexed(s) && OnePutter(s)
    ensures OnePutter(Bound(Allocated(s, addr), x, s.nextId))
  {
    var d, n := s.nextId, Allocated(s, addr);
    assert Keys(n.putters, d) == {};
    forall c <- n.drcs ensures c != d ==> (Waits(n, c) <==> Waits(s, c)) {}
    BoundKeepsPutters(n, x, d);
  }

  lemma GetNewKeeps(s: Store, x: nat, addr: nat, e: Store)
    requires Inv(s) && x !in s.xprts && addr !in s.tree && e == Bound(Allocated(s, addr), x, s.nextId)
    ensures Inv(e)
  {
    AllocatedQueue(s, addr);
    BoundKeepsQueue(Allocated(s, addr), x, s.nextId);
    AllocatedCounted(s, addr);
    BoundKeepsCount(Allocated(s, addr), x, s.nextId);
    AllocatedIndexed(s, addr, x);
    AllocatedPutters(s, addr, x);
  }

  lemma GetSlowKeeps(s: Store, x: nat, addr: nat, e: Store)
    requires Inv(s) && Enabled(s, GetSlow(x, addr)) && e == GetSlowNext(s, x, addr)
    ensures Inv(e)
  {
    if addr in s.tree {
      GetOldKeeps(s, x, s.tree[addr], e);
    } else {
      GetNewKeeps(s, x, addr, e);
    }
  }

  lemma PutFastCounted(s: Store, t: nat, d: nat, owner: Owner)
    requires Counted(s) && Enabled(s, PutFast(t, d, owner)) && s.drcs[d].refcnt > 0
    ensures Counted(PutFastNext(s, t, d, owner))
  {
    var e := PutFastNext(s, t, d, owner);
    if owner.Xprt? {
      forall c <- e.drcs
        ensures e.drcs[c].refcnt == |Keys(e.xprts, c)| + e.drcs[c].calls + e.drcs[c].queued + e.drcs[c].leaked
      {
        KeysDrop(s.xprts, owner.x, c);
      }
    }
  }

  lemma PutFastPutters(s: Store, t: nat, d: nat, owner: Owner)
    requires OnePutter(s) && Enabled(s, PutFast(t, d, owner)) && s.drcs[d].refcnt > 0 && !s.drcs[d].recycle
    ensures OnePutter(PutFastNext(s, t, d, owner))
  {
    var e := PutFastNext(s, t, d, owner);
    forall c <- e.drcs ensures |Keys(e.putters, c)| == if Waits(e, c) then 1 else 0 {
      KeysAdd(s.putters, t, d, c);
      assert c != d ==> (Waits(e, c) <==> Waits(s, c));
    }
  }

  lemma PutFastQueue(s: Store, t: nat, d: nat, owner: Owner)
    requires Queue(s) && Timed(s) && Enabled(s, PutFast(t, d, owner)) && s.drcs[d].refcnt > 0
    ensures Queue(PutFastNext(s, t, d, owner)) && Timed(PutFastNext(s, t, d, owner))
  {
    OffQueue(s, d);
  }

  lemma PutFastIndexed(s: Store, t: nat, d: nat, owner: Owner)
    requires Indexed(s) && Enabled(s, PutFast(t, d, owner)) && s.drcs[d].refcnt > 0
    ensures Indexed(PutFastNext(s, t, d, owner))
  {
  }

  lemma PutFastKeeps(s: Store, t: nat, d: nat, owner: Owner, e: Store)
    requires Inv(s) && Enabled(s, PutFast(t, d, owner)) && s.drcs[d].refcnt > 0 && e == PutFastNext(s, t, d, owner)
    ensures Inv(e)
  {
    OffQueue(s, d);
    PutFastCounted(s, t, d, owner);
    PutFastPutters(s, t, d, owner);
    PutFastQueue(s, t, d, owner);
    PutFastIndexed(s, t, d, owner);
  }

  // The recheck after the locks were swapped always succeeds.
  lemma RecheckHolds(s: Store, t: nat)
    requires OnePutter(s) && t in s.putters
    ensures Waits(s, s.putters[t])
  {
    assert t in Keys(s.putters, s.putters[t]);
  }

  lemma PutSlowQueue(s: Store, t: nat)
    requires Queue(s) && Timed(s) && Enabled(s, PutSlow(t)) && Waits(s, s.putters[t])
    ensures Queue(PutSlowNext(s, t)) && Timed(PutSlowNext(s, t))
  {
    var d, e := s.putters[t], PutSlowNext(s, t);
    assert d !in s.queue;
    forall c <- e.queue ensures c in s.queue || c == d {}
    forall c <- e.drcs ensures c in e.queue <==> e.drcs[c].recycle {
      assert e.queue[|s.queue|] == d;
      assert c in s.queue ==> c in e.queue;
    }
    forall i, j | 0 <= i < j < |e.queue|
      ensures e.queue[i] != e.queue[j] && e.queue[i] in e.drcs && e.queue[j] in e.drcs
              && e.drcs[e.queue[i]].recycleTime <= e.drcs[e.queue[j]].recycleTime
    {
      assert e.queue[i] == s.queue[i] && s.queue[i] in s.queue;
      if j < |s.queue| {
        assert e.queue[j] == s.queue[j] && s.queue[j] in s.queue;
      }
    }
  }

  lemma PutSlowPutters(s: Store, t: nat)
    requires OnePutter(s) && Enabled(s, PutSlow(t)) && Waits(s, s.putters[t])
    ensures OnePutter(PutSlowNext(s, t))
  {
    var d, e := s.putters[t], PutSlowNext(s, t);
    forall c <- e.drcs ensures |Keys(e.putters, c)| == if Waits(e, c) then 1 else 0 {
      KeysDrop(s.putters, t, c);
      assert c != d ==> (Waits(e, c) <==> Waits(s, c));
    }
  }

  lemma PutSlowCounted(s: Store, t: nat)
    requires Indexed(s) && Counted(s) && Enabled(s, PutSlow(t))
    ensures Indexed(PutSlowNext(s, t)) && Counted(PutSlowNext(s, t))
  {
  }

  lemma PutSlowKeeps(s: Store, t: nat, e: Store)
    requires Inv(s) && Enabled(s, PutSlow(t)) && e == PutSlowNext(s, t)
    ensures Inv(e)
  {
    RecheckHolds(s, t);
    PutSlowQueue(s, t);
    PutSlowPutters(s, t);
    PutSlowCounted(s, t);
  }

  // Nothing refers to the head of the queue.
  predicate Unused(s: Store, d: nat) {
    && d in s.drcs && s.drcs[d].refcnt == 0 && s.drcs[d].queued == 0 && s.drcs[d].leaked == 0
    && (forall x <- s.xprts :: s.xprts[x] != d) && (forall t <- s.putters :: s.putters[t] != d)
  }

  lemma QueuedUnused(s: Store, d: nat)
    requires Inv(s) && d in s.queue
    ensures Unused(s, d)
  {
    NoneHeld(s.xprts, d);
    NoneHeld(s.putters, d);
  }

  lemma HeadFreedIndexed(s: Store)
    requires Indexed(s) && s.queue != [] && s.queue[0] in s.drcs
    ensures Indexed(HeadFreed(s))
  {
    var d, e := s.queue[0], HeadFreed(s);
    forall c <- e.drcs ensures e.drcs[c].addr in e.tree {
      assert s.tree[s.drcs[c].addr] == c && s.tree[s.drcs[d].addr] == d;
    }
  }

  lemma HeadFreedCounted(s: Store)
    requires Counted(s) && OnePutter(s) && s.queue != [] && Unused(s, s.queue[0])
    ensures Counted(HeadFreed(s)) && OnePutter(HeadFreed(s))
  {
    var e := HeadFreed(s);
    forall c <- e.drcs ensures Waits(e, c) <==> Waits(s, c) {}
  }

  lemma HeadFreedTimed(s: Store)
    requires Queue(s) && Timed(s) && s.queue != [] && s.queue[0] in s.drcs
    ensures Timed(HeadFreed(s))
  {
    var e := HeadFreed(s);
    forall d <- e.queue ensures d in e.drcs && 0 < e.drcs[d].recycleTime <= e.now {
      assert d in s.queue;
    }
    forall i, j | 0 <= i < j < |e.queue|
      ensures e.queue[i] in e.drcs && e.queue[j] in e.drcs
              && e.drcs[e.queue[i]].recycleTime <= e.drcs[e.queue[j]].recycleTime
    {
      assert e.queue[i] == s.queue[i + 1] && e.queue[j] == s.queue[j + 1];
    }
  }

  lemma HeadFreedQueue(s: Store)
    requires Queue(s) && Timed(s) && s.queue != [] && s.queue[0] in s.drcs
    ensures Queue(HeadFreed(s)) && Timed(HeadFreed(s))
  {
    HeadFreedTimed(s);
    var e := HeadFreed(s);
    assert s.queue == [s.queue[0]] + e.queue;
    forall i, j | 0 <= i < j < |e.queue| ensures e.queue[i] != e.queue[j] {
      assert e.queue[i] == s.queue[i + 1] && e.queue[j] == s.queue[j + 1];
    }
  }

  lemma HeadFreedKeeps(s: Store, e: Store)
    requires Inv(s) && s.queue != [] && s.queue[0] in s.drcs && e == HeadFreed(s)
    ensures Inv(e) && Unused(s, s.queue[0])
  {
    assert s.queue[0] in s.queue;
    QueuedUnused(s, s.queue[0]);
    HeadFreedIndexed(s);
    HeadFreedCounted(s);
    HeadFreedQueue(s);
  }

  lemma {:induction false} ExpireKeeps(s: Store, at: int, e: Store)
    requires Inv(s) && e == Expire(s, at)
    ensures Inv(e)
    decreases |s.queue|
  {
    if s.queue != [] && Expired(s, s.queue[0], at) {
      var h := HeadFreed(s);
      HeadFreedKeeps(s, h);
      ExpireKeeps(h, at, e);
    }
  }

  lemma StepKeeps(s: Store, step: Step, e: Store)
    requires Inv(s) && Next(s, step, e)
    ensures Inv(e)
  {
    match step {
      case GetBound(x) => GetBoundKeeps(s, x);
      case GetSlow(x, addr) => GetSlowKeeps(s, x, addr, e);
      case Keep(d, hit) => KeepKeeps(s, d, hit);
      case PutFast(t, d, owner) => PutFastKeeps(s, t, d, owner, e);
      case PutSlow(t) => PutSlowKeeps(s, t, e);
      case FreeExpired(at) => if e != s { ExpireKeeps(s, at, e); }
      case Tick(now) =>
    }
  }

  // ------------------------------------------------------------ what it is for

  /** A lookup that succeeds on a count of zero finds the cache on the recycle
      queue, and takes it off: none is revived before it was queued. */
  lemma RevivedWasQueued(s: Store, x: nat, addr: nat)
    requires Inv(s) && Enabled(s, GetSlow(x, addr)) && addr in s.tree && s.drcs[s.tree[addr]].refcnt == 0
    ensures var d, e := s.tree[addr], GetSlowNext(s, x, addr);
            && d in s.queue && d !in e.queue && e.qlen == s.qlen - 1 && e.drcs[d].refcnt == 2
  {
    WithoutContents(s.queue, s.tree[addr]);
  }

  // If the head has not expired nothing behind it has.
  lemma HeadDecides(s: Store, at: int, d: nat)
    requires Timed(s) && d in s.queue && !Expired(s, s.queue[0], at)
    ensures !Expired(s, d, at)
  {
    assert s.queue[0] in s.queue;
    var j :| 0 <= j < |s.queue| && s.queue[j] == d;
    if j > 0 {
      assert s.drcs[s.queue[0]].recycleTime <= s.drcs[s.queue[j]].recycleTime;
    }
  }

  lemma {:induction false} ExpireFrees(s: Store, at: int, e: Store, d: nat)
    requires Queue(s) && Timed(s) && e == Expire(s, at) && d in s.drcs
    ensures d in e.drcs <==> !(d in s.queue && Expired(s, d, at))
    ensures d in e.drcs ==> e.drcs[d] == s.drcs[d]
    decreases |s.queue|
  {
    if s.queue != [] && Expired(s, s.queue[0], at) {
      var h := HeadFreed(s);
      HeadFreedQueue(s);
      if d == s.queue[0] {
        ExpireOnlyFrees(h, at, e, d);
      } else {
        TailOnly(s, h, at, d);
        ExpireFrees(h, at, e, d);
      }
    } else if d in s.queue {
      HeadDecides(s, at, d);
    }
  }

  lemma TailOnly(s: Store, h: Store, at: int, d: nat)
    requires s.queue != [] && s.queue[0] in s.drcs && h == HeadFreed(s) && d in s.drcs && d != s.queue[0]
    ensures d in h.drcs && h.drcs[d] == s.drcs[d] && (d in h.queue <==> d in s.queue)
    ensures Expired(h, d, at) <==> Expired(s, d, at)
  {
    assert s.queue == [s.queue[0]] + h.queue;
  }

  lemma {:induction false} ExpireOnlyFrees(s: Store, at: int, e: Store, d: nat)
    requires e == Expire(s, at) && d !in s.drcs
    ensures d !in e.drcs
    decreases |s.queue|
  {
    if s.queue != [] && Expired(s, s.queue[0], at) {
      ExpireOnlyFrees(HeadFreed(s), at, e, d);
    }
  }

  /** The expiry pass, once its interval is over, frees exactly the queued caches
      whose time is up, although it stops at the first that is not; each of them
      has no bound transport, no pending putter and no cached request. Otherwise
      it changes nothing. */
  lemma FreesExactlyExpired(s: Store, at: int, d: nat)
    requires Inv(s) && d in s.drcs
    ensures var e := FreeExpiredNext(s, at);
            && (d !in e.drcs <==> at - s.lastCheck >= CHECK_INTERVAL && d in s.queue && Expired(s, d, at))
            && (d !in e.drcs ==> Unused(s, d))
            && (d in e.drcs ==> e.drcs[d] == s.drcs[d])
            && (at - s.lastCheck < CHECK_INTERVAL ==> e == s)
  {
    if s.qlen >= 1 && at - s.lastCheck >= CHECK_INTERVAL {
      ExpireFrees(s, at, Expire(s, at), d);
    }
    if d in s.queue {
      QueuedUnused(s, d);
    }
  }

  // ----------------------------------------------------------------- runs

  predicate IsRun(stores: seq<Store>, steps: seq<Step>) {
    && |stores| == |steps| + 1
    && stores[0].now > 0 && stores[0] == Fresh(stores[0].now, stores[0].delta)
    && forall i | 0 <= i < |steps| :: Next(stores[i], steps[i], stores[i + 1])
  }

  lemma {:induction false} RunInv(stores: seq<Store>, steps: seq<Step>, k: nat)
    requires IsRun(stores, steps) && k < |stores|
    ensures Inv(stores[k])
  {
    if k > 0 {
      RunInv(stores, steps, k - 1);
      StepKeeps(stores[k - 1], steps[k - 1], stores[k]);
    }
  }

  /** In every reachable state a count of zero means queued with the flag set and
      no putter, or not queued and exactly one putter. */
  lemma ZeroCount(stores: seq<Store>, steps: seq<Step>, k: nat, d: nat)
    requires IsRun(stores, steps) && k < |stores| && d in stores[k].drcs
    ensures var s := stores[k];
            && s.qlen == |s.queue|
            && (s.drcs[d].refcnt == 0 <==>
                ((d in s.queue && s.drcs[d].recycle && |Keys(s.putters, d)| == 0) ||
                 (d !in s.queue && !s.drcs[d].recycle && |Keys(s.putters, d)| == 1)))
  {
    RunInv(stores, steps, k);
  }

  // Duplicate hits on cache `d` in the first `k` steps.
  function HitCount(steps: seq<Step>, k: nat, d: nat): nat
    requires k <= |steps|
  {
    if k == 0 then 0 else HitCount(steps, k - 1, d) + if steps[k - 1] == Keep(d, true) then 1 else 0
  }

  predicate HitBefore(steps: seq<Step>, k: nat, d: nat)
    requires k <= |steps|
  {
    exists i | 0 <= i < k :: steps[i] == Keep(d, true)
  }

  lemma {:induction false} HitCountMeans(steps: seq<Step>, k: nat, d: nat)
    requires k <= |steps|
    ensures HitCount(steps, k, d) > 0 <==> HitBefore(steps, k, d)
  {
    if k > 0 {
      HitCountMeans(steps, k - 1, d);
    }
  }

  // A step other than expiry moves the leaked count of a cache exactly when it is
  // a hit on it, and starts a new cache at zero.
  lemma LeakStep(s: Store, step: Step, e: Store, d: nat)
    requires Next(s, step, e) && !step.FreeExpired? && (d in s.drcs ==> d < s.nextId)
    ensures s.nextId <= e.nextId
    ensures d in s.drcs ==>
              d in e.drcs && e.drcs[d].leaked == s.drcs[d].leaked + if step == Keep(d, true) then 1 else 0
    ensures d !in s.drcs ==> step != Keep(d, true) && (d in e.drcs ==> d == s.nextId && e.drcs[d].leaked == 0)
  {
  }

  lemma {:induction false} ExpireKeepsIds(s: Store, at: int, e: Store)
    requires e == Expire(s, at)
    ensures e.nextId == s.nextId
    decreases |s.queue|
  {
    if s.queue != [] && Expired(s, s.queue[0], at) {
      ExpireKeepsIds(HeadFreed(s), at, e);
    }
  }

  lemma ExpiryLeaks(s: Store, at: int, e: Store, d: nat)
    requires Inv(s) && e == FreeExpiredNext(s, at)
    ensures e.nextId == s.nextId && (d in e.drcs ==> d in s.drcs && e.drcs[d] == s.drcs[d])
  {
    if e != s {
      ExpireKeepsIds(s, at, e);
      if d in s.drcs {
        ExpireFrees(s, at, e, d);
      } else {
        ExpireOnlyFrees(s, at, e, d);
      }
    }
  }

  lemma LeakAt(stores: seq<Store>, steps: seq<Step>, k: nat, d: nat)
    requires IsRun(stores, steps) && k < |steps|
    ensures stores[k].nextId <= stores[k + 1].nextId
    ensures d in stores[k].drcs && d in stores[k + 1].drcs ==>
              stores[k + 1].drcs[d].leaked == stores[k].drcs[d].leaked + if steps[k] == Keep(d, true) then 1 else 0
    ensures d !in stores[k].drcs && d in stores[k + 1].drcs ==>
              d == stores[k].nextId && stores[k + 1].drcs[d].leaked == 0
    ensures d !in stores[k].drcs ==> steps[k] != Keep(d, true)
    ensures d in stores[k].drcs ==> d < stores[k].nextId
  {
    var s, step, e := stores[k], steps[k], stores[k + 1];
    assert Next(s, step, e);
    RunInv(stores, steps, k);
    if step.FreeExpired? {
      ExpiryLeaks(s, step.at, e, d);
    } else {
      LeakStep(s, step, e, d);
    }
  }

  lemma {:induction false} NoHitYet(stores: seq<Store>, steps: seq<Step>, k: nat, d: nat)
    requires IsRun(stores, steps) && k < |stores| && d >= stores[k].nextId
    ensures HitCount(steps, k, d) == 0
  {
    if k > 0 {
      LeakAt(stores, steps, k - 1, d);
      NoHitYet(stores, steps, k - 1, d);
    }
  }

  /** Over every run the leaked references of a cache are exactly the duplicate hits
      it has had. */
  lemma {:induction false} LeakedIsHits(stores: seq<Store>, steps: seq<Step>, k: nat, d: nat)
    requires IsRun(stores, steps) && k < |stores| && d in stores[k].drcs
    ensures stores[k].drcs[d].leaked == HitCount(steps, k, d)
  {
    if k > 0 {
      LeakAt(stores, steps, k - 1, d);
      if d in stores[k - 1].drcs {
        LeakedIsHits(stores, steps, k - 1, d);
      } else {
        NoHitYet(stores, steps, k - 1, d);
      }
    }
  }

  // Nobody holds a reference that will be given back.
  predicate Idle(s: Store, d: nat) {
    && d in s.drcs && s.drcs[d].calls == 0 && s.drcs[d].queued == 0
    && forall x <- s.xprts :: s.xprts[x] != d
  }

  lemma IdleCount(s: Store, d: nat)
    requires Counted(s) && Idle(s, d)
    ensures s.drcs[d].refcnt == s.drcs[d].leaked
  {
    assert Keys(s.xprts, d) == {};
  }

  /** An idle cache is recycled, that is queued or with a putter about to queue it,
      exactly when it has had no duplicate hit. */
  lemma RecycledIff(stores: seq<Store>, steps: seq<Step>, k: nat, d: nat)
    requires IsRun(stores, steps) && k < |stores| && Idle(stores[k], d)
    ensures var s := stores[k];
            (d in s.queue || |Keys(s.putters, d)| == 1) <==> !HitBefore(steps, k, d)
  {
    RunInv(stores, steps, k);
    IdleCount(stores[k], d);
    LeakedIsHits(stores, steps, k, d);
    HitCountMeans(steps, k, d);
  }

  lemma StillThere(stores: seq<Store>, steps: seq<Step>, k: nat, d: nat)
    requires IsRun(stores, steps) && k < |steps| && d in stores[k].drcs && stores[k].drcs[d].leaked > 0
    ensures d in stores[k + 1].drcs
  {
    var s, step, e := stores[k], steps[k], stores[k + 1];
    assert Next(s, step, e);
    RunInv(stores, steps, k);
    if step.FreeExpired? {
      FreesExactlyExpired(s, step.at, d);
    } else {
      LeakStep(s, step, e, d);
    }
  }

  lemma LeakedInUse(stores: seq<Store>, steps: seq<Step>, k: nat, d: nat)
    requires IsRun(stores, steps) && k < |stores| && d in stores[k].drcs && stores[k].drcs[d].leaked > 0
    ensures stores[k].drcs[d].refcnt > 0 && d !in stores[k].queue
  {
    RunInv(stores, steps, k);
    OffQueue(stores[k], d);
  }

  /** One duplicate hit pins its cache for good: it is never queued nor freed again. */
  lemma {:induction false} LeakedForever(stores: seq<Store>, steps: seq<Step>, k: nat, d: nat)
    requires IsRun(stores, steps) && k < |stores| && HitBefore(steps, k, d)
    ensures d in stores[k].drcs && stores[k].drcs[d].refcnt > 0 && d !in stores[k].queue
    decreases k
  {
    HitCountMeans(steps, k, d);
    if HitBefore(steps, k - 1, d) {
      LeakedForever(stores, steps, k - 1, d);
      LeakedIsHits(stores, steps, k - 1, d);
      HitCountMeans(steps, k - 1, d);
      StillThere(stores, steps, k - 1, d);
    } else {
      assert Next(stores[k - 1], steps[k - 1], stores[k]);
    }
    LeakedIsHits(stores, steps, k, d);
    LeakedInUse(stores, steps, k, d);
  }
}
