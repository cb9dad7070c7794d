/** The recycler object: one method for each stretch nfs_dupreq.c runs under its
    locks, each tied to the step it takes. */
module DrcTable {
  import opened DrcRecycle

  class Table {
    var drcs: map<nat, Drc>
    var tree: map<nat, nat>
    var queue: seq<nat>
    var qlen: int
    var lastCheck: int
    var xprts: map<nat, nat>
    // Threads between the two halves of a put.
    var putters: map<nat, nat>
    var nextId: nat
    ghost var now: int
    const delta: nat

    ghost function View(): Store
      reads this
    {
      Store(drcs, tree, queue, qlen, lastCheck, xprts, putters, nextId, now, delta)
    }

    constructor (time: int, delta: nat)
      ensures View() == Fresh(time, delta)
    {
      drcs, tree, queue, qlen, lastCheck := map[], map[], [], 0, time;
      xprts, putters, nextId, now := map[], map[], 0, time;
      this.delta := delta;
    }

    method Ref(d: nat)
      requires d in drcs
      modifies this`drcs
      ensures drcs == old(drcs)[d := old(drcs[d]).(refcnt := old(drcs[d]).refcnt + 1)]
    {
      drcs := drcs[d := drcs[d].(refcnt := drcs[d].refcnt + 1)];
    }

    method Dequeue(d: nat)
      modifies this`queue, this`qlen
      ensures queue == Without(old(queue), d) && qlen == old(qlen) - 1
    {
      var i := 0;
      while i < |queue| && queue[i] != d
        invariant 0 <= i <= |queue| && d !in queue[..i]
      {
        i := i + 1;
      }
      WithoutAsSplit(queue, d, i);
      queue := if i < |queue| then queue[..i] + queue[i + 1..] else queue;
      qlen := qlen - 1;
    }

    method Revive(d: nat)
      requires d in drcs
      modifies this
      ensures View() == Revived(old(View()), d)
    {
      if drcs[d].refcnt == 0 {
        Dequeue(d);
        drcs := drcs[d := drcs[d].(recycle := false)];
      }
    }

    method Allocate(addr: nat) returns (d: nat)
      modifies this
      ensures View() == Allocated(old(View()), addr) && d == old(nextId)
    {
      d := nextId;
      nextId := nextId + 1;
      drcs := drcs[d := Drc(addr, 0, false, 0, 0, 0, 0)];
      tree := tree[addr := d];
    }

    // The transport's reference and the caller's.
    method Bind(x: nat, d: nat)
      requires d in drcs
      modifies this
      ensures View() == Bound(old(View()), x, d)
    {
      xprts := xprts[x := d];
      Ref(d);
      drcs := drcs[d := drcs[d].(recycleTime := 0)];
      CallRef(d);
    }

    method CallRef(d: nat)
      requires d in drcs
      modifies this`drcs
      ensures drcs == old(drcs)[d := old(drcs[d]).(refcnt := old(drcs[d]).refcnt + 1, calls := old(drcs[d]).calls + 1)]
    {
      Ref(d);
      drcs := drcs[d := drcs[d].(calls := drcs[d].calls + 1)];
    }

    // False means the caller tries again.
    method Lookup(x: nat, addr: nat) returns (d: nat, ok: bool)
      requires x !in xprts && (addr in tree ==> tree[addr] in drcs)
      modifies this
      ensures ok <==> Enabled(old(View()), GetSlow(x, addr))
      ensures View() == (if ok then GetSlowNext(old(View()), x, addr) else old(View()))
      ensures ok ==> x in xprts && d == xprts[x]
    {
      ok := true;
      if addr in tree {
        d := tree[addr];
        if drcs[d].refcnt == 0 && !drcs[d].recycle {
          ok := false;
          return;
        }
        Revive(d);
      } else {
        d := Allocate(addr);
      }
      Bind(x, d);
    }

    method Get(x: nat, addr: nat) returns (d: nat, ok: bool)
      requires x in xprts ==> xprts[x] in drcs
      requires addr in tree ==> tree[addr] in drcs
      modifies this
      ensures ok <==> x in old(xprts) || Enabled(old(View()), GetSlow(x, addr))
      ensures View() == (if !ok then old(View())
                         else if x in old(xprts) then GetBoundNext(old(View()), x)
                         else GetSlowNext(old(View()), x, addr))
      ensures ok ==> x in xprts && d == xprts[x]
    {
      if x in xprts {
        d, ok := xprts[x], true;
        CallRef(d);
      } else {
        d, ok := Lookup(x, addr);
      }
    }

    // First half, under the cache's own lock.
    method PutFirst(t: nat, d: nat, owner: Owner)
      requires Enabled(View(), PutFast(t, d, owner)) && drcs[d].refcnt > 0
      modifies this
      ensures View() == PutFastNext(old(View()), t, d, owner)
    {
      drcs := drcs[d := Dropped(drcs[d], owner)];
      if owner.Xprt? {
        xprts := xprts - {owner.x};
      }
      if drcs[d].refcnt == 0 {
        putters := putters[t := d];
      }
    }

    // Second half, under both locks, after others may have run.
    method PutSecond(t: nat, time: int)
      requires Enabled(View(), PutSlow(t)) && time == now
      modifies this
      ensures View() == PutSlowNext(old(View()), t)
    {
      var d := putters[t];
      if drcs[d].refcnt == 0 && !drcs[d].recycle {
        drcs := drcs[d := drcs[d].(recycleTime := time)];
        drcs := drcs[d := drcs[d].(recycle := true)];
        queue := queue + [d];
        qlen := qlen + 1;
      }
      putters := putters - {t};
    }

    method FreeHead()
      requires queue != [] && queue[0] in drcs
      modifies this
      ensures View() == HeadFreed(old(View()))
    {
      var d := queue[0];
      tree := tree - {drcs[d].addr};
      queue := queue[1..];
      qlen := qlen - 1;
      drcs := drcs - {d};
    }

    // The head's count is zero every time round, as the code asserts.
    method Free(at: int)
      requires Inv(View())
      modifies this
      ensures View() == FreeExpiredNext(old(View()), at)
    {
      if qlen < 1 || at - lastCheck < CHECK_INTERVAL {
        return;
      }
      ghost var s := View();
      ghost var v := s;
      while queue != [] && drcs[queue[0]].recycleTime > 0 && at - drcs[queue[0]].recycleTime > delta
        invariant v == View() && Inv(v) && (queue != [] ==> queue[0] in drcs)
        invariant Expire(v, at) == Expire(s, at)
        decreases |queue|
      {
        HeadFreedKeeps(v, HeadFreed(v));
        assert drcs[queue[0]].refcnt == 0;
        FreeHead();
        v := HeadFreed(v);
        HeadPresent(v);
      }
      lastCheck := at;
    }
  }

  lemma HeadPresent(s: Store)
    requires Inv(s)
    ensures s.queue != [] ==> s.queue[0] in s.drcs
  {
    assert s.queue != [] ==> s.queue[0] in s.queue;
  }

  // The queue without what stands at `i`, if anything does.
  function Cut(q: seq<nat>, i: nat): seq<nat>
    requires i <= |q|
  {
    if i < |q| then q[..i] + q[i + 1..] else q
  }

  lemma CutTail(q: seq<nat>, i: nat)
    requires 0 < i <= |q|
    ensures Cut(q, i) == [q[0]] + Cut(q[1..], i - 1)
  {
    if i < |q| {
      assert q[..i] == [q[0]] + q[1..i];
      assert q[1..][..i - 1] == q[1..i];
      assert q[1..][i..] == q[i + 1..];
    }
  }

  lemma {:induction false} WithoutAsSplit(q: seq<nat>, d: nat, i: nat)
    requires i <= |q| && d !in q[..i] && (i < |q| ==> q[i] == d)
    ensures Without(q, d) == Cut(q, i)
  {
    if i > 0 {
      assert q[0] == q[..i][0];
      assert q[1..][..i - 1] == q[..i][1..];
      WithoutAsSplit(q[1..], d, i - 1);
      CutTail(q, i);
    }
  }
}
