/** The duplicate request cache of one transport: index, insertion queue, entry
    reference counts and the retirement heuristic of nfs_dupreq.c. */
module Dupreq {

  // Address, transaction id and checksum of a request.
  datatype Key = Key(addr: nat, xid: nat, cksum: nat)

  datatype EntryState = Started | Complete | Deleted

  datatype ResOpt = NoRes | Res(value: nat)

  datatype Entry = Entry(key: Key, state: EntryState, res: ResOpt, refcnt: nat)

  const RETWND_START_BIAS: nat := 16
  const DUPREQ_MAX_RETRIES: nat := 5

  // `held` maps a live request to the entry in its rq_u1; `pending` holds the
  // entries whose request was started and neither finished nor deleted.
  datatype Drc = Drc(
    entries: map<nat, Entry>, index: map<Key, nat>, fifo: seq<nat>, size: nat, nextId: nat,
    retwnd: nat, maxsize: nat, hiwat: nat, held: map<nat, nat>, pending: set<nat>)

  function Empty(maxsize: nat, hiwat: nat): Drc {
    Drc(map[], map[], [], 0, 0, 0, maxsize, hiwat, map[], {})
  }

  datatype Answer = Success | BeingProcessed | Exists(res: ResOpt)

  // ---------------------------------------------------------------- steps

  function IncRetwnd(d: Drc): nat {
    if d.retwnd == 0 then RETWND_START_BIAS else if d.retwnd < d.maxsize then d.retwnd + 2 else d.retwnd
  }

  predicate ShouldRetire(d: Drc) {
    d.size > d.maxsize || (d.retwnd == 0 && d.size > d.hiwat)
  }

  function Bump(m: map<nat, Entry>, id: nat): map<nat, Entry>
    requires id in m
  {
    m[id := m[id].(refcnt := m[id].refcnt + 1)]
  }

  // The entry a lookup finds.
  predicate Hit(d: Drc, key: Key) {
    key in d.index && d.index[key] in d.entries
  }

  // Give up one reference; the last one frees the entry.
  function Put(m: map<nat, Entry>, id: nat): map<nat, Entry> {
    if id !in m then m
    else if m[id].refcnt <= 1 then m - {id}
    else m[id := m[id].(refcnt := m[id].refcnt - 1)]
  }

  function StartAnswer(d: Drc, key: Key): Answer {
    if !Hit(d, key) then Success
    else var e := d.entries[d.index[key]];
         if e.state.Started? then BeingProcessed else Exists(e.res)
  }

  function StartNext(d: Drc, req: nat, key: Key): Drc {
    match StartAnswer(d, key)
    case BeingProcessed => d
    case Exists(_) =>
      var id := d.index[key];
      d.(entries := Bump(d.entries, id), held := d.held[req := id], retwnd := IncRetwnd(d))
    case Success =>
      var id := d.nextId;
      d.(entries := d.entries[id := Entry(key, Started, NoRes, 2)], index := d.index[key := id],
         fifo := d.fifo + [id], size := d.size + 1, nextId := id + 1,
         held := d.held[req := id], pending := d.pending + {id})
  }

  // Take the entry at position `i` out of queue and index and drop that reference.
  function Unqueued(d: Drc, i: nat): Drc
    requires i < |d.fifo| && d.size > 0
  {
    var id := d.fifo[i];
    d.(fifo := d.fifo[..i] + d.fifo[i + 1..], size := d.size - 1,
       index := if id in d.entries then d.index - {d.entries[id].key} else d.index, entries := Put(d.entries, id))
  }

  // Retire from the head, at most `turns` times.
  function RetireSome(d: Drc, turns: nat): Drc
    requires d.size == |d.fifo|
    decreases turns
  {
    if turns > 0 && ShouldRetire(d) && d.fifo != [] then RetireSome(Unqueued(d, 0), turns - 1) else d
  }

  function Completed(d: Drc, req: nat, res: nat): Drc
    requires req in d.held && d.held[req] in d.entries
  {
    var id := d.held[req];
    d.(entries := d.entries[id := d.entries[id].(state := Complete, res := Res(res))],
       retwnd := if d.retwnd > 0 then d.retwnd - 1 else 0, pending := d.pending - {id})
  }

  predicate CanFinish(d: Drc, req: nat) {
    req in d.held && d.held[req] in d.pending && d.held[req] in d.entries
  }

  // ------------------------------------------------------------ invariant

  // Index and queue hold the same entries.
  predicate Linked(d: Drc) {
    && (forall k <- d.index :: d.index[k] in d.entries && d.entries[d.index[k]].key == k && d.index[k] in d.fifo)
    && (forall id <- d.fifo :: id in d.entries && d.entries[id].key in d.index && d.index[d.entries[id].key] == id)
  }

  function Holders(d: Drc, id: nat): set<nat> {
    set r | r in d.held && d.held[r] == id
  }

  // One reference for being queued and one per holding request.
  predicate RefsExact(d: Drc) {
    && (forall id <- d.entries :: d.entries[id].refcnt > 0
                                  && d.entries[id].refcnt == (if id in d.fifo then 1 else 0) + |Holders(d, id)|)
    && (forall r <- d.held :: d.held[r] in d.entries)
  }

  // Insertion order.
  predicate Ordered(d: Drc) {
    && (forall i, j | 0 <= i < j < |d.fifo| :: d.fifo[i] < d.fifo[j])
    && (forall id <- d.fifo :: id < d.nextId)
    && (forall id <- d.entries :: id < d.nextId)
    && (forall id <- d.pending :: id < d.nextId)
  }

  predicate Phases(d: Drc) {
    forall id <- d.fifo :: && id in d.entries
                           && (d.entries[id].state.Started? <==> id in d.pending)
                           && !d.entries[id].state.Deleted?
                           && (d.entries[id].state.Complete? ==> d.entries[id].res.Res?)
  }

  // Everything but the size bound, which the middle of a finish breaks.
  predicate Inv(d: Drc) {
    Linked(d) && RefsExact(d) && Ordered(d) && Phases(d) && d.size == |d.fifo|
  }

  predicate Bounded(d: Drc) {
    d.size <= d.maxsize + |d.pending|
  }

  lemma UnqueuedFifo(d: Drc, i: nat)
    requires Ordered(d) && i < |d.fifo|
    ensures var f := d.fifo[..i] + d.fifo[i + 1..];
            && |f| == |d.fifo| - 1
            && (forall j, k | 0 <= j < k < |f| :: f[j] < f[k])
            && forall id: nat :: id in f <==> id in d.fifo && id != d.fifo[i]
  {
    var f := d.fifo[..i] + d.fifo[i + 1..];
    forall id: nat | id in d.fifo && id != d.fifo[i] ensures id in f {
      var j :| 0 <= j < |d.fifo| && d.fifo[j] == id;
      assert id == f[if j < i then j else j - 1];
    }
  }

  lemma UnqueuedLinked(d: Drc, i: nat)
    requires Inv(d) && i < |d.fifo|
    ensures Linked(Unqueued(d, i))
  {
    UnqueuedFifo(d, i);
    var gone, e := d.fifo[i], Unqueued(d, i);
    assert gone in d.fifo;
    forall k <- e.index ensures e.index[k] in e.entries && e.entries[e.index[k]].key == k && e.index[k] in e.fifo {
      assert k in d.index && e.index[k] != gone;
    }
    forall id <- e.fifo ensures id in e.entries && e.entries[id].key in e.index && e.index[e.entries[id].key] == id {
      assert id in d.fifo && id != gone && d.entries[id].key != d.entries[gone].key;
    }
  }

  lemma UnqueuedPhases(d: Drc, i: nat)
    requires Inv(d) && i < |d.fifo|
    ensures Ordered(Unqueued(d, i)) && Phases(Unqueued(d, i))
  {
    UnqueuedFifo(d, i);
    var gone, e := d.fifo[i], Unqueued(d, i);
    assert gone in d.fifo;
    forall id <- e.fifo ensures id in d.fifo && id in e.entries && e.entries[id] == d.entries[id] {}
  }

  lemma UnqueuedRefs(d: Drc, i: nat)
    requires Inv(d) && i < |d.fifo|
    ensures RefsExact(Unqueued(d, i))
  {
    UnqueuedFifo(d, i);
    var id, e := d.fifo[i], Unqueued(d, i);
    assert id in d.fifo;
    forall x: nat ensures Holders(e, x) == Holders(d, x) {}
    forall r <- e.held ensures e.held[r] in e.entries {
      if e.held[r] == id {
        assert r in Holders(d, id);
      }
    }
  }

  lemma UnqueuedKeepsInv(d: Drc, i: nat)
    requires Inv(d) && i < |d.fifo|
    ensures d.entries[d.fifo[i]].refcnt > 0
    ensures Inv(Unqueued(d, i))
  {
    assert d.fifo[i] in d.fifo;
    UnqueuedFifo(d, i);
    UnqueuedLinked(d, i);
    UnqueuedPhases(d, i);
    UnqueuedRefs(d, i);
  }

  lemma HeadHeld(d: Drc, e: Drc)
    requires Inv(d) && d.fifo != [] && e == Unqueued(d, 0)
    ensures d.fifo[0] in d.entries && d.entries[d.fifo[0]].refcnt > 0 && d.size == |d.fifo|
    ensures Inv(e)
  {
    UnqueuedKeepsInv(d, 0);
  }

  // ----------------------------------------------------- the other steps

  function FinishNext(d: Drc, req: nat, res: nat): Drc
    requires d.size == |d.fifo| && CanFinish(d, req)
  {
    RetireSome(Completed(d, req, res), DUPREQ_MAX_RETRIES + 1)
  }

  function Position(s: seq<nat>, x: nat): (i: nat)
    requires x in s
    ensures i < |s| && s[i] == x
  {
    if s[0] == x then 0 else 1 + Position(s[1..], x)
  }

  predicate CanDelete(d: Drc, req: nat) {
    CanFinish(d, req) && d.held[req] in d.fifo
  }

  function DeleteNext(d: Drc, req: nat): Drc
    requires d.size == |d.fifo| && CanDelete(d, req)
  {
    var id := d.held[req];
    Unqueued(d.(entries := d.entries[id := d.entries[id].(state := Deleted)], pending := d.pending - {id}),
             Position(d.fifo, id))
  }

  // Deleting an entry that a finish has taken off the queue: state, size (unsigned, 32
  // bits) and one reference go as ever; `fifo` and `index` are what unlinking it once
  // more leaves, which may be anything.
  function DeleteUnlinked(d: Drc, req: nat, fifo: seq<nat>, index: map<Key, nat>): Drc
    requires CanFinish(d, req)
  {
    var id := d.held[req];
    d.(entries := Put(d.entries[id := d.entries[id].(state := Deleted)], id), pending := d.pending - {id},
       fifo := fifo, index := index, size := if d.size == 0 then 0xFFFF_FFFF else d.size - 1)
  }

  function AfterDelete(d: Drc, req: nat, fifo: seq<nat>, index: map<Key, nat>): Drc
    requires d.size == |d.fifo| && CanFinish(d, req)
  {
    if CanDelete(d, req) then DeleteNext(d, req) else DeleteUnlinked(d, req, fifo, index)
  }

  function ReleNext(d: Drc, req: nat): Drc
    requires req in d.held
  {
    d.(held := d.held - {req}, entries := Put(d.entries, d.held[req]))
  }

  // ------------------------------------------------ each keeps the invariant

  lemma HoldersAfterHold(d: Drc, e: Drc, req: nat, id: nat)
    requires req !in d.held && e.held == d.held[req := id]
    ensures forall x: nat :: Holders(e, x) == if x == id then Holders(d, x) + {req} else Holders(d, x)
    ensures forall x: nat :: |Holders(e, x)| == |Holders(d, x)| + if x == id then 1 else 0
  {
    forall x: nat ensures Holders(e, x) == if x == id then Holders(d, x) + {req} else Holders(d, x) {}
  }

  lemma HoldersAfterRele(d: Drc, e: Drc, req: nat)
    requires req in d.held && e.held == d.held - {req}
    ensures forall x: nat :: Holders(e, x) == Holders(d, x) - {req}
    ensures forall x: nat :: |Holders(e, x)| == |Holders(d, x)| - if x == d.held[req] then 1 else 0
  {
    forall x: nat ensures Holders(e, x) == Holders(d, x) - {req} {}
    assert req in Holders(d, d.held[req]);
  }

  lemma StartKeepsRefs(d: Drc, req: nat, key: Key)
    requires Inv(d) && req !in d.held
    ensures RefsExact(StartNext(d, req, key))
  {
    var e := StartNext(d, req, key);
    match StartAnswer(d, key) {
      case BeingProcessed =>
      case Exists(_) =>
        HoldersAfterHold(d, e, req, d.index[key]);
      case Success =>
        HoldersAfterHold(d, e, req, d.nextId);
        assert Holders(d, d.nextId) == {};
    }
  }

  lemma NewKeepsLinks(d: Drc, req: nat, key: Key)
    requires Inv(d) && StartAnswer(d, key).Success?
    ensures Linked(StartNext(d, req, key))
  {
    var e := StartNext(d, req, key);
    assert d.nextId !in d.fifo && d.nextId !in d.entries;
    forall k <- e.index ensures e.index[k] in e.entries && e.entries[e.index[k]].key == k && e.index[k] in e.fifo {
      if k != key { assert k in d.index; }
    }
    forall id <- e.fifo ensures id in e.entries && e.entries[id].key in e.index && e.index[e.entries[id].key] == id {
      if id != d.nextId { assert id in d.fifo; }
    }
  }

  lemma NewKeepsOrder(d: Drc, req: nat, key: Key)
    requires Ordered(d) && Phases(d) && Linked(d) && StartAnswer(d, key).Success?
    ensures Ordered(StartNext(d, req, key)) && Phases(StartNext(d, req, key))
    ensures |StartNext(d, req, key).pending| == |d.pending| + 1
  {
    var e := StartNext(d, req, key);
    assert d.nextId !in d.pending && d.nextId !in d.fifo;
    forall id <- e.fifo ensures id == d.nextId || id in d.fifo {}
    forall i, j | 0 <= i < j < |e.fifo| ensures e.fifo[i] < e.fifo[j] {
      assert i < |d.fifo| && d.fifo[i] in d.fifo;
    }
  }

  lemma StartKeepsInv(d: Drc, req: nat, key: Key)
    requires Inv(d) && req !in d.held
    ensures Inv(StartNext(d, req, key))
    ensures Bounded(d) ==> Bounded(StartNext(d, req, key))
  {
    StartKeepsRefs(d, req, key);
    match StartAnswer(d, key) {
      case BeingProcessed =>
      case Exists(_) =>
        SameEntries(d, StartNext(d, req, key));
      case Success =>
        NewKeepsLinks(d, req, key);
        NewKeepsOrder(d, req, key);
    }
  }

  lemma CompletedKeepsInv(d: Drc, req: nat, res: nat)
    requires Inv(d) && CanFinish(d, req)
    ensures Inv(Completed(d, req, res))
    ensures |Completed(d, req, res).pending| == |d.pending| - 1
  {
    var e := Completed(d, req, res);
    forall x: nat ensures Holders(e, x) == Holders(d, x) {}
  }

  // The size retirement works down to: the hard bound while the window is open, and
  // the lower of the two marks once it is closed.
  function Floor(d: Drc): nat {
    if d.retwnd > 0 || d.maxsize < d.hiwat then d.maxsize else d.hiwat
  }

  function RetireCount(d: Drc, turns: nat): nat {
    if d.size <= Floor(d) then 0 else if d.size - Floor(d) < turns then d.size - Floor(d) else turns
  }

  // What retirement does: drop exactly that many of the oldest entries.
  lemma {:induction false} RetireSomeDrops(d: Drc, turns: nat) returns (n: nat)
    requires d.size == |d.fifo|
    ensures n == RetireCount(d, turns) && n <= turns && n <= |d.fifo|
    ensures var e := RetireSome(d, turns);
            && e.fifo == d.fifo[n..] && e.size == |e.fifo|
            && e == d.(fifo := e.fifo, size := e.size, index := e.index, entries := e.entries)
    decreases turns
  {
    n := 0;
    if turns > 0 && ShouldRetire(d) && d.fifo != [] {
      var e := Unqueued(d, 0);
      assert e.fifo == d.fifo[1..];
      var more := RetireSomeDrops(e, turns - 1);
      n := more + 1;
    }
  }

  lemma {:induction false} RetireSomeKeepsInv(d: Drc, turns: nat, r: Drc)
    requires Inv(d) && r == RetireSome(d, turns)
    ensures Inv(r)
    decreases turns
  {
    if turns > 0 && ShouldRetire(d) && d.fifo != [] {
      var e := Unqueued(d, 0);
      HeadHeld(d, e);
      RetireSomeKeepsInv(e, turns - 1, r);
    }
  }

  // A finish takes one entry off the pending ones and, above the bound, one off the queue.
  lemma FinishBounded(d: Drc, req: nat, res: nat)
    requires d.size == |d.fifo| && CanFinish(d, req) && Bounded(d)
    ensures Bounded(FinishNext(d, req, res))
  {
    var c := Completed(d, req, res);
    assert |c.pending| == |d.pending| - 1;
    var n := RetireSomeDrops(c, DUPREQ_MAX_RETRIES + 1);
  }

  lemma FinishKeepsInv(d: Drc, req: nat, res: nat)
    requires Inv(d) && CanFinish(d, req)
    ensures Inv(FinishNext(d, req, res))
    ensures Bounded(d) ==> Bounded(FinishNext(d, req, res))
  {
    CompletedKeepsInv(d, req, res);
    RetireSomeKeepsInv(Completed(d, req, res), DUPREQ_MAX_RETRIES + 1, FinishNext(d, req, res));
    if Bounded(d) {
      FinishBounded(d, req, res);
    }
  }

  // Marking the entry before or after taking it out of the queue is the same.
  lemma DeleteAsUnqueue(d: Drc, req: nat)
    requires Inv(d) && CanDelete(d, req)
    ensures var id, i := d.held[req], Position(d.fifo, d.held[req]);
            var u := Unqueued(d, i);
            && id in u.entries && DeleteNext(d, req) ==
               u.(entries := u.entries[id := u.entries[id].(state := Deleted)], pending := d.pending - {id})
  {
    var id, i := d.held[req], Position(d.fifo, d.held[req]);
    assert req in Holders(d, id) && id in d.fifo;
    assert d.entries[id].refcnt >= 2;
    var u, v := Unqueued(d, i), DeleteNext(d, req);
    assert v.entries == u.entries[id := u.entries[id].(state := Deleted)];
  }

  lemma MarkKeepsInv(u: Drc, id: nat)
    requires Inv(u) && id in u.entries && id !in u.fifo
    ensures Inv(u.(entries := u.entries[id := u.entries[id].(state := Deleted)], pending := u.pending - {id}))
  {
    var e := u.(entries := u.entries[id := u.entries[id].(state := Deleted)], pending := u.pending - {id});
    forall x: nat ensures Holders(e, x) == Holders(u, x) {}
  }

  lemma DeleteKeepsInv(d: Drc, req: nat)
    requires Inv(d) && CanDelete(d, req)
    ensures Inv(DeleteNext(d, req))
    ensures Bounded(d) ==> Bounded(DeleteNext(d, req))
  {
    var id := d.held[req];
    var i := Position(d.fifo, id);
    DeleteAsUnqueue(d, req);
    UnqueuedKeepsInv(d, i);
    UnqueuedFifo(d, i);
    MarkKeepsInv(Unqueued(d, i), id);
  }

  // The reference of the queue was given up when the entry was retired; giving it up
  // again takes the one of a request.
  lemma UnlinkedMiscounts(d: Drc, req: nat, e: Drc)
    requires RefsExact(d) && CanFinish(d, req) && !CanDelete(d, req)
    requires e.entries == DeleteUnlinked(d, req, e.fifo, e.index).entries && e.held == d.held
    ensures !RefsExact(e)
    ensures d.held[req] !in e.entries <==> Holders(d, d.held[req]) == {req}
  {
    var id := d.held[req];
    assert Holders(e, id) == Holders(d, id);
    assert req in Holders(d, id);
    var others := Holders(d, id) - {req};
    assert |Holders(d, id)| == 1 + |others|;
    assert others == {} <==> Holders(d, id) == {req};
  }

  /** A delete keeps the invariant exactly when its entry is still queued. Otherwise the
      counts are off whatever becomes of queue and index, and the entry is freed under
      its request when no other request holds it. */
  lemma DeleteKeepsInvIff(d: Drc, req: nat, fifo: seq<nat>, index: map<Key, nat>)
    requires Inv(d) && CanFinish(d, req)
    ensures Inv(AfterDelete(d, req, fifo, index)) <==> CanDelete(d, req)
    ensures !CanDelete(d, req) ==>
              (d.held[req] !in AfterDelete(d, req, fifo, index).entries <==> Holders(d, d.held[req]) == {req})
  {
    if CanDelete(d, req) {
      DeleteKeepsInv(d, req);
    } else {
      UnlinkedMiscounts(d, req, AfterDelete(d, req, fifo, index));
    }
  }

  lemma ReleCounts(d: Drc, req: nat, x: nat)
    requires RefsExact(d) && req in d.held && x in d.entries
    ensures var e := ReleNext(d, req);
            && |Holders(e, x)| == |Holders(d, x)| - (if x == d.held[req] then 1 else 0)
            && (x == d.held[req] ==> d.entries[x].refcnt >= 1 + if x in d.fifo then 1 else 0)
  {
    HoldersAfterRele(d, ReleNext(d, req), req);
    assert req in Holders(d, d.held[req]);
  }

  lemma ReleKeepsRefs(d: Drc, req: nat)
    requires RefsExact(d) && req in d.held
    ensures RefsExact(ReleNext(d, req))
    ensures d.held[req] in d.fifo ==> d.held[req] in ReleNext(d, req).entries
  {
    var id, e := d.held[req], ReleNext(d, req);
    ReleCounts(d, req, id);
    forall x <- e.entries
      ensures e.entries[x].refcnt > 0 && e.entries[x].refcnt == (if x in e.fifo then 1 else 0) + |Holders(e, x)|
    {
      ReleCounts(d, req, x);
    }
    forall r <- e.held ensures e.held[r] in e.entries {
      if e.held[r] == id {
        assert r in Holders(e, id);
      }
    }
  }

  lemma SameEntries(d: Drc, e: Drc)
    requires Linked(d) && Ordered(d) && Phases(d)
    requires e.fifo == d.fifo && e.index == d.index && e.pending == d.pending && e.nextId == d.nextId
    requires forall id <- e.entries :: id in d.entries
    requires forall id <- d.fifo :: id in e.entries && e.entries[id].key == d.entries[id].key
                                    && e.entries[id].state == d.entries[id].state
                                    && e.entries[id].res == d.entries[id].res
    ensures Linked(e) && Ordered(e) && Phases(e)
  {
  }

  lemma ReleKeepsInv(d: Drc, req: nat)
    requires Inv(d) && req in d.held
    ensures Inv(ReleNext(d, req))
    ensures Bounded(d) ==> Bounded(ReleNext(d, req))
  {
    ReleKeepsRefs(d, req);
    SameEntries(d, ReleNext(d, req));
  }
}
