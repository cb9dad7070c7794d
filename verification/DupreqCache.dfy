/** The cache object: the entry points of nfs_dupreq.c as atomic operations on
    its fields, each tied to the step it takes. */
module DupreqCache {
  import opened Dupreq

  class Cache {
    var entries: map<nat, Entry>
    var index: map<Key, nat>
    var fifo: seq<nat>
    var size: nat
    var nextId: nat
    var retwnd: nat
    const maxsize: nat
    const hiwat: nat
    // rq_u1 of the live requests.
    var held: map<nat, nat>
    // Entries started and neither finished nor deleted.
    ghost var pending: set<nat>

    ghost function View(): Drc
      reads this
    {
      Drc(entries, index, fifo, size, nextId, retwnd, maxsize, hiwat, held, pending)
    }

    constructor (maxsize: nat, hiwat: nat)
      ensures View() == Empty(maxsize, hiwat)
    {
      entries, index, fifo, size, nextId, retwnd, held, pending := map[], map[], [], 0, 0, 0, map[], {};
      this.maxsize, this.hiwat := maxsize, hiwat;
    }

    // dupreq_entry_put
    method PutEntry(id: nat)
      requires id in entries && entries[id].refcnt > 0
      modifies this`entries
      ensures entries == Put(old(entries), id)
    {
      var refcnt := entries[id].refcnt - 1;
      entries := entries[id := entries[id].(refcnt := refcnt)];
      if refcnt == 0 {
        entries := entries - {id};
      }
      assert entries == Put(old(entries), id);
    }

    method Start(req: nat, key: Key) returns (answer: Answer)
      requires req !in held && (key in index ==> index[key] in entries)
      modifies this
      ensures View() == StartNext(old(View()), req, key)
      ensures answer == StartAnswer(old(View()), key)
    {
      if key in index {
        var dv := index[key];
        if entries[dv].state.Started? {
          answer := BeingProcessed;
        } else {
          held := held[req := dv];
          answer := Exists(entries[dv].res);
          entries := entries[dv := entries[dv].(refcnt := entries[dv].refcnt + 1)];
          if retwnd == 0 {
            retwnd := RETWND_START_BIAS;
          } else if retwnd < maxsize {
            retwnd := retwnd + 2;
          }
        }
      } else {
        var dk := nextId;
        nextId := nextId + 1;
        held := held[req := dk];
        index := index[key := dk];
        entries := entries[dk := Entry(key, Started, NoRes, 2)];
        fifo := fifo + [dk];
        size := size + 1;
        pending := pending + {dk};
        answer := Success;
      }
    }

    // Take the head of the queue out of queue and index.
    method RetireHead()
      requires fifo != [] && size == |fifo| && fifo[0] in entries && entries[fifo[0]].refcnt > 0
      modifies this
      ensures View() == Unqueued(old(View()), 0)
    {
      var ov := fifo[0];
      fifo := fifo[1..];
      assert fifo == old(fifo)[..0] + old(fifo)[1..];
      size := size - 1;
      index := index - {entries[ov].key};
      PutEntry(ov);
    }

    // Other threads, while the lock is dropped; they leave alone what request
    // `req` holds. `quiet` is when they do nothing.
    method Interfere(req: nat, ghost quiet: bool)
      requires Inv(View()) && req in held
      modifies this
      ensures Inv(View()) && Kept(old(View()), View(), req)
      ensures quiet ==> View() == old(View())
    {
      SameKept(View(), req);
    }

    // Under both locks again: retire the head if it still has the hash it had.
    method RetireIfSame(cksum: nat) returns (retired: bool)
      requires Inv(View())
      modifies this
      ensures retired <==> old(fifo != [] && fifo[0] in entries && entries[fifo[0]].key.cksum == cksum)
      ensures retired ==> old(fifo != [] && size > 0) && View() == Unqueued(old(View()), 0)
      ensures !retired ==> View() == old(View())
    {
      ghost var v := View();
      if fifo != [] {
        HeadHeld(v, Unqueued(v, 0));
      }
      if fifo == [] || entries[fifo[0]].key.cksum != cksum {
        return false;
      }
      RetireHead();
      return true;
    }

    // One turn: note the head's hash, drop the lock, look again.
    method RetireTurn(req: nat, ghost quiet: bool) returns (retired: bool)
      requires Inv(View()) && req in held && fifo != [] && size > 0
      modifies this
      ensures Inv(View()) && Kept(old(View()), View(), req)
      ensures quiet ==> retired && View() == Unqueued(old(View()), 0)
    {
      ghost var d := View();
      HeadHeld(d, Unqueued(d, 0));
      var cksum := entries[fifo[0]].key.cksum;
      Interfere(req, quiet);
      ghost var w := View();
      retired := RetireIfSame(cksum);
      if retired {
        RetiredKept(d, w, req);
      }
    }

    // The retire loop of a finish: it ends when another entry is at the head once
    // the lock is held again.
    method Retire(req: nat, ghost quiet: bool)
      requires Inv(View()) && req in held
      modifies this
      ensures Inv(View()) && Kept(old(View()), View(), req)
      ensures quiet ==> View() == RetireSome(old(View()), DUPREQ_MAX_RETRIES + 1)
    {
      var cnt := 0;
      ghost var d := View();
      SameKept(d, req);
      SizeIs(d);
      while (size > maxsize || (retwnd == 0 && size > hiwat)) && fifo != [] && cnt <= DUPREQ_MAX_RETRIES
        invariant 0 <= cnt <= DUPREQ_MAX_RETRIES + 1
        invariant Inv(View()) && Kept(d, View(), req) && size == |fifo|
        invariant quiet ==> RetireSome(View(), DUPREQ_MAX_RETRIES + 1 - cnt) == RetireSome(d, DUPREQ_MAX_RETRIES + 1)
        decreases DUPREQ_MAX_RETRIES + 1 - cnt
      {
        ghost var v := View();
        var retired := RetireTurn(req, quiet);
        KeptTwice(d, v, View(), req);
        SizeIs(View());
        RetireSomeTurn(v, DUPREQ_MAX_RETRIES + 1 - cnt);
        if !retired {
          return;
        }
        cnt := cnt + 1;
      }
    }

    method MarkComplete(req: nat, res: nat)
      requires CanFinish(View(), req)
      modifies this
      ensures View() == Completed(old(View()), req, res)
    {
      var dv := held[req];
      entries := entries[dv := entries[dv].(state := Complete, res := Res(res))];
      pending := pending - {dv};
      if retwnd > 0 {
        retwnd := retwnd - 1;
      }
    }

    // However the others interleave, the result is recorded; alone, this is the
    // whole finish.
    method Finish(req: nat, res: nat, ghost quiet: bool)
      requires Inv(View()) && CanFinish(View(), req)
      modifies this
      ensures Inv(View()) && req in held && held[req] == old(held[req]) && held[req] in entries
      ensures entries[held[req]].state == Complete && entries[held[req]].res == Res(res)
      ensures quiet ==> View() == FinishNext(old(View()), req, res)
    {
      CompletedKeepsInv(View(), req, res);
      MarkComplete(req, res);
      Retire(req, quiet);
    }

    // `fifoLeft` and `indexLeft` are what unlinking leaves of queue and index when a
    // finish has retired the entry meanwhile.
    method Delete(req: nat, fifoLeft: seq<nat>, indexLeft: map<Key, nat>)
      requires CanFinish(View(), req) && size == |fifo| && entries[held[req]].refcnt > 0
      modifies this
      ensures View() == AfterDelete(old(View()), req, fifoLeft, indexLeft)
    {
      var dv := held[req];
      entries := entries[dv := entries[dv].(state := Deleted)];
      pending := pending - {dv};
      if dv in fifo {
        index := index - {entries[dv].key};
        var i := Position(fifo, dv);
        fifo := fifo[..i] + fifo[i + 1..];
      } else {
        index, fifo := indexLeft, fifoLeft;
      }
      size := if size == 0 then 0xFFFF_FFFF else size - 1;
      PutEntry(dv);
    }

    method Rele(req: nat)
      requires req in held && held[req] in entries && entries[held[req]].refcnt > 0
      modifies this
      ensures View() == ReleNext(old(View()), req)
    {
      var dv := held[req];
      PutEntry(dv);
      held := held - {req};
    }
  }

  // The entry a request holds stays, with its state and result.
  predicate Kept(d: Drc, e: Drc, req: nat) {
    && req in d.held && req in e.held && e.held[req] == d.held[req]
    && d.held[req] in d.entries && d.held[req] in e.entries
    && e.entries[d.held[req]].state == d.entries[d.held[req]].state
    && e.entries[d.held[req]].res == d.entries[d.held[req]].res
  }

  lemma SameKept(d: Drc, req: nat)
    requires Inv(d) && req in d.held
    ensures Kept(d, d, req)
  {
  }

  lemma SizeIs(d: Drc)
    requires Inv(d)
    ensures d.size == |d.fifo|
  {
  }

  lemma RetireSomeTurn(v: Drc, turns: nat)
    requires v.size == |v.fifo| && ShouldRetire(v) && v.fifo != [] && turns > 0
    ensures RetireSome(v, turns) == RetireSome(Unqueued(v, 0), turns - 1)
  {
  }

  lemma KeptTwice(d: Drc, v: Drc, w: Drc, req: nat)
    requires Kept(d, v, req) && Kept(v, w, req)
    ensures Kept(d, w, req)
  {
  }

  lemma RetiredKept(d: Drc, w: Drc, req: nat)
    requires Kept(d, w, req) && Inv(w) && w.fifo != []
    ensures Kept(d, Unqueued(w, 0), req) && Inv(Unqueued(w, 0))
  {
    UnqueuedKeepsInv(w, 0);
  }
}
