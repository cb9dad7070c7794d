/** Caches and their contents together: every cached entry holds one of the
    references the recycler counts, so a cache that is freed has no request in it. */
module DrcJoin {
  import D = Dupreq
  import R = DrcRecycle

  // The recycler's store and, for each cache in it, its contents.
  datatype World = World(store: R.Store, caches: map<nat, D.Drc>, maxsize: nat, hiwat: nat)

  datatype Step =
    // Any recycler step but those a request takes with its entry.
    | Recycler(step: R.Step)
    | Start(d: nat, req: nat, key: D.Key)
    | Mark(d: nat, req: nat, res: nat)
    | Retire(t: nat, d: nat)
    | Delete(t: nat, d: nat, req: nat)
    | Rele(d: nat, req: nat)

  predicate ByRequest(step: R.Step) {
    step.Keep? || (step.PutFast? && step.owner.Entry?)
  }

  // Contents follow the store: new caches start empty, freed ones go.
  function Follow(w: World, e: R.Store): map<nat, D.Drc> {
    map d | d in e.drcs :: if d in w.caches then w.caches[d] else D.Empty(w.maxsize, w.hiwat)
  }

  predicate Next(w: World, s: Step, v: World) {
    && v.maxsize == w.maxsize && v.hiwat == w.hiwat
    && match s
       case Recycler(step) =>
         !ByRequest(step) && R.Next(w.store, step, v.store) && v.caches == Follow(w, v.store)
       case Start(d, req, key) =>
         // A new entry takes over the call-path reference; a duplicate leaves it behind.
         && d in w.caches && req !in w.caches[d].held
         && R.Next(w.store, R.Keep(d, !D.StartAnswer(w.caches[d], key).Success?), v.store)
         && v.caches == w.caches[d := D.StartNext(w.caches[d], req, key)]
       case Mark(d, req, res) =>
         && d in w.caches && D.CanFinish(w.caches[d], req)
         && v.store == w.store && v.caches == w.caches[d := D.Completed(w.caches[d], req, res)]
       case Retire(t, d) =>
         && d in w.caches && w.caches[d].fifo != [] && w.caches[d].size > 0
         && R.Next(w.store, R.PutFast(t, d, R.Entry), v.store)
         && v.caches == w.caches[d := D.Unqueued(w.caches[d], 0)]
       case Delete(t, d, req) =>
         && d in w.caches && D.CanDelete(w.caches[d], req) && w.caches[d].size == |w.caches[d].fifo|
         && R.Next(w.store, R.PutFast(t, d, R.Entry), v.store)
         && v.caches == w.caches[d := D.DeleteNext(w.caches[d], req)]
       case Rele(d, req) =>
         && d in w.caches && req in w.caches[d].held
         && v.store == w.store && v.caches == w.caches[d := D.ReleNext(w.caches[d], req)]
  }

  // The references counted for entries are those of the queued entries.
  predicate Joined(w: World) {
    && w.caches.Keys == w.store.drcs.Keys
    && forall d <- w.caches :: w.store.drcs[d].queued == |w.caches[d].fifo|
  }

  // ------------------------------------------------------- the recycler's side

  // The step the recycler sees, if any.
  lemma StoreKeeps(w: World, s: Step, v: World)
    requires R.Inv(w.store) && Next(w, s, v)
    ensures R.Inv(v.store)
  {
    match s {
      case Recycler(step) => R.StepKeeps(w.store, step, v.store);
      case Start(d, _, key) =>
        R.StepKeeps(w.store, R.Keep(d, !D.StartAnswer(w.caches[d], key).Success?), v.store);
      case Retire(t, d) => R.StepKeeps(w.store, R.PutFast(t, d, R.Entry), v.store);
      case Delete(t, d, _) => R.StepKeeps(w.store, R.PutFast(t, d, R.Entry), v.store);
      case Mark(_, _, _) =>
      case Rele(_, _) =>
    }
  }

  // Recycler steps of this kind leave the entry count of old caches alone and
  // start new ones at zero.
  lemma PlainStep(s: R.Store, step: R.Step, e: R.Store, d: nat)
    requires R.Next(s, step, e) && !ByRequest(step) && !step.FreeExpired? && d in e.drcs
    requires d in s.drcs ==> d < s.nextId
    ensures d in s.drcs ==> e.drcs[d].queued == s.drcs[d].queued
    ensures d !in s.drcs ==> e.drcs[d].queued == 0
  {
  }

  lemma QueuedStep(s: R.Store, step: R.Step, e: R.Store, d: nat)
    requires R.Inv(s) && R.Next(s, step, e) && !ByRequest(step) && d in e.drcs
    ensures d in s.drcs ==> e.drcs[d].queued == s.drcs[d].queued
    ensures d !in s.drcs ==> e.drcs[d].queued == 0
  {
    if step.FreeExpired? {
      R.ExpiryLeaks(s, step.at, e, d);
    } else {
      PlainStep(s, step, e, d);
    }
  }

  // ------------------------------------------------------------- the contents

  lemma EmptyInv(maxsize: nat, hiwat: nat)
    ensures D.Inv(D.Empty(maxsize, hiwat)) && D.Empty(maxsize, hiwat).fifo == []
  {
  }

  lemma ContentsStep(w: World, s: Step, v: World, x: nat)
    requires Next(w, s, v) && x in v.caches && (x in w.caches ==> D.Inv(w.caches[x]))
    ensures D.Inv(v.caches[x])
  {
    if s.Recycler? {
      EmptyInv(w.maxsize, w.hiwat);
    } else if x == s.d {
      var c := w.caches[x];
      match s {
        case Start(_, req, key) => D.StartKeepsInv(c, req, key);
        case Mark(_, req, res) => D.CompletedKeepsInv(c, req, res);
        case Retire(_, _) => D.UnqueuedKeepsInv(c, 0);
        case Delete(_, _, req) => D.DeleteKeepsInv(c, req);
        case Rele(_, req) => D.ReleKeepsInv(c, req);
      }
    }
  }

  // -------------------------------------------------------------- both together

  lemma StartQueue(c: D.Drc, req: nat, key: D.Key)
    ensures |D.StartNext(c, req, key).fifo| == |c.fifo| + if D.StartAnswer(c, key).Success? then 1 else 0
  {
  }

  // A request's step moves the queue and the entry count of its cache alike.
  lemma QueueStep(w: World, s: Step, v: World)
    requires Next(w, s, v) && !s.Recycler? && s.d in w.store.drcs
    ensures v.store.drcs.Keys == w.store.drcs.Keys
    ensures forall x <- w.store.drcs :: x != s.d ==> v.store.drcs[x] == w.store.drcs[x]
    ensures v.store.drcs[s.d].queued - w.store.drcs[s.d].queued == |v.caches[s.d].fifo| - |w.caches[s.d].fifo|
  {
    if s.Start? {
      StartQueue(w.caches[s.d], s.req, s.key);
    }
  }

  lemma FollowJoined(w: World, step: R.Step, v: World, d: nat)
    requires R.Inv(w.store) && Next(w, Recycler(step), v) && d in v.caches && (d in w.caches <==> d in w.store.drcs)
    requires d in w.caches ==> w.store.drcs[d].queued == |w.caches[d].fifo|
    ensures d in v.store.drcs && v.store.drcs[d].queued == |v.caches[d].fifo|
  {
    QueuedStep(w.store, step, v.store, d);
  }

  lemma JoinedByRecycler(w: World, step: R.Step, v: World)
    requires R.Inv(w.store) && Joined(w) && Next(w, Recycler(step), v)
    ensures Joined(v)
  {
    forall d <- v.caches ensures v.store.drcs[d].queued == |v.caches[d].fifo| {
      FollowJoined(w, step, v, d);
    }
  }

  lemma JoinedByRequest(w: World, s: Step, v: World)
    requires Joined(w) && Next(w, s, v) && !s.Recycler?
    ensures Joined(v)
  {
    QueueStep(w, s, v);
  }

  predicate StepAt(worlds: seq<World>, steps: seq<Step>, i: nat)
    requires |worlds| == |steps| + 1 && i < |steps|
  {
    Next(worlds[i], steps[i], worlds[i + 1])
  }

  predicate IsRun(worlds: seq<World>, steps: seq<Step>) {
    && |worlds| == |steps| + 1
    && worlds[0].store.now > 0 && worlds[0].store == R.Fresh(worlds[0].store.now, worlds[0].store.delta)
    && worlds[0].caches == map[]
    && forall i: nat | i < |steps| :: StepAt(worlds, steps, i)
  }

  lemma {:induction false} RunStore(worlds: seq<World>, steps: seq<Step>, k: nat)
    requires IsRun(worlds, steps) && k < |worlds|
    ensures R.Inv(worlds[k].store)
  {
    if k > 0 {
      RunStore(worlds, steps, k - 1);
      assert StepAt(worlds, steps, k - 1);
      StoreKeeps(worlds[k - 1], steps[k - 1], worlds[k]);
    }
  }

  /** In every run, finishes interleaved at will, each cache keeps its invariant. */
  lemma {:induction false} RunContents(worlds: seq<World>, steps: seq<Step>, k: nat, d: nat)
    requires IsRun(worlds, steps) && k < |worlds| && d in worlds[k].caches
    ensures D.Inv(worlds[k].caches[d])
  {
    if k > 0 {
      if d in worlds[k - 1].caches {
        RunContents(worlds, steps, k - 1, d);
      }
      assert StepAt(worlds, steps, k - 1);
      ContentsStep(worlds[k - 1], steps[k - 1], worlds[k], d);
    }
  }

  /** In every run the recycler's count of cached entries is the length of the
      request queue, for every cache. */
  lemma {:induction false} RunJoined(worlds: seq<World>, steps: seq<Step>, k: nat)
    requires IsRun(worlds, steps) && k < |worlds|
    ensures Joined(worlds[k])
  {
    if k > 0 {
      RunJoined(worlds, steps, k - 1);
      RunStore(worlds, steps, k - 1);
      assert StepAt(worlds, steps, k - 1);
      if steps[k - 1].Recycler? {
        JoinedByRecycler(worlds[k - 1], steps[k - 1].step, worlds[k]);
      } else {
        JoinedByRequest(worlds[k - 1], steps[k - 1], worlds[k]);
      }
    }
  }

  lemma NothingIndexed(c: D.Drc)
    requires D.Linked(c) && c.fifo == []
    ensures c.index == map[]
  {
    assert forall k <- c.index :: c.index[k] in c.fifo;
  }

  // The recycler frees only caches without counted entries.
  lemma FreedUncounted(worlds: seq<World>, steps: seq<Step>, k: nat, at: int, d: nat)
    requires IsRun(worlds, steps) && k < |steps| && steps[k] == Recycler(R.FreeExpired(at))
    requires d in worlds[k].store.drcs && d !in worlds[k + 1].store.drcs
    ensures worlds[k].store.drcs[d].queued == 0
  {
    RunStore(worlds, steps, k);
    assert StepAt(worlds, steps, k);
    R.FreesExactlyExpired(worlds[k].store, at, d);
  }

  /** A cache the expiry pass frees has an empty request queue and an empty index. */
  lemma FreedIsEmpty(worlds: seq<World>, steps: seq<Step>, k: nat, at: int, d: nat)
    requires IsRun(worlds, steps) && k < |steps| && steps[k] == Recycler(R.FreeExpired(at))
    requires d in worlds[k].caches && d !in worlds[k + 1].caches
    ensures worlds[k].caches[d].fifo == [] && worlds[k].caches[d].index == map[]
  {
    RunJoined(worlds, steps, k);
    RunJoined(worlds, steps, k + 1);
    FreedUncounted(worlds, steps, k, at, d);
    RunContents(worlds, steps, k, d);
    NothingIndexed(worlds[k].caches[d]);
  }
}
