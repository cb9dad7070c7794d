/** Runs of the duplicate request cache: any interleaving of start, finish,
    delete and release from the empty cache. A finish is one step, or a `Mark`
    followed by any number of `Retire` steps with anything in between, as in the
    source, which drops the lock before it takes the head out. */
module DupreqRuns {
  import opened Dupreq

  datatype Step =
    | Start(req: nat, key: Key)
    | Finish(req: nat, res: nat)
    | Mark(req: nat, res: nat)
    | Retire
    | Delete(req: nat)
    | Rele(req: nat)

  // What the callers of each entry point guarantee.
  predicate Enabled(d: Drc, s: Step) {
    match s
    case Start(req, _) => req !in d.held
    case Finish(req, _) => CanFinish(d, req)
    case Mark(req, _) => CanFinish(d, req)
    case Retire => d.fifo != []
    case Delete(req) => CanDelete(d, req)
    case Rele(req) => req in d.held
  }

  predicate Next(d: Drc, s: Step, e: Drc) {
    d.size == |d.fifo| && Enabled(d, s) &&
    match s
    case Start(req, key) => e == StartNext(d, req, key)
    case Finish(req, res) => e == FinishNext(d, req, res)
    case Mark(req, res) => e == Completed(d, req, res)
    case Retire => e == Unqueued(d, 0)
    case Delete(req) => e == DeleteNext(d, req)
    case Rele(req) => e == ReleNext(d, req)
  }

  predicate StepAt(ds: seq<Drc>, ss: seq<Step>, i: nat)
    requires |ds| == |ss| + 1 && i < |ss|
  {
    Next(ds[i], ss[i], ds[i + 1])
  }

  // `ds[i]` is the cache before step `ss[i]`.
  predicate IsRun(ds: seq<Drc>, ss: seq<Step>) {
    && |ds| == |ss| + 1
    && ds[0] == Empty(ds[0].maxsize, ds[0].hiwat)
    && forall i: nat | i < |ss| :: StepAt(ds, ss, i)
  }

  predicate Executes(d: Drc, s: Step, key: Key) {
    s.Start? && s.key == key && StartAnswer(d, key).Success?
  }

  predicate Records(s: Step) {
    s.Finish? || s.Mark?
  }

  predicate Finishes(d: Drc, s: Step, id: nat) {
    Records(s) && s.req in d.held && d.held[s.req] == id
  }

  predicate Deletes(d: Drc, s: Step, id: nat) {
    s.Delete? && s.req in d.held && d.held[s.req] == id
  }

  predicate Hits(d: Drc, s: Step) {
    s.Start? && StartAnswer(d, s.key).Exists?
  }

  // --------------------------------------------------------- every state

  // No finish is split.
  predicate Atomic(ss: seq<Step>) {
    forall i | 0 <= i < |ss| :: !ss[i].Mark?
  }

  lemma StepKeeps(d: Drc, s: Step, e: Drc)
    requires Inv(d) && Next(d, s, e)
    ensures Inv(e)
    ensures Bounded(d) && !s.Mark? ==> Bounded(e)
  {
    match s {
      case Start(req, key) => StartKeepsInv(d, req, key);
      case Finish(req, res) => FinishKeepsInv(d, req, res);
      case Mark(req, res) => CompletedKeepsInv(d, req, res);
      case Retire => UnqueuedKeepsInv(d, 0);
      case Delete(req) => DeleteKeepsInv(d, req);
      case Rele(req) => ReleKeepsInv(d, req);
    }
  }

  lemma {:induction false} RunInv(ds: seq<Drc>, ss: seq<Step>, k: nat)
    requires IsRun(ds, ss) && k < |ds|
    ensures Inv(ds[k])
    ensures Atomic(ss) ==> Bounded(ds[k])
  {
    if k > 0 {
      RunInv(ds, ss, k - 1);
      assert StepAt(ds, ss, k - 1);
      StepKeeps(ds[k - 1], ss[k - 1], ds[k]);
    }
  }

  // An entry exists exactly while it is queued or some request holds it.
  lemma FreedIff(d: Drc, id: nat)
    requires Inv(d)
    ensures id in d.entries <==> id in d.fifo || exists r :: r in d.held && d.held[r] == id
  {
    if id in d.entries && id !in d.fifo {
      assert |Holders(d, id)| > 0;
      assert Holders(d, id) != {};
      var r :| r in Holders(d, id);
    }
  }

  // ------------------------------------------------- how one step moves an entry

  // What a step does to the queue: start appends, finish drops a prefix, delete
  // takes out one entry.
  lemma FifoStep(d: Drc, s: Step, e: Drc) returns (n: nat)
    requires Inv(d) && Next(d, s, e)
    ensures n <= |d.fifo| && (n > 0 ==> s.Finish? || s.Retire?)
    ensures match s
            case Start(_, key) => e.fifo == if Executes(d, s, key) then d.fifo + [d.nextId] else d.fifo
            case Finish(_, _) => e.fifo == d.fifo[n..] && n <= DUPREQ_MAX_RETRIES + 1
            case Mark(_, _) => e.fifo == d.fifo
            case Retire => n == 1 && e.fifo == d.fifo[n..]
            case Delete(req) => forall id: nat :: id in e.fifo <==> id in d.fifo && id != d.held[req]
            case Rele(_) => e.fifo == d.fifo
    ensures e.nextId == d.nextId + if s.Start? && Executes(d, s, s.key) then 1 else 0
  {
    n := 0;
    match s {
      case Start(_, _) =>
      case Finish(req, res) =>
        n := RetireSomeDrops(Completed(d, req, res), DUPREQ_MAX_RETRIES + 1);
      case Mark(_, _) =>
      case Retire =>
        n := 1;
        assert d.fifo[..0] + d.fifo[1..] == d.fifo[1..];
      case Delete(req) =>
        UnqueuedFifo(d, Position(d.fifo, d.held[req]));
      case Rele(_) =>
    }
  }

  // No id returns to the queue, to the pending set or from the free list.
  lemma NoReturn(d: Drc, s: Step, e: Drc, id: nat)
    requires Inv(d) && Next(d, s, e) && id < d.nextId
    ensures id < e.nextId
    ensures id !in d.fifo ==> id !in e.fifo
    ensures id !in d.pending ==> id !in e.pending
    ensures Finishes(d, s, id) ==> id in d.pending && id !in e.pending
  {
    var n := FifoStep(d, s, e);
    if s.Finish? {
      var m := RetireSomeDrops(Completed(d, s.req, s.res), DUPREQ_MAX_RETRIES + 1);
    }
  }

  predicate Ascending(s: seq<nat>) {
    forall i, j | 0 <= i < j < |s| :: s[i] < s[j]
  }

  lemma UnqueueOther(d: Drc, id: nat)
    requires d.fifo != [] && d.size > 0 && id in d.entries && id != d.fifo[0]
    ensures id in Unqueued(d, 0).entries && Unqueued(d, 0).entries[id] == d.entries[id]
  {
  }

  lemma NotHead(s: seq<nat>, n: nat, id: nat)
    requires Ascending(s) && s != [] && n < |s| && id in s[1..][n..]
    ensures id != s[0] && Ascending(s[1..])
  {
  }

  // Retiring leaves the entries that stay queued alone.
  lemma {:induction false} RetireSomeEntry(d: Drc, turns: nat, id: nat)
    requires d.size == |d.fifo| && Ascending(d.fifo) && id in d.entries && id in RetireSome(d, turns).fifo
    ensures id in RetireSome(d, turns).entries && RetireSome(d, turns).entries[id] == d.entries[id]
    decreases turns
  {
    if turns > 0 && ShouldRetire(d) && d.fifo != [] {
      var e := Unqueued(d, 0);
      assert e.fifo == d.fifo[1..];
      var n := RetireSomeDrops(e, turns - 1);
      NotHead(d.fifo, n, id);
      UnqueueOther(d, id);
      RetireSomeEntry(e, turns - 1, id);
    }
  }

  lemma FinishEntry(d: Drc, req: nat, res: nat, id: nat)
    requires d.size == |d.fifo| && Ascending(d.fifo) && CanFinish(d, req)
    requires id in d.entries && id in FinishNext(d, req, res).fifo
    ensures var e := FinishNext(d, req, res);
            id in e.entries && e.entries[id] ==
            if d.held[req] == id then d.entries[id].(state := Complete, res := Res(res)) else d.entries[id]
  {
    RetireSomeEntry(Completed(d, req, res), DUPREQ_MAX_RETRIES + 1, id);
  }

  predicate SameRecord(x: Entry, y: Entry) {
    x.key == y.key && x.state == y.state && x.res == y.res
  }

  lemma DeleteEntry(d: Drc, req: nat, id: nat)
    requires Inv(d) && CanDelete(d, req) && id in d.fifo && id in DeleteNext(d, req).fifo
    ensures var e := DeleteNext(d, req); id in d.entries && id in e.entries && e.entries[id] == d.entries[id]
  {
    UnqueuedFifo(d, Position(d.fifo, d.held[req]));
  }

  lemma ReleEntry(d: Drc, req: nat, id: nat)
    requires Inv(d) && req in d.held && id in d.fifo
    ensures var e := ReleNext(d, req);
            id in d.entries && id in e.entries && SameRecord(e.entries[id], d.entries[id])
  {
    ReleKeepsRefs(d, req);
  }

  lemma RetireEntry(d: Drc, id: nat)
    requires Inv(d) && d.fifo != [] && id in d.fifo && id in Unqueued(d, 0).fifo
    ensures var e := Unqueued(d, 0); id in d.entries && id in e.entries && e.entries[id] == d.entries[id]
  {
    UnqueuedFifo(d, 0);
    UnqueueOther(d, id);
  }

  lemma OtherEntry(d: Drc, s: Step, e: Drc, id: nat)
    requires Inv(d) && Next(d, s, e) && !Records(s) && id in d.fifo && id in e.fifo
    ensures id in d.entries && id in e.entries && SameRecord(e.entries[id], d.entries[id])
  {
    match s {
      case Start(_, _) =>
      case Retire => RetireEntry(d, id);
      case Delete(req) => DeleteEntry(d, req, id);
      case Rele(req) => ReleEntry(d, req, id);
    }
  }

  // While it stays queued an entry keeps its key, and only its own finish
  // changes its state and result.
  lemma EntryStep(d: Drc, s: Step, e: Drc, id: nat)
    requires Inv(d) && Next(d, s, e) && id in d.fifo && id in e.fifo
    ensures id in d.entries && id in e.entries && e.entries[id].key == d.entries[id].key
    ensures if Finishes(d, s, id) then e.entries[id].state == Complete && e.entries[id].res == Res(s.res)
            else SameRecord(e.entries[id], d.entries[id])
  {
    if s.Finish? {
      FinishEntry(d, s.req, s.res, id);
    } else if !s.Mark? {
      OtherEntry(d, s, e, id);
    }
  }

  // ------------------------------------------------------- at most once

  // The result the last finish of `id` before state `k` recorded, if any.
  function Recorded(ds: seq<Drc>, ss: seq<Step>, id: nat, k: nat): ResOpt
    requires |ds| == |ss| + 1 && k < |ds|
  {
    if k == 0 then NoRes
    else if Finishes(ds[k - 1], ss[k - 1], id) then Res(ss[k - 1].res)
    else Recorded(ds, ss, id, k - 1)
  }

  lemma {:induction false} NothingRecordedYet(ds: seq<Drc>, ss: seq<Step>, id: nat, k: nat)
    requires IsRun(ds, ss) && k < |ds| && id >= ds[k].nextId
    ensures Recorded(ds, ss, id, k) == NoRes
  {
    if k > 0 {
      RunInv(ds, ss, k - 1);
      assert StepAt(ds, ss, k - 1);
      var n := FifoStep(ds[k - 1], ss[k - 1], ds[k]);
      NothingRecordedYet(ds, ss, id, k - 1);
    }
  }

  predicate AsRecorded(e: Entry, key: Key, r: ResOpt) {
    e.key == key && e.state == (if r.NoRes? then Started else Complete) && e.res == r
  }

  lemma HistoryStarts(ds: seq<Drc>, ss: seq<Step>, i: nat, key: Key)
    requires IsRun(ds, ss) && i < |ss| && Executes(ds[i], ss[i], key)
    ensures var id := ds[i].nextId;
            id in ds[i + 1].entries && AsRecorded(ds[i + 1].entries[id], key, Recorded(ds, ss, id, i + 1))
  {
    assert StepAt(ds, ss, i);
    NothingRecordedYet(ds, ss, ds[i].nextId, i);
  }

  lemma HistoryGrows(ds: seq<Drc>, ss: seq<Step>, k: nat, id: nat, key: Key)
    requires IsRun(ds, ss) && k < |ss| && id < ds[k].nextId && id in ds[k + 1].fifo
    ensures id in ds[k].fifo
    ensures id in ds[k].entries && AsRecorded(ds[k].entries[id], key, Recorded(ds, ss, id, k)) ==>
              id in ds[k + 1].entries && AsRecorded(ds[k + 1].entries[id], key, Recorded(ds, ss, id, k + 1))
  {
    RunInv(ds, ss, k);
    var d, s, e := ds[k], ss[k], ds[k + 1];
    assert StepAt(ds, ss, k);
    NoReturn(d, s, e, id);
    EntryStep(d, s, e, id);
  }

  // The state and result of a queued entry are those of its own history.
  lemma {:induction false} CachedHistory(ds: seq<Drc>, ss: seq<Step>, i: nat, key: Key, k: nat)
    requires IsRun(ds, ss) && i < k < |ds| && Executes(ds[i], ss[i], key) && ds[i].nextId in ds[k].fifo
    ensures var id := ds[i].nextId;
            id in ds[k].entries && AsRecorded(ds[k].entries[id], key, Recorded(ds, ss, id, k))
  {
    if k == i + 1 {
      HistoryStarts(ds, ss, i, key);
    } else {
      BornBefore(ds, ss, i, key, k - 1);
      HistoryGrows(ds, ss, k - 1, ds[i].nextId, key);
      CachedHistory(ds, ss, i, key, k - 1);
    }
  }

  lemma {:induction false} BornBefore(ds: seq<Drc>, ss: seq<Step>, i: nat, key: Key, k: nat)
    requires IsRun(ds, ss) && i < k < |ds| && Executes(ds[i], ss[i], key)
    ensures ds[i].nextId < ds[k].nextId
  {
    RunInv(ds, ss, k - 1);
    assert StepAt(ds, ss, k - 1);
    var n := FifoStep(ds[k - 1], ss[k - 1], ds[k]);
    if k > i + 1 {
      BornBefore(ds, ss, i, key, k - 1);
    }
  }

  /** While the entry of an executed request is cached, its key is never executed
      again: duplicates see "being processed" until the finish and exactly the
      recorded result after it. */
  lemma AtMostOnce(ds: seq<Drc>, ss: seq<Step>, i: nat, key: Key, k: nat)
    requires IsRun(ds, ss) && i < k < |ds| && Executes(ds[i], ss[i], key) && ds[i].nextId in ds[k].fifo
    ensures StartAnswer(ds[k], key) == match Recorded(ds, ss, ds[i].nextId, k)
                                       case NoRes => BeingProcessed
                                       case Res(v) => Exists(Res(v))
  {
    RunInv(ds, ss, k);
    CachedHistory(ds, ss, i, key, k);
  }

  // Every queued entry was put there by the execution that took its id.
  lemma {:induction false} Provenance(ds: seq<Drc>, ss: seq<Step>, k: nat, id: nat) returns (i: nat)
    requires IsRun(ds, ss) && k < |ds| && id in ds[k].fifo
    ensures i < k && ds[i].nextId == id && id in ds[k].entries && Executes(ds[i], ss[i], ds[k].entries[id].key)
  {
    RunInv(ds, ss, k - 1);
    assert StepAt(ds, ss, k - 1);
    var n := FifoStep(ds[k - 1], ss[k - 1], ds[k]);
    if id in ds[k - 1].fifo {
      EntryStep(ds[k - 1], ss[k - 1], ds[k], id);
      i := Provenance(ds, ss, k - 1, id);
    } else {
      i := k - 1;
    }
  }

  predicate StillCached(ds: seq<Drc>, ss: seq<Step>, key: Key, k: nat, i: nat) {
    i < k < |ds| && i < |ss| && Executes(ds[i], ss[i], key) && ds[i].nextId in ds[k].fifo
  }

  /** A key is executed exactly when no earlier execution of it is still cached. */
  lemma ExecutedIff(ds: seq<Drc>, ss: seq<Step>, key: Key, k: nat)
    requires IsRun(ds, ss) && k < |ds|
    ensures StartAnswer(ds[k], key).Success? <==> !exists i: nat :: StillCached(ds, ss, key, k, i)
  {
    RunInv(ds, ss, k);
    if i: nat :| StillCached(ds, ss, key, k, i) {
      AtMostOnce(ds, ss, i, key, k);
    }
    if !StartAnswer(ds[k], key).Success? {
      var i := Provenance(ds, ss, k, ds[k].index[key]);
      assert StillCached(ds, ss, key, k, i);
    }
  }

  lemma NoReturnAt(ds: seq<Drc>, ss: seq<Step>, k: nat, id: nat)
    requires IsRun(ds, ss) && k < |ss| && id < ds[k].nextId
    ensures id < ds[k + 1].nextId
    ensures id !in ds[k].fifo ==> id !in ds[k + 1].fifo
    ensures id !in ds[k].pending ==> id !in ds[k + 1].pending
  {
    RunInv(ds, ss, k);
    assert StepAt(ds, ss, k);
    NoReturn(ds[k], ss[k], ds[k + 1], id);
  }

  lemma {:induction false} NeverAgain(ds: seq<Drc>, ss: seq<Step>, j: nat, k: nat, id: nat)
    requires IsRun(ds, ss) && j <= k < |ds| && id < ds[j].nextId
    ensures id < ds[k].nextId
    ensures id !in ds[j].fifo ==> id !in ds[k].fifo
    ensures id !in ds[j].pending ==> id !in ds[k].pending
    decreases k - j
  {
    if j < k {
      NeverAgain(ds, ss, j, k - 1, id);
      NoReturnAt(ds, ss, k - 1, id);
    }
  }

  lemma FinisherBorn(ds: seq<Drc>, ss: seq<Step>, k: nat, id: nat)
    requires IsRun(ds, ss) && k < |ss| && Finishes(ds[k], ss[k], id)
    ensures id < ds[k].nextId && id in ds[k].pending && id !in ds[k + 1].pending
  {
    RunInv(ds, ss, k);
    assert StepAt(ds, ss, k);
    NoReturn(ds[k], ss[k], ds[k + 1], id);
  }

  /** No entry is finished twice. */
  lemma FinishedOnce(ds: seq<Drc>, ss: seq<Step>, j: nat, k: nat, id: nat)
    requires IsRun(ds, ss) && j < k < |ss| && Finishes(ds[j], ss[j], id)
    ensures !Finishes(ds[k], ss[k], id)
  {
    FinisherBorn(ds, ss, j, id);
    NeverAgain(ds, ss, j, j + 1, id);
    NeverAgain(ds, ss, j + 1, k, id);
    if Finishes(ds[k], ss[k], id) {
      FinisherBorn(ds, ss, k, id);
      assert false;
    }
  }

  lemma HeldStep(d: Drc, s: Step, e: Drc, id: nat)
    requires Inv(d) && Next(d, s, e) && id < d.nextId && id !in d.entries
    ensures forall r <- e.held :: e.held[r] != id
  {
    var n := FifoStep(d, s, e);
    if s.Finish? {
      var m := RetireSomeDrops(Completed(d, s.req, s.res), DUPREQ_MAX_RETRIES + 1);
    }
  }

  lemma EntriesStep(ds: seq<Drc>, ss: seq<Step>, k: nat, id: nat)
    requires IsRun(ds, ss) && k < |ss| && id < ds[k].nextId && id !in ds[k].entries
    ensures id !in ds[k + 1].entries
  {
    RunInv(ds, ss, k);
    RunInv(ds, ss, k + 1);
    var d, s, e := ds[k], ss[k], ds[k + 1];
    assert StepAt(ds, ss, k);
    FreedIff(d, id);
    FreedIff(e, id);
    NoReturn(d, s, e, id);
    HeldStep(d, s, e, id);
  }

  /** A freed entry stays freed: each is freed once. */
  lemma {:induction false} FreedOnce(ds: seq<Drc>, ss: seq<Step>, j: nat, k: nat, id: nat)
    requires IsRun(ds, ss) && j <= k < |ds| && id < ds[j].nextId && id !in ds[j].entries
    ensures id !in ds[k].entries
    decreases k - j
  {
    if j < k {
      NeverAgain(ds, ss, j, k - 1, id);
      FreedOnce(ds, ss, j, k - 1, id);
      EntriesStep(ds, ss, k - 1, id);
    }
  }

  // ---------------------------------------------------------- retirement

  predicate DeletedBefore(ds: seq<Drc>, ss: seq<Step>, k: nat, id: nat)
    requires |ds| == |ss| + 1 && k < |ds|
  {
    exists j | 0 <= j < k :: Deletes(ds[j], ss[j], id)
  }

  // A prefix that leaves an entry leaves the later ones too.
  lemma PrefixOrder(d: Drc, n: nat, a: nat, b: nat)
    requires Ordered(d) && n <= |d.fifo| && a < b && b in d.fifo && a in d.fifo[n..]
    ensures b in d.fifo[n..]
  {
    var i :| 0 <= i < |d.fifo| && d.fifo[i] == b;
    var j :| n <= j < |d.fifo| && d.fifo[j] == a;
    assert i >= n;
    assert d.fifo[n..][i - n] == b;
  }

  lemma LeavesByDelete(ds: seq<Drc>, ss: seq<Step>, k: nat, a: nat, b: nat)
    requires IsRun(ds, ss) && k < |ss| && a < b < ds[k + 1].nextId && a in ds[k + 1].fifo && b !in ds[k + 1].fifo
    requires b < ds[k].nextId ==> b in ds[k].fifo
    ensures Deletes(ds[k], ss[k], b)
  {
    var d, s, e := ds[k], ss[k], ds[k + 1];
    RunInv(ds, ss, k);
    assert StepAt(ds, ss, k);
    var n := FifoStep(d, s, e);
    if s.Finish? || s.Retire? {
      PrefixOrder(d, n, a, b);
    }
  }

  /** Insertion order: an entry leaves before an older one only by deletion. */
  lemma {:induction false} RetireOrder(ds: seq<Drc>, ss: seq<Step>, k: nat, a: nat, b: nat)
    requires IsRun(ds, ss) && k < |ds| && a < b < ds[k].nextId && a in ds[k].fifo && b !in ds[k].fifo
    ensures DeletedBefore(ds, ss, k, b)
  {
    if b < ds[k - 1].nextId && b !in ds[k - 1].fifo {
      NoReturnAt(ds, ss, k - 1, a);
      RetireOrder(ds, ss, k - 1, a, b);
    } else {
      LeavesByDelete(ds, ss, k - 1, a, b);
    }
  }

  // Finishes in steps `i .. k`.
  function FinishCount(ss: seq<Step>, i: nat, k: nat): nat
    requires i <= k <= |ss|
    decreases k
  {
    if k == i then 0 else FinishCount(ss, i, k - 1) + if Records(ss[k - 1]) then 1 else 0
  }

  lemma RetwndStep(d: Drc, s: Step, e: Drc)
    requires Next(d, s, e)
    ensures Records(s) ==> e.retwnd == if d.retwnd > 0 then d.retwnd - 1 else 0
    ensures !Records(s) && !Hits(d, s) ==> e.retwnd == d.retwnd
    ensures Hits(d, s) ==> e.retwnd == IncRetwnd(d)
  {
    if s.Finish? {
      var n := RetireSomeDrops(Completed(d, s.req, s.res), DUPREQ_MAX_RETRIES + 1);
    }
  }

  predicate NoHits(ds: seq<Drc>, ss: seq<Step>, i: nat, k: nat)
    requires |ds| == |ss| + 1 && k < |ds|
  {
    forall j | i < j < k :: !Hits(ds[j], ss[j])
  }

  lemma {:induction false} WindowOpen(ds: seq<Drc>, ss: seq<Step>, i: nat, k: nat)
    requires IsRun(ds, ss) && i < k < |ds| && Hits(ds[i], ss[i]) && ds[i].retwnd == 0
    ensures ds[k].retwnd + FinishCount(ss, i + 1, k) >= RETWND_START_BIAS
    ensures NoHits(ds, ss, i, k) && FinishCount(ss, i + 1, k) <= RETWND_START_BIAS
            ==> ds[k].retwnd + FinishCount(ss, i + 1, k) == RETWND_START_BIAS
  {
    assert StepAt(ds, ss, k - 1);
    RetwndStep(ds[k - 1], ss[k - 1], ds[k]);
    if k > i + 1 {
      WindowOpen(ds, ss, i, k - 1);
    }
  }

  /** Within fifteen finishes after a hit at a closed window the retire test answers
      yes only above the hard bound, however the finishes interleave. */
  lemma DecisionShield(ds: seq<Drc>, ss: seq<Step>, i: nat, k: nat)
    requires IsRun(ds, ss) && i < k < |ds| && Hits(ds[i], ss[i]) && ds[i].retwnd == 0
    requires FinishCount(ss, i + 1, k) <= 15
    ensures ShouldRetire(ds[k]) <==> ds[k].size > ds[k].maxsize
  {
    WindowOpen(ds, ss, i, k);
  }

  /** A hit at a closed window shields the cache from high-water retirement for
      the next fifteen finishes: each of them retires only what exceeds the hard
      bound. Without a further hit the sixteenth finds the window closed. */
  lemma RetireShield(ds: seq<Drc>, ss: seq<Step>, i: nat, k: nat) returns (n: nat)
    requires IsRun(ds, ss) && i < k < |ss| && Hits(ds[i], ss[i]) && ds[i].retwnd == 0
    requires ss[k].Finish? && FinishCount(ss, i + 1, k) < 16
    ensures n <= |ds[k].fifo| && ds[k + 1].fifo == ds[k].fifo[n..]
    ensures FinishCount(ss, i + 1, k) < 15 ==>
              n == if ds[k].size <= ds[k].maxsize then 0
                   else if ds[k].size - ds[k].maxsize < 6 then ds[k].size - ds[k].maxsize else 6
    ensures FinishCount(ss, i + 1, k) == 15 && NoHits(ds, ss, i, k) ==> ds[k + 1].retwnd == 0
  {
    RunInv(ds, ss, k);
    assert StepAt(ds, ss, k);
    WindowOpen(ds, ss, i, k);
    RetwndStep(ds[k], ss[k], ds[k + 1]);
    n := RetireSomeDrops(Completed(ds[k], ss[k].req, ss[k].res), DUPREQ_MAX_RETRIES + 1);
  }

  // A prefix of an increasing sequence is dropped: what is gone is what stood in it.
  lemma DroppedIff(s: seq<nat>, n: nat, i: nat)
    requires Ascending(s) && n <= |s| && i < |s|
    ensures s[i] !in s[n..] <==> i < n
  {
    var rest := s[n..];
    if i >= n {
      assert rest[i - n] == s[i];
    } else {
      forall j | 0 <= j < |rest| ensures rest[j] != s[i] {
        assert rest[j] == s[n + j];
      }
    }
  }

  /** What a finish retires, said beforehand: the entries in the first places, as many as
      the size exceeds the mark in force, six at most, finished or not. */
  lemma FinishRetiresIff(d: Drc, req: nat, res: nat, i: nat)
    requires d.size == |d.fifo| && Ascending(d.fifo) && CanFinish(d, req) && i < |d.fifo|
    ensures d.fifo[i] !in FinishNext(d, req, res).fifo <==>
              i < RetireCount(Completed(d, req, res), DUPREQ_MAX_RETRIES + 1)
  {
    var n := RetireSomeDrops(Completed(d, req, res), DUPREQ_MAX_RETRIES + 1);
    DroppedIff(d.fifo, n, i);
  }

  lemma HoldsOnAcross(d: Drc, req: nat, res: nat, other: nat)
    requires Inv(d) && CanFinish(d, req) && CanFinish(d, other) && d.held[other] != d.held[req]
    requires RefsExact(FinishNext(d, req, res))
    ensures var e := FinishNext(d, req, res); e.held == d.held && CanFinish(e, other)
  {
    var n := RetireSomeDrops(Completed(d, req, res), DUPREQ_MAX_RETRIES + 1);
  }

  // A key is cached after a finish exactly when its entry is still queued.
  lemma KeyGone(d: Drc, req: nat, res: nat, id: nat)
    requires Inv(d) && CanFinish(d, req) && id in d.fifo && Inv(FinishNext(d, req, res))
    ensures var e := FinishNext(d, req, res);
            id in e.fifo <==> !StartAnswer(e, d.entries[id].key).Success?
  {
    var e, key := FinishNext(d, req, res), d.entries[id].key;
    var n := RetireSomeDrops(Completed(d, req, res), DUPREQ_MAX_RETRIES + 1);
    if id in e.fifo {
      FinishEntry(d, req, res, id);
    } else if key in e.index {
      FinishEntry(d, req, res, e.index[key]);
    }
  }

  /** So an unfinished entry of another request is retired while it is being processed
      exactly when it stands among them; it then can no longer be deleted, and its
      key is executed again. */
  lemma UnfinishedRetiredIff(d: Drc, req: nat, res: nat, other: nat)
    requires Inv(d) && CanFinish(d, req) && CanDelete(d, other) && d.held[other] != d.held[req]
    ensures var e, id := FinishNext(d, req, res), d.held[other];
            && CanFinish(e, other)
            && (!CanDelete(e, other) <==>
                Position(d.fifo, id) < RetireCount(Completed(d, req, res), DUPREQ_MAX_RETRIES + 1))
            && (!CanDelete(e, other) <==> StartAnswer(e, d.entries[id].key).Success?)
  {
    FinishRetiresIff(d, req, res, Position(d.fifo, d.held[other]));
    FinishKeepsInv(d, req, res);
    HoldsOnAcross(d, req, res, other);
    KeyGone(d, req, res, d.held[other]);
  }

  // Two entries and room for one.
  lemma HeadRetired(c: Drc)
    requires c.fifo == [0, 1] && c.size == 2 && c.maxsize == 1 && c.hiwat == 1
    ensures RetireSome(c, 6) == Unqueued(c, 0) && Unqueued(c, 0).fifo == [1]
  {
    var c1 := Unqueued(c, 0);
    assert c1.fifo == [1];
    assert RetireSome(c1, 5) == c1;
  }

  function Two(k0: Key, k1: Key): Drc {
    Drc(map[0 := Entry(k0, Started, NoRes, 2), 1 := Entry(k1, Started, NoRes, 2)], map[k0 := 0, k1 := 1], [0, 1], 2, 2,
        0, 1, 1, map[0 := 0, 1 := 1], {0, 1})
  }

  lemma TwoStarted(k0: Key, k1: Key, d1: Drc)
    requires k0 != k1 && d1 == StartNext(Empty(1, 1), 0, k0)
    ensures StartNext(d1, 1, k1) == Two(k0, k1)
  {
    assert d1.index == map[k0 := 0];
    var d2 := StartNext(d1, 1, k1);
    assert d2.fifo == [0, 1];
    assert d2.pending == {0, 1};
  }

  lemma TwoFinished(k0: Key, k1: Key, d3: Drc)
    requires k0 != k1 && d3 == FinishNext(Two(k0, k1), 1, 7)
    ensures CanFinish(d3, 0) && !CanDelete(d3, 0) && StartAnswer(d3, k0).Success?
  {
    var c := Completed(Two(k0, k1), 1, 7);
    HeadRetired(c);
    assert d3.index == c.index - {k0} && d3.fifo == [1];
  }

  /** The run that shows it, with both marks at one: of two requests started, the second
      one's finish takes the first out of the cache. */
  lemma UnfinishedRetired(k0: Key, k1: Key) returns (ds: seq<Drc>, ss: seq<Step>)
    requires k0 != k1
    ensures IsRun(ds, ss) && |ss| == 3 && Executes(ds[0], ss[0], k0) && ds[0] == Empty(1, 1)
    ensures CanFinish(ds[3], 0) && !CanDelete(ds[3], 0) && StartAnswer(ds[3], k0).Success?
  {
    ss := [Start(0, k0), Start(1, k1), Finish(1, 7)];
    var d1 := StartNext(Empty(1, 1), 0, k0);
    TwoStarted(k0, k1, d1);
    var d3 := FinishNext(Two(k0, k1), 1, 7);
    TwoFinished(k0, k1, d3);
    ds := [Empty(1, 1), d1, Two(k0, k1), d3];
    assert StepAt(ds, ss, 0) && StepAt(ds, ss, 1) && StepAt(ds, ss, 2);
    forall i: nat | i < |ss| ensures StepAt(ds, ss, i) {
      assert i == 0 || i == 1 || i == 2;
    }
  }
}
