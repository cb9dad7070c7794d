/** Sequence ids of open and lock owners: the saved request of an owner, and what
    every client input gets (sections 9.1.7 and 9.1.8 of RFC 7530). */
module OwnerSeqid {

  const WRAP := 0x1_0000_0000

  datatype Obj = Null | File(id: nat)

  const OP_LOCK := 12
  const OP_OPEN := 18

  // What an executed operation saves: nothing, or its response with an object. An
  // operation that fails early may save a null one.
  datatype Save = Nothing | With(obj: Obj)

  // `newOwner` is set for the lock owner a LOCK introduces, which it names with a
  // sequence id of its own. `obj` is the object the check compares; `resp` and
  // `save` are what the operation gives and saves if it is executed.
  datatype Request = Request(seqid: nat, op: nat, newOwner: bool, obj: Obj, resp: nat, save: Save)

  // The last saved request; a null object marks an owner that saved none. `locks`
  // is whether the owner's lock list holds any.
  datatype Owner = Owner(last: Obj, seqid: nat, op: nat, resp: nat, locks: bool)

  datatype Answer = Execute | Replay(resp: nat) | BadSeqid

  // The check.
  function Checked(o: Owner, q: Request): Answer {
    if o.last.Null? || q.seqid == (o.seqid + 1) % WRAP then Execute
    else if o.seqid == q.seqid && q.op == o.op && o.last == q.obj then Replay(o.resp)
    else BadSeqid
  }

  // Requests that are executed without it: an OPEN with sequence id zero, and a
  // LOCK that introduces a lock owner without locks.
  predicate Bypasses(o: Owner, q: Request) {
    (q.op == OP_OPEN && q.seqid == 0) || (q.op == OP_LOCK && q.newOwner && !o.locks)
  }

  function AnswerTo(o: Owner, q: Request): Answer {
    if Bypasses(o, q) then Execute else Checked(o, q)
  }

  function Saved(q: Request, locks: bool): Owner
    requires q.save.With?
  {
    Owner(q.save.obj, q.seqid, q.op, q.resp, locks)
  }

  predicate Saves(o: Owner, q: Request) {
    AnswerTo(o, q).Execute? && q.save.With?
  }

  // One request: executed, with its response saved or not, or answered from the owner.
  function Next(o: Owner, q: Request): Owner {
    if Saves(o, q) then Saved(q, o.locks) else o
  }

  const NEW := Owner(Null, 0, 0, 0, false)

  predicate StepAt(owners: seq<Owner>, reqs: seq<Request>, i: nat)
    requires |owners| == |reqs| + 1 && i < |reqs|
  {
    owners[i + 1] == Next(owners[i], reqs[i]).(locks := owners[i + 1].locks)
  }

  // Any requests; locks come and go as they like.
  predicate IsRun(owners: seq<Owner>, reqs: seq<Request>) {
    && |owners| == |reqs| + 1 && owners[0].last.Null?
    && (forall i | 0 <= i < |reqs| :: reqs[i].seqid < WRAP)
    && forall i: nat | i < |reqs| :: StepAt(owners, reqs, i)
  }

  // Which of the first `k` requests were executed and saved, in order.
  function Kept(owners: seq<Owner>, reqs: seq<Request>, k: nat): seq<nat>
    requires |owners| == |reqs| + 1 && k <= |reqs|
  {
    if k == 0 then []
    else
      var before := Kept(owners, reqs, k - 1);
      if Saves(owners[k - 1], reqs[k - 1]) then before + [k - 1] else before
  }

  // The owner is the last saved request.
  lemma {:induction false} OwnerIsLast(owners: seq<Owner>, reqs: seq<Request>, k: nat)
    requires IsRun(owners, reqs) && k <= |reqs|
    ensures var done := Kept(owners, reqs, k);
            && (forall m | 0 <= m < |done| :: done[m] < k && reqs[done[m]].save.With?)
            && (if done == [] then owners[k].last.Null?
                else owners[k] == Saved(reqs[done[|done| - 1]], owners[k].locks))
  {
    if k > 0 {
      OwnerIsLast(owners, reqs, k - 1);
      assert StepAt(owners, reqs, k - 1);
    }
  }

  // The sequence id `m` places after `a`.
  function Successor(a: nat, m: nat): nat {
    if m == 0 then a else (Successor(a, m - 1) + 1) % WRAP
  }

  lemma WrapStep(x: nat)
    ensures (x % WRAP + 1) % WRAP == (x + 1) % WRAP
  {
    var q, r := x / WRAP, x % WRAP;
    assert x + 1 == if r + 1 < WRAP then q * WRAP + (r + 1) else (q + 1) * WRAP;
  }

  lemma {:induction false} SuccessorIs(a: nat, m: nat)
    requires a < WRAP
    ensures Successor(a, m) == (a + m) % WRAP
  {
    if m > 0 {
      SuccessorIs(a, m - 1);
      WrapStep(a + m - 1);
    }
  }

  // The `m`th saved request, its index and the owner it met.
  predicate KeptAt(owners: seq<Owner>, reqs: seq<Request>, k: nat, m: nat)
    requires |owners| == |reqs| + 1 && k <= |reqs|
  {
    && m < |Kept(owners, reqs, k)| && Kept(owners, reqs, k)[m] < |reqs|
    && reqs[Kept(owners, reqs, k)[m]].save.With?
  }

  function Nth(owners: seq<Owner>, reqs: seq<Request>, k: nat, m: nat): (q: Request)
    requires |owners| == |reqs| + 1 && k <= |reqs| && KeptAt(owners, reqs, k, m)
    ensures q.save.With?
  {
    reqs[Kept(owners, reqs, k)[m]]
  }

  predicate NthBypasses(owners: seq<Owner>, reqs: seq<Request>, k: nat, m: nat)
    requires |owners| == |reqs| + 1 && k <= |reqs| && KeptAt(owners, reqs, k, m)
  {
    Bypasses(owners[Kept(owners, reqs, k)[m]], Nth(owners, reqs, k, m))
  }

  lemma Indices(owners: seq<Owner>, reqs: seq<Request>, k: nat)
    requires IsRun(owners, reqs) && k <= |reqs|
    ensures forall m: nat | m < |Kept(owners, reqs, k)| :: KeptAt(owners, reqs, k, m)
    ensures forall m: nat | m < |Kept(owners, reqs, k)| :: Nth(owners, reqs, k, m).seqid < WRAP
  {
    OwnerIsLast(owners, reqs, k);
  }

  // What a request gets that does not bypass the check, when `last` is the last
  // one saved.
  function ReplyAfter(last: Request, q: Request): Answer
    requires last.save.With?
  {
    if last.save.obj.Null? || q.seqid == (last.seqid + 1) % WRAP then Execute
    else if q.seqid == last.seqid && q.op == last.op && q.obj == last.save.obj then Replay(last.resp)
    else BadSeqid
  }

  lemma SavedReply(last: Request, locks: bool, q: Request)
    requires last.save.With?
    ensures Checked(Saved(last, locks), q) == ReplyAfter(last, q)
  {
  }

  /** What every request of every run gets: one that bypasses the check is executed,
      and so is every one before the first save and after a save with a null
      object; otherwise the next sequence id and only it is executed, a
      retransmission of the last saved request, and only that, gets exactly the
      response saved then, and everything else is a bad sequence id. */
  lemma AnswerExact(owners: seq<Owner>, reqs: seq<Request>, k: nat)
    requires IsRun(owners, reqs) && k < |reqs|
    ensures var n := |Kept(owners, reqs, k)|;
            && (n > 0 ==> KeptAt(owners, reqs, k, n - 1))
            && AnswerTo(owners[k], reqs[k]) ==
               if n == 0 || Bypasses(owners[k], reqs[k]) then Execute
               else ReplyAfter(Nth(owners, reqs, k, n - 1), reqs[k])
  {
    OwnerIsLast(owners, reqs, k);
    var n := |Kept(owners, reqs, k)|;
    if n > 0 {
      SavedReply(Nth(owners, reqs, k, n - 1), owners[k].locks, reqs[k]);
    }
  }

  predicate Continues(last: Request, q: Request) {
    q.seqid == (last.seqid + 1) % WRAP
  }

  lemma ContinuesAfter(last: Request, q: Request)
    requires last.save.With? && ReplyAfter(last, q).Execute?
    ensures last.save.obj.Null? || Continues(last, q)
  {
  }

  /** Over every run each execution, saved or not, continues the last saved one
      modulo 2^32, unless that one saved a null object or this one bypasses the
      check. */
  lemma ExecutionContinues(owners: seq<Owner>, reqs: seq<Request>, k: nat)
    requires IsRun(owners, reqs) && k < |reqs| && AnswerTo(owners[k], reqs[k]).Execute?
    requires Kept(owners, reqs, k) != []
    ensures var n := |Kept(owners, reqs, k)|;
            && KeptAt(owners, reqs, k, n - 1)
            && (|| Nth(owners, reqs, k, n - 1).save.obj.Null? || Bypasses(owners[k], reqs[k])
                || Continues(Nth(owners, reqs, k, n - 1), reqs[k]))
  {
    AnswerExact(owners, reqs, k);
    if !Bypasses(owners[k], reqs[k]) {
      ContinuesAfter(Nth(owners, reqs, k, |Kept(owners, reqs, k)| - 1), reqs[k]);
    }
  }

  /** So each saved request continues the one saved before it, with the same two
      exceptions. */
  lemma {:induction false} EachContinues(owners: seq<Owner>, reqs: seq<Request>, k: nat, m: nat)
    requires IsRun(owners, reqs) && k <= |reqs| && 0 < m < |Kept(owners, reqs, k)|
    ensures KeptAt(owners, reqs, k, m - 1) && KeptAt(owners, reqs, k, m)
    ensures || Nth(owners, reqs, k, m - 1).save.obj.Null? || NthBypasses(owners, reqs, k, m)
            || Continues(Nth(owners, reqs, k, m - 1), Nth(owners, reqs, k, m))
    decreases k
  {
    var done, before := Kept(owners, reqs, k), Kept(owners, reqs, k - 1);
    assert done == before || done == before + [k - 1];
    if m < |before| {
      EachContinues(owners, reqs, k - 1, m);
      assert done[m] == before[m] && done[m - 1] == before[m - 1];
    } else {
      ExecutionContinues(owners, reqs, k - 1);
      assert done[m] == k - 1 && done[m - 1] == before[m - 1];
    }
  }

  // The `i`th save is not with a null object, and the next does not bypass the check.
  predicate Joined(owners: seq<Owner>, reqs: seq<Request>, k: nat, i: nat)
    requires |owners| == |reqs| + 1 && k <= |reqs|
  {
    && KeptAt(owners, reqs, k, i) && Nth(owners, reqs, k, i).save.obj.File?
    && KeptAt(owners, reqs, k, i + 1) && !NthBypasses(owners, reqs, k, i + 1)
  }

  predicate Unbroken(owners: seq<Owner>, reqs: seq<Request>, k: nat, m: nat, n: nat)
    requires |owners| == |reqs| + 1 && k <= |reqs|
  {
    forall i: nat | m <= i < n :: Joined(owners, reqs, k, i)
  }

  lemma {:induction false} StretchFollows(owners: seq<Owner>, reqs: seq<Request>, k: nat, m: nat, n: nat)
    requires IsRun(owners, reqs) && k <= |reqs| && m <= n < |Kept(owners, reqs, k)|
    requires Unbroken(owners, reqs, k, m, n)
    ensures KeptAt(owners, reqs, k, m) && KeptAt(owners, reqs, k, n)
    ensures Nth(owners, reqs, k, n).seqid == Successor(Nth(owners, reqs, k, m).seqid, n - m)
    decreases n
  {
    Indices(owners, reqs, k);
    if m < n {
      StretchFollows(owners, reqs, k, m, n - 1);
      EachContinues(owners, reqs, k, n);
      assert Joined(owners, reqs, k, n - 1);
    }
  }

  /** Over every run the saved sequence ids are consecutive modulo 2^32 within each
      stretch cut at null saves and at bypasses. */
  lemma StretchConsecutive(owners: seq<Owner>, reqs: seq<Request>, k: nat, m: nat, n: nat)
    requires IsRun(owners, reqs) && k <= |reqs| && m <= n < |Kept(owners, reqs, k)|
    requires Unbroken(owners, reqs, k, m, n)
    ensures KeptAt(owners, reqs, k, m) && KeptAt(owners, reqs, k, n)
    ensures Nth(owners, reqs, k, n).seqid == (Nth(owners, reqs, k, m).seqid + (n - m)) % WRAP
  {
    Indices(owners, reqs, k);
    StretchFollows(owners, reqs, k, m, n);
    SuccessorIs(Nth(owners, reqs, k, m).seqid, n - m);
  }

  /** So in a run without either they are consecutive from the first one. */
  lemma ConsecutiveSeqids(owners: seq<Owner>, reqs: seq<Request>, k: nat, m: nat)
    requires IsRun(owners, reqs) && k <= |reqs| && m < |Kept(owners, reqs, k)|
    requires Unbroken(owners, reqs, k, 0, |Kept(owners, reqs, k)| - 1)
    ensures KeptAt(owners, reqs, k, 0) && KeptAt(owners, reqs, k, m)
    ensures Nth(owners, reqs, k, m).seqid == (Nth(owners, reqs, k, 0).seqid + m) % WRAP
  {
    StretchConsecutive(owners, reqs, k, 0, m);
  }

  /** Within such a stretch of fewer than 2^32 saves no sequence id is saved twice. */
  lemma ReplayNeverExecuted(owners: seq<Owner>, reqs: seq<Request>, k: nat, m: nat, n: nat)
    requires IsRun(owners, reqs) && k <= |reqs| && m < n < |Kept(owners, reqs, k)| && n - m < WRAP
    requires Unbroken(owners, reqs, k, m, n)
    ensures KeptAt(owners, reqs, k, m) && KeptAt(owners, reqs, k, n)
    ensures Nth(owners, reqs, k, m).seqid != Nth(owners, reqs, k, n).seqid
  {
    Indices(owners, reqs, k);
    StretchConsecutive(owners, reqs, k, m, n);
  }

  /** When a request just executed is executed again on retransmission, meeting any
      lock state: if it saved its response, exactly when it saved a null object or
      bypasses the check then; if it saved none, exactly when it bypasses the check
      then or had passed it. Saved with the object it is checked against, it
      otherwise gets its own response back. */
  lemma ReplayExecutedIff(o: Owner, q: Request, locks: bool)
    requires q.seqid < WRAP && AnswerTo(o, q).Execute?
    ensures var e := Next(o, q).(locks := locks);
            && (q.save.With? ==> (AnswerTo(e, q).Execute? <==> q.save.obj.Null? || Bypasses(e, q)))
            && (q.save == With(q.obj) && !AnswerTo(e, q).Execute? ==> AnswerTo(e, q) == Replay(q.resp))
            && (q.save.Nothing? ==> (AnswerTo(e, q).Execute? <==> Bypasses(e, q) || Checked(o, q).Execute?))
  {
    var e := Next(o, q).(locks := locks);
    assert q.seqid != (q.seqid + 1) % WRAP;
    if q.save.With? {
      assert e == Saved(q, locks);
    } else {
      assert Checked(e, q) == Checked(o, q);
    }
  }

  /** The first exception: an OPEN with sequence id zero on an owner in use is executed
      every time it arrives, whatever object it saved. */
  lemma OpenZeroRepeats(o: Owner, obj: Obj, resp: nat)
    requires o.last.File?
    ensures var q := Request(0, OP_OPEN, false, obj, resp, With(obj));
            AnswerTo(o, q).Execute? && AnswerTo(Next(o, q), q).Execute? && Next(o, q).last == obj
  {
  }

  /** The second: a LOCK that introduces an owner in use, executed again exactly when its
      locks are gone by the time the retransmission arrives. */
  lemma LockRepeatsIff(o: Owner, seqid: nat, id: nat, resp: nat, locks: bool)
    requires o.last.File? && !o.locks && seqid < WRAP
    ensures var q := Request(seqid, OP_LOCK, true, File(id), resp, With(File(id)));
            var e := Next(o, q).(locks := locks);
            && AnswerTo(o, q).Execute?
            && (AnswerTo(e, q).Execute? <==> !locks)
            && (locks ==> AnswerTo(e, q) == Replay(resp))
  {
    ReplayExecutedIff(o, Request(seqid, OP_LOCK, true, File(id), resp, With(File(id))), locks);
  }

  // ------------------------------------------------------------- the object

  class StateOwner {
    var last: Obj
    var seqid: nat
    var op: nat
    var resp: nat
    var locks: bool

    function View(): Owner
      reads this
    {
      Owner(last, seqid, op, resp, locks)
    }

    constructor ()
      ensures View() == NEW
    {
      last, seqid, op, resp, locks := Null, 0, 0, 0, false;
    }

    // True means process the operation; otherwise send `answer`.
    method Check(q: Request) returns (process: bool, answer: Answer)
      ensures answer == Checked(View(), q) && (process <==> answer.Execute?)
    {
      if last == Null {
        return true, Execute;
      }
      var next := (seqid + 1) % WRAP;
      if q.seqid == next {
        return true, Execute;
      }
      if seqid != q.seqid {
        return false, BadSeqid;
      }
      if q.op != op {
        return false, BadSeqid;
      }
      if last != q.obj {
        return false, BadSeqid;
      }
      return false, Replay(resp);
    }

    // What OPEN and LOCK ask before they check.
    method Admit(q: Request) returns (process: bool, answer: Answer)
      ensures answer == AnswerTo(View(), q) && (process <==> answer.Execute?)
    {
      if q.op == OP_OPEN && q.seqid == 0 {
        return true, Execute;
      }
      if q.op == OP_LOCK && q.newOwner && !locks {
        return true, Execute;
      }
      process, answer := Check(q);
    }

    method Copy(q: Request)
      requires q.save.With?
      modifies this`last, this`seqid, this`op, this`resp
      ensures View() == Saved(q, locks)
    {
      resp := q.resp;
      op := q.op;
      last := q.save.obj;
      seqid := q.seqid;
    }

    // An operation with a sequence id, start to end.
    method Serve(q: Request) returns (answer: Answer)
      modifies this
      ensures answer == AnswerTo(old(View()), q) && View() == Next(old(View()), q)
    {
      var process;
      process, answer := Admit(q);
      if process && q.save.With? {
        Copy(q);
      }
    }
  }
}
