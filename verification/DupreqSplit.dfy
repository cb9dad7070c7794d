/** Finishes of the duplicate request cache step by step: mark the entry, test whether to
    retire and note the head, drop the lock, look at the head again. Any number of
    them interleave with each other and with everything else. */
module DupreqSplit {
  import opened Dupreq
  import Runs = DupreqRuns

  // A finish in its retire loop, with the entries it has retired: about to test, or
  // waiting for the lock with the noted hash of the head.
  datatype Loop = Testing(cnt: nat) | Noted(cnt: nat, cksum: nat)

  // `gaveUp` counts the finishes that left without retiring because the head had changed.
  datatype State = State(drc: Drc, loops: map<nat, Loop>, gaveUp: nat)

  datatype Step =
    | Start(req: nat, key: Key)
    | Delete(req: nat)
    | Rele(req: nat)
    | Mark(t: nat, req: nat, res: nat)
    | Test(t: nat)
    | Recheck(t: nat)

  predicate SameHead(d: Drc, cksum: nat) {
    d.size > 0 && d.fifo != [] && d.fifo[0] in d.entries && d.entries[d.fifo[0]].key.cksum == cksum
  }

  predicate Enabled(s: State, a: Step) {
    match a
    case Start(req, _) => req !in s.drc.held
    case Delete(req) => s.drc.size == |s.drc.fifo| && CanDelete(s.drc, req)
    case Rele(req) => req in s.drc.held
    case Mark(t, req, _) => t !in s.loops && CanFinish(s.drc, req)
    case Test(t) => t in s.loops && s.loops[t].Testing?
    case Recheck(t) => t in s.loops && s.loops[t].Noted?
  }

  function Tested(s: State, t: nat): State
    requires Enabled(s, Test(t))
  {
    if ShouldRetire(s.drc) && s.drc.fifo != [] && s.drc.fifo[0] in s.drc.entries then
      s.(loops := s.loops[t := Noted(s.loops[t].cnt, s.drc.entries[s.drc.fifo[0]].key.cksum)])
    else s.(loops := s.loops - {t})
  }

  function Rechecked(s: State, t: nat): State
    requires Enabled(s, Recheck(t))
  {
    var cnt := s.loops[t].cnt;
    if !SameHead(s.drc, s.loops[t].cksum) then
      s.(loops := s.loops - {t}, gaveUp := if cnt == 0 then s.gaveUp + 1 else s.gaveUp)
    else
      s.(drc := Unqueued(s.drc, 0),
         loops := if cnt < DUPREQ_MAX_RETRIES then s.loops[t := Testing(cnt + 1)] else s.loops - {t})
  }

  function Apply(s: State, a: Step): State
    requires Enabled(s, a)
  {
    match a
    case Start(req, key) => s.(drc := StartNext(s.drc, req, key))
    case Delete(req) => s.(drc := DeleteNext(s.drc, req))
    case Rele(req) => s.(drc := ReleNext(s.drc, req))
    case Mark(t, req, res) => s.(drc := Completed(s.drc, req, res), loops := s.loops[t := Testing(0)])
    case Test(t) => Tested(s, t)
    case Recheck(t) => Rechecked(s, t)
  }

  predicate StepAt(rs: seq<State>, ss: seq<Step>, i: nat)
    requires |rs| == |ss| + 1 && i < |ss|
  {
    Enabled(rs[i], ss[i]) && rs[i + 1] == Apply(rs[i], ss[i])
  }

  predicate IsRun(rs: seq<State>, ss: seq<Step>) {
    && |rs| == |ss| + 1
    && rs[0] == State(Empty(rs[0].drc.maxsize, rs[0].drc.hiwat), map[], 0)
    && forall i: nat | i < |ss| :: StepAt(rs, ss, i)
  }

  // --------------------------------------------- the coarser runs cover these

  // What a step is to the cache alone, if it touches it.
  function Seen(s: State, a: Step): seq<Runs.Step> {
    match a
    case Start(req, key) => [Runs.Start(req, key)]
    case Delete(req) => [Runs.Delete(req)]
    case Rele(req) => [Runs.Rele(req)]
    case Mark(_, req, res) => [Runs.Mark(req, res)]
    case Test(_) => []
    case Recheck(t) =>
      if t in s.loops && s.loops[t].Noted? && SameHead(s.drc, s.loops[t].cksum) then [Runs.Retire] else []
  }

  lemma SeenStep(s: State, a: Step)
    requires Enabled(s, a) && s.drc.size == |s.drc.fifo|
    ensures |Seen(s, a)| <= 1
    ensures Seen(s, a) == [] ==> Apply(s, a).drc == s.drc
    ensures |Seen(s, a)| == 1 ==> Runs.Next(s.drc, Seen(s, a)[0], Apply(s, a).drc)
  {
  }

  lemma Extended(ds: seq<Drc>, ts: seq<Runs.Step>, t: Runs.Step, e: Drc)
    requires Runs.IsRun(ds, ts) && Runs.Next(ds[|ts|], t, e)
    ensures Runs.IsRun(ds + [e], ts + [t])
  {
    var es, us := ds + [e], ts + [t];
    forall i: nat | i < |us| ensures Runs.StepAt(es, us, i) {
      if i < |ts| {
        assert Runs.StepAt(ds, ts, i);
      }
    }
  }

  /** Every cache reached step by step is reached by a run of `DupreqRuns`, so what holds
      in all of those holds here. */
  lemma {:induction false} Covered(rs: seq<State>, ss: seq<Step>, k: nat) returns (ds: seq<Drc>, ts: seq<Runs.Step>)
    requires IsRun(rs, ss) && k < |rs|
    ensures Runs.IsRun(ds, ts) && ds[|ts|] == rs[k].drc
  {
    ds, ts := [rs[0].drc], [];
    if k > 0 {
      ds, ts := Covered(rs, ss, k - 1);
      assert StepAt(rs, ss, k - 1);
      Runs.RunInv(ds, ts, |ts|);
      var s, a := rs[k - 1], ss[k - 1];
      SeenStep(s, a);
      if Seen(s, a) != [] {
        Extended(ds, ts, Seen(s, a)[0], rs[k].drc);
        ds, ts := ds + [rs[k].drc], ts + Seen(s, a);
      }
    }
  }

  lemma CacheInv(rs: seq<State>, ss: seq<Step>, k: nat)
    requires IsRun(rs, ss) && k < |rs|
    ensures Inv(rs[k].drc)
  {
    var ds, ts := Covered(rs, ss, k);
    Runs.RunInv(ds, ts, |ts|);
  }

  // ----------------------------------------------------------- size bound

  // The finishes in their loop that have retired nothing yet.
  function Fresh(loops: map<nat, Loop>): set<nat> {
    set t | t in loops && loops[t].cnt == 0
  }

  predicate Within(s: State) {
    s.drc.size <= s.drc.maxsize + |s.drc.pending| + |Fresh(s.loops)| + s.gaveUp
  }

  lemma FreshWithout(loops: map<nat, Loop>, t: nat)
    requires t in loops
    ensures |Fresh(loops - {t})| == |Fresh(loops)| - if loops[t].cnt == 0 then 1 else 0
  {
    assert Fresh(loops - {t}) == Fresh(loops) - {t};
  }

  lemma FreshWith(loops: map<nat, Loop>, t: nat, l: Loop)
    ensures Fresh(loops[t := l]) == if l.cnt == 0 then Fresh(loops) + {t} else Fresh(loops) - {t}
  {
  }

  lemma MarkWithin(s: State, t: nat, req: nat, res: nat)
    requires Within(s) && Enabled(s, Mark(t, req, res))
    ensures Within(Apply(s, Mark(t, req, res)))
  {
    FreshWith(s.loops, t, Testing(0));
    assert |Completed(s.drc, req, res).pending| == |s.drc.pending| - 1;
    assert t !in Fresh(s.loops);
  }

  lemma TestWithin(s: State, t: nat)
    requires Within(s) && Enabled(s, Test(t)) && s.drc.size == |s.drc.fifo|
    requires s.drc.fifo != [] ==> s.drc.fifo[0] in s.drc.entries
    ensures Within(Tested(s, t))
  {
    var cnt := s.loops[t].cnt;
    if ShouldRetire(s.drc) && s.drc.fifo != [] {
      FreshWith(s.loops, t, Noted(cnt, s.drc.entries[s.drc.fifo[0]].key.cksum));
      assert cnt == 0 <==> t in Fresh(s.loops);
      assert Fresh(Tested(s, t).loops) == Fresh(s.loops);
    }
  }

  lemma RecheckWithin(s: State, t: nat)
    requires Within(s) && Enabled(s, Recheck(t))
    ensures Within(Rechecked(s, t))
  {
    var cnt := s.loops[t].cnt;
    FreshWithout(s.loops, t);
    if SameHead(s.drc, s.loops[t].cksum) && cnt < DUPREQ_MAX_RETRIES {
      FreshWith(s.loops, t, Testing(cnt + 1));
      assert Fresh(s.loops[t := Testing(cnt + 1)]) == Fresh(s.loops - {t});
    }
  }

  lemma DeletePending(d: Drc, req: nat)
    requires d.size == |d.fifo| && CanDelete(d, req)
    ensures |DeleteNext(d, req).pending| == |d.pending| - 1 && DeleteNext(d, req).size == d.size - 1
  {
  }

  lemma StartPending(d: Drc, req: nat, key: Key)
    requires Ordered(d)
    ensures var e := StartNext(d, req, key); e.size - d.size == |e.pending| - |d.pending| && e.maxsize == d.maxsize
  {
    assert d.nextId !in d.pending;
  }

  lemma StepWithin(s: State, a: Step)
    requires Inv(s.drc) && Within(s) && Enabled(s, a)
    ensures Within(Apply(s, a))
  {
    match a {
      case Start(req, key) => StartPending(s.drc, req, key);
      case Delete(req) => DeletePending(s.drc, req);
      case Rele(_) =>
      case Mark(t, req, res) => MarkWithin(s, t, req, res);
      case Test(t) =>
        assert s.drc.fifo != [] ==> s.drc.fifo[0] in s.drc.fifo;
        TestWithin(s, t);
      case Recheck(t) => RecheckWithin(s, t);
    }
  }

  /** However finishes interleave, the size exceeds its bound at most by the requests not
      yet finished, the finishes that have retired nothing yet and those that gave up. */
  lemma {:induction false} RunWithin(rs: seq<State>, ss: seq<Step>, k: nat)
    requires IsRun(rs, ss) && k < |rs|
    ensures Within(rs[k])
  {
    if k > 0 {
      RunWithin(rs, ss, k - 1);
      CacheInv(rs, ss, k - 1);
      assert StepAt(rs, ss, k - 1);
      StepWithin(rs[k - 1], ss[k - 1]);
    }
  }

  // ---------------------------------------- finishes that give up do count

  // Three requests started with both marks at one.
  function Three(k0: Key, k1: Key, k2: Key): Drc {
    Drc(map[0 := Entry(k0, Started, NoRes, 2), 1 := Entry(k1, Started, NoRes, 2), 2 := Entry(k2, Started, NoRes, 2)],
        map[k0 := 0, k1 := 1, k2 := 2], [0, 1, 2], 3, 3, 0, 1, 1, map[0 := 0, 1 := 1, 2 := 2], {0, 1, 2})
  }

  lemma Grow(rs: seq<State>, ss: seq<Step>, a: Step) returns (rs': seq<State>, ss': seq<Step>)
    requires IsRun(rs, ss) && Enabled(rs[|ss|], a)
    ensures IsRun(rs', ss') && |ss'| == |ss| + 1 && rs'[0] == rs[0] && rs'[|ss'|] == Apply(rs[|ss|], a)
  {
    rs', ss' := rs + [Apply(rs[|ss|], a)], ss + [a];
    forall i: nat | i < |ss'| ensures StepAt(rs', ss', i) {
      if i < |ss| {
        assert StepAt(rs, ss, i);
      }
    }
  }

  lemma ThreeStarted(k0: Key, k1: Key, k2: Key) returns (rs: seq<State>, ss: seq<Step>)
    requires k0 != k1 && k0 != k2 && k1 != k2
    ensures IsRun(rs, ss) && |ss| == 3 && rs[0].drc == Empty(1, 1)
    ensures rs[3] == State(Three(k0, k1, k2), map[], 0)
  {
    rs, ss := Grow([State(Empty(1, 1), map[], 0)], [], Start(0, k0));
    assert rs[1].drc.index == map[k0 := 0];
    rs, ss := Grow(rs, ss, Start(1, k1));
    assert rs[2].drc.index == map[k0 := 0, k1 := 1] && rs[2].drc.fifo == [0, 1] && rs[2].drc.pending == {0, 1};
    rs, ss := Grow(rs, ss, Start(2, k2));
    assert rs[3].drc.fifo == [0, 1, 2] && rs[3].drc.pending == {0, 1, 2};
  }

  // Queue and references as after the three starts.
  predicate Queued3(d: Drc, k0: Key, k1: Key, k2: Key) {
    && d.fifo == [0, 1, 2] && d.size == 3 && d.maxsize == 1 && d.hiwat == 1
    && d.held == map[0 := 0, 1 := 1, 2 := 2]
    && d.entries.Keys == {0, 1, 2} && d.entries[0] == Entry(k0, Started, NoRes, 2)
    && d.entries[1].key == k1 && d.entries[2].key == k2
  }

  // Finish `t` marks request `req` and notes the first entry.
  lemma FinishNotes(rs: seq<State>, ss: seq<Step>, t: nat, req: nat, k0: Key, k1: Key, k2: Key)
    returns (rs': seq<State>, ss': seq<Step>)
    requires IsRun(rs, ss) && Queued3(rs[|ss|].drc, k0, k1, k2) && t !in rs[|ss|].loops
    requires 1 <= req <= 2 && req in rs[|ss|].drc.pending
    ensures IsRun(rs', ss') && |ss'| == |ss| + 2 && rs'[0] == rs[0]
    ensures var s, s' := rs[|ss|], rs'[|ss'|];
            && Queued3(s'.drc, k0, k1, k2) && s'.drc.pending == s.drc.pending - {req}
            && s'.loops == s.loops[t := Noted(0, k0.cksum)] && s'.gaveUp == s.gaveUp
  {
    rs', ss' := Grow(rs, ss, Mark(t, req, 7));
    assert Queued3(rs'[|ss'|].drc, k0, k1, k2);
    rs', ss' := Grow(rs', ss', Test(t));
  }

  // The first request is deleted: another entry is at the head.
  lemma HeadDeleted(d: Drc, e: Drc, k0: Key, k1: Key, k2: Key)
    requires Queued3(d, k0, k1, k2) && d.pending == {0} && k0.cksum != k1.cksum
    requires e == DeleteNext(d, 0)
    ensures e.pending == {} && e.size == 2 && e.maxsize == 1 && !SameHead(e, k0.cksum)
  {
    assert Position(d.fifo, 0) == 0;
    assert e.fifo == [1, 2];
  }

  lemma BothNoted(k0: Key, k1: Key, k2: Key) returns (rs: seq<State>, ss: seq<Step>)
    requires k0 != k1 && k0 != k2 && k1 != k2
    ensures IsRun(rs, ss) && |ss| == 7 && rs[0].drc == Empty(1, 1)
    ensures Queued3(rs[7].drc, k0, k1, k2) && rs[7].drc.pending == {0} && rs[7].gaveUp == 0
    ensures rs[7].loops == map[8 := Noted(0, k0.cksum), 9 := Noted(0, k0.cksum)]
  {
    rs, ss := ThreeStarted(k0, k1, k2);
    rs, ss := FinishNotes(rs, ss, 8, 1, k0, k1, k2);
    rs, ss := FinishNotes(rs, ss, 9, 2, k0, k1, k2);
  }

  lemma BothGiveUp(rs: seq<State>, ss: seq<Step>, c: nat) returns (rs': seq<State>, ss': seq<Step>)
    requires IsRun(rs, ss) && !SameHead(rs[|ss|].drc, c)
    requires rs[|ss|].loops == map[8 := Noted(0, c), 9 := Noted(0, c)] && rs[|ss|].gaveUp == 0
    ensures IsRun(rs', ss') && |ss'| == |ss| + 2 && rs'[0] == rs[0]
    ensures rs'[|ss'|] == State(rs[|ss|].drc, map[], 2)
  {
    rs', ss' := Grow(rs, ss, Recheck(8));
    rs', ss' := Grow(rs', ss', Recheck(9));
  }

  /** Two finishes note the same head, which is deleted before either looks again: nothing
      is pending, no finish is under way, and the size is twice its bound. */
  lemma GivenUpCounts(k0: Key, k1: Key, k2: Key) returns (rs: seq<State>, ss: seq<Step>)
    requires k0 != k1 && k0 != k2 && k1 != k2 && k0.cksum != k1.cksum
    ensures IsRun(rs, ss) && |ss| == 10 && rs[0].drc == Empty(1, 1)
    ensures rs[10].drc.size == 2 && rs[10].drc.maxsize == 1 && rs[10].drc.pending == {}
    ensures rs[10].loops == map[] && rs[10].gaveUp == 2
  {
    rs, ss := BothNoted(k0, k1, k2);
    var d := rs[7].drc;
    rs, ss := Grow(rs, ss, Delete(0));
    HeadDeleted(d, rs[8].drc, k0, k1, k2);
    rs, ss := BothGiveUp(rs, ss, k0.cksum);
  }
}
