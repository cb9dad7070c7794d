/** The back-channel slot table of a session, on values: reservation, sending and
    release by any number of threads (section 2.10.6.1 of RFC 5661). */
module CbSlots {

  const WRAP := 0x1_0000_0000

  datatype Slot = Slot(inUse: bool, sequence: nat)

  // `owner` maps a reserved slot to the call holding it, `sent` holds the slots
  // whose call went out, and `logs` the sequence numbers sent on each slot.
  datatype Session = Session(
    slots: seq<Slot>, maxRequests: nat, owner: map<nat, nat>, sent: set<nat>, logs: seq<seq<nat>>)

  function Limit(s: Session): nat {
    if s.maxRequests < |s.slots| then s.maxRequests else |s.slots|
  }

  // Consecutive from one, modulo 2^32.
  predicate Consecutive(log: seq<nat>) {
    forall j | 0 <= j < |log| :: log[j] == (j + 1) % WRAP
  }

  // The slot's counter is the number of calls sent, one more while a call is
  // reserved and not yet sent.
  predicate SlotOk(s: Session, k: nat)
    requires k < |s.slots| && |s.logs| == |s.slots|
  {
    && (s.slots[k].inUse <==> k in s.owner)
    && Consecutive(s.logs[k])
    && s.slots[k].sequence == (|s.logs[k]| + if k in s.owner && k !in s.sent then 1 else 0) % WRAP
  }

  predicate Valid(s: Session) {
    && |s.logs| == |s.slots|
    && (forall k <- s.owner :: k < Limit(s))
    && (forall k <- s.sent :: k in s.owner)
    && (forall k: nat | k < |s.slots| :: SlotOk(s, k))
  }

  function Fresh(n: nat, maxRequests: nat): Session {
    Session(seq(n, _ => Slot(false, 0)), maxRequests, map[], {}, seq(n, _ => []))
  }

  function Reserve(s: Session, k: nat, call: nat): Session
    requires k < |s.slots|
  {
    s.(slots := s.slots[k := Slot(true, (s.slots[k].sequence + 1) % WRAP)], owner := s.owner[k := call])
  }

  function Send(s: Session, k: nat): Session
    requires k < |s.slots| && k < |s.logs|
  {
    s.(sent := s.sent + {k}, logs := s.logs[k := s.logs[k] + [s.slots[k].sequence]])
  }

  function Release(s: Session, k: nat, wasSent: bool): Session
    requires k < |s.slots|
  {
    var seqNo := if wasSent then s.slots[k].sequence else (s.slots[k].sequence + WRAP - 1) % WRAP;
    s.(slots := s.slots[k := Slot(false, seqNo)], owner := s.owner - {k}, sent := s.sent - {k})
  }

  // ------------------------------------------------------------------ runs

  datatype Step = Reserved(k: nat, call: nat) | Sent(k: nat) | Released(k: nat)

  predicate Next(s: Session, step: Step, e: Session) {
    match step
    case Reserved(k, call) => k < Limit(s) && !s.slots[k].inUse && e == Reserve(s, k, call)
    case Sent(k) => k < |s.slots| && k < |s.logs| && k in s.owner && k !in s.sent && e == Send(s, k)
    case Released(k) => k < |s.slots| && k in s.owner && e == Release(s, k, k in s.sent)
  }

  lemma FreshValid(n: nat, maxRequests: nat)
    ensures Valid(Fresh(n, maxRequests))
  {
  }

  lemma NextSequence(n: nat)
    ensures (n % WRAP + 1) % WRAP == (n + 1) % WRAP
  {
  }

  lemma ReserveSlot(s: Session, k: nat, call: nat, j: nat)
    requires |s.logs| == |s.slots| && k < |s.slots| && j < |s.slots| && SlotOk(s, j)
    requires !s.slots[k].inUse && k !in s.sent
    ensures SlotOk(Reserve(s, k, call), j)
  {
    if j == k {
      NextSequence(|s.logs[k]|);
    }
  }

  lemma ReserveKeeps(s: Session, k: nat, call: nat)
    requires Valid(s) && k < Limit(s) && !s.slots[k].inUse
    ensures Valid(Reserve(s, k, call))
  {
    assert SlotOk(s, k);
    forall j: nat | j < |s.slots| ensures SlotOk(Reserve(s, k, call), j) {
      assert SlotOk(s, j);
      ReserveSlot(s, k, call, j);
    }
  }

  lemma SendKeeps(s: Session, k: nat)
    requires Valid(s) && k in s.owner && k !in s.sent
    ensures k < |s.slots| && Valid(Send(s, k))
    ensures Send(s, k).logs[k] == s.logs[k] + [(|s.logs[k]| + 1) % WRAP]
  {
    var e := Send(s, k);
    assert SlotOk(s, k);
    forall j: nat | j < |e.slots| ensures SlotOk(e, j) {
      assert SlotOk(s, j);
    }
  }

  lemma ReleaseKeeps(s: Session, k: nat)
    requires Valid(s) && k in s.owner
    ensures k < |s.slots| && Valid(Release(s, k, k in s.sent))
  {
    var e := Release(s, k, k in s.sent);
    assert SlotOk(s, k);
    forall j: nat | j < |e.slots| ensures SlotOk(e, j) {
      assert SlotOk(s, j);
    }
  }

  // Reserving and giving back unsent leaves the table as it was.
  lemma GiveBack(s: Session, k: nat, call: nat)
    requires Valid(s) && k < Limit(s) && !s.slots[k].inUse
    ensures Release(Reserve(s, k, call), k, false) == s
  {
    assert SlotOk(s, k) && k !in s.owner && k !in s.sent;
    var e := Release(Reserve(s, k, call), k, false);
    assert e.slots == s.slots && e.owner == s.owner && e.sent == s.sent;
  }

  predicate IsRun(states: seq<Session>, steps: seq<Step>) {
    && |states| == |steps| + 1
    && states[0] == Fresh(|states[0].slots|, states[0].maxRequests)
    && forall i | 0 <= i < |steps| :: Next(states[i], steps[i], states[i + 1])
  }

  lemma StepKeeps(s: Session, step: Step, e: Session)
    requires Valid(s) && Next(s, step, e)
    ensures Valid(e) && |e.slots| == |s.slots| && e.maxRequests == s.maxRequests
  {
    match step {
      case Reserved(k, call) => ReserveKeeps(s, k, call);
      case Sent(k) => SendKeeps(s, k);
      case Released(k) => ReleaseKeeps(s, k);
    }
  }

  /** Whatever the threads do, the sequence numbers sent on every slot are
      consecutive, and only slots below the limit are ever in use. */
  lemma {:induction false} RunValid(states: seq<Session>, steps: seq<Step>, i: nat)
    requires IsRun(states, steps) && i < |states|
    ensures Valid(states[i])
  {
    if i > 0 {
      RunValid(states, steps, i - 1);
      StepKeeps(states[i - 1], steps[i - 1], states[i]);
    } else {
      FreshValid(|states[0].slots|, states[0].maxRequests);
    }
  }

  lemma {:induction false} StaysReserved(states: seq<Session>, steps: seq<Step>, i: nat, j: nat, k: nat, call: nat)
    requires IsRun(states, steps) && i < j < |states| && steps[i] == Reserved(k, call)
    requires forall m | i < m < j :: steps[m] != Released(k)
    ensures k in states[j].owner && states[j].owner[k] == call && k < |states[j].slots| && states[j].slots[k].inUse
    decreases j
  {
    RunValid(states, steps, j - 1);
    RunValid(states, steps, j);
    assert Next(states[j - 1], steps[j - 1], states[j]);
    if j > i + 1 {
      StaysReserved(states, steps, i, j - 1, k, call);
      assert steps[j - 1] != Released(k);
    }
    assert k < |states[j].slots| && SlotOk(states[j], k);
  }

  /** No two outstanding calls share a slot: between two reservations of a slot
      lies its release. */
  lemma NoSharing(states: seq<Session>, steps: seq<Step>, i: nat, j: nat)
    requires IsRun(states, steps) && i < j < |steps|
    requires steps[i].Reserved? && steps[j].Reserved? && steps[i].k == steps[j].k
    ensures exists m :: i < m < j && steps[m] == Released(steps[i].k)
  {
    assert Next(states[j], steps[j], states[j + 1]);
    if forall m | i < m < j :: steps[m] != Released(steps[i].k) {
      StaysReserved(states, steps, i, j, steps[i].k, steps[i].call);
      assert false;
    }
  }

  // -------------------------------------------------- other threads, between

  // Slots that `call` holds.
  function Mine(s: Session, call: nat): set<nat> {
    set k | k in s.owner && s.owner[k] == call
  }

  // Other threads keep the table valid and leave the slots of `call` alone.
  predicate Meanwhile(s: Session, e: Session, call: nat) {
    && Valid(e) && |e.slots| == |s.slots| && e.maxRequests == s.maxRequests
    && Mine(e, call) == Mine(s, call)
    && forall k <- Mine(s, call) ::
         k < |s.slots| && k < |s.logs| && e.slots[k] == s.slots[k] && e.logs[k] == s.logs[k]
         && (k in e.sent <==> k in s.sent)
  }
}
