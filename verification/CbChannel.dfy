/** The back-channel of a client: finding a slot, and sending one call over the
    first session that takes it. */
module CbChannel {
  import opened CbSlots

  // The lowest free slot, if any, and the highest slot then in use.
  predicate Lowest(s: Session, slot: nat) {
    slot < Limit(s) && !s.slots[slot].inUse && forall j: nat | j < slot :: s.slots[j].inUse
  }

  predicate AllBusy(s: Session) {
    forall j: nat | j < Limit(s) :: s.slots[j].inUse
  }

  predicate HighestInUse(s: Session, highest: nat) {
    highest < |s.slots| && s.slots[highest].inUse && forall j: nat | j < |s.slots| && s.slots[j].inUse :: j <= highest
  }

  class CbSession {
    const slots: array<Slot>
    const maxRequests: nat
    var up: bool
    ghost var owner: map<nat, nat>
    ghost var sent: set<nat>
    ghost var logs: seq<seq<nat>>

    ghost function View(): Session
      reads this, slots
    {
      Session(slots[..], maxRequests, owner, sent, logs)
    }

    constructor (n: nat, maxRequests: nat)
      ensures View() == Fresh(n, maxRequests) && !up && fresh(slots)
    {
      slots := new Slot[n](_ => Slot(false, 0));
      this.maxRequests, up, owner, sent := maxRequests, false, map[], {};
      logs := seq(n, _ => []);
    }

    // Other threads, while this one waits; `quiet` is when they do nothing.
    method Interfere(call: nat, ghost quiet: bool)
      requires Valid(View())
      modifies this, slots
      ensures Meanwhile(old(View()), View(), call) && (up ==> old(up))
      ensures quiet ==> View() == old(View()) && up == old(up)
    {
    }

    method Scan() returns (found: bool, slot: nat, highest: nat)
      ensures found <==> !AllBusy(View())
      ensures found ==> Lowest(View(), slot) && slot <= highest < Limit(View())
      ensures found ==> highest == slot || slots[highest].inUse
      ensures found ==> forall j | 0 <= j < Limit(View()) && slots[j].inUse :: j <= highest
    {
      found, slot, highest := false, 0, 0;
      var n := if maxRequests < slots.Length then maxRequests else slots.Length;
      for cur := 0 to n
        invariant found <==> exists j | 0 <= j < cur :: !slots[j].inUse
        invariant found ==> slot < cur && !slots[slot].inUse && forall j | 0 <= j < slot :: slots[j].inUse
        invariant found ==> slot <= highest < cur && (highest == slot || slots[highest].inUse)
        invariant found ==> forall j | 0 <= j < cur && slots[j].inUse :: j <= highest
      {
        if !slots[cur].inUse && !found {
          found, slot, highest := true, cur, cur;
        }
        if slots[cur].inUse {
          highest := cur;
        }
      }
    }

    // `v` is the table just before the reservation.
    method FindSlot(wait: bool, call: nat, ghost quiet: bool)
      returns (found: bool, slot: nat, highest: nat, ghost v: Session)
      requires Valid(View())
      modifies this, slots
      ensures Meanwhile(old(View()), v, call) && (up ==> old(up))
      ensures quiet ==> v == old(View()) && up == old(up)
      ensures found ==> Lowest(v, slot) && View() == Reserve(v, slot, call) && HighestInUse(View(), highest)
      ensures !found ==> View() == v && (!wait ==> AllBusy(v))
      ensures Valid(View())
    {
      v := View();
      found, slot, highest := Scan();
      if !found && wait {
        var woke: bool := *;
        Interfere(call, quiet);
        v := View();
        if woke {
          found, slot, highest := Scan();
        }
      }
      if found {
        slots[slot] := Slot(true, (slots[slot].sequence + 1) % WRAP);
        owner := owner[slot := call];
        assert View().slots == v.slots[slot := slots[slot]];
        ReserveKeeps(v, slot, call);
        HighestKept(v, slot, call, highest);
      }
    }

    method ReleaseSlot(slot: nat, wasSent: bool)
      requires slot < slots.Length
      modifies this, slots
      ensures View() == Release(old(View()), slot, wasSent) && up == old(up)
    {
      var seqNo := slots[slot].sequence;
      if !wasSent {
        seqNo := (seqNo + WRAP - 1) % WRAP;
      }
      slots[slot] := Slot(false, seqNo);
      owner := owner - {slot};
      sent := sent - {slot};
      assert slots[..] == old(slots[..])[slot := Slot(false, seqNo)];
    }
  }

  lemma HighestKept(v: Session, slot: nat, call: nat, highest: nat)
    requires Valid(v) && Lowest(v, slot) && slot <= highest < Limit(v)
    requires highest == slot || v.slots[highest].inUse
    requires forall j | 0 <= j < Limit(v) && v.slots[j].inUse :: j <= highest
    ensures HighestInUse(Reserve(v, slot, call), highest)
  {
    var e := Reserve(v, slot, call);
    forall j: nat | j < |e.slots| && e.slots[j].inUse ensures j <= highest {
      if j != slot {
        assert SlotOk(v, j) && j in v.owner;
      }
    }
  }

  // ----------------------------------------------------- one call, any session

  ghost predicate Apart(sessions: seq<CbSession>) {
    forall i, j | 0 <= i < j < |sessions| :: sessions[i] != sessions[j] && sessions[i].slots != sessions[j].slots
  }

  ghost function Frame(sessions: seq<CbSession>): set<object> {
    (set i | 0 <= i < |sessions| :: sessions[i]) + (set i | 0 <= i < |sessions| :: sessions[i].slots)
  }

  // Valid, and no slot held by `call`.
  ghost predicate Untouched(sessions: seq<CbSession>, call: nat)
    reads Frame(sessions)
  {
    forall i | 0 <= i < |sessions| :: Valid(sessions[i].View()) && Mine(sessions[i].View(), call) == {}
  }

  ghost function Ups(sessions: seq<CbSession>): set<nat>
    reads Frame(sessions)
  {
    set i: nat | i < |sessions| && sessions[i].up
  }

  ghost function Views(sessions: seq<CbSession>): seq<Session>
    reads Frame(sessions)
  {
    seq(|sessions|, i requires 0 <= i < |sessions| reads Frame(sessions) => sessions[i].View())
  }

  // Other threads between two sessions. They bring channels up at most `budget`
  // times in all; `left` is what remains.
  method InterfereAll(sessions: seq<CbSession>, call: nat, ghost quiet: bool, ghost budget: nat)
    returns (ghost left: nat)
    requires Apart(sessions) && Untouched(sessions, call)
    modifies Frame(sessions)
    ensures Untouched(sessions, call) && left <= budget
    ensures left == budget ==> Ups(sessions) <= old(Ups(sessions))
    ensures quiet ==> Views(sessions) == old(Views(sessions))
  {
    left := budget;
  }

  lemma MineReserved(v: Session, slot: nat, call: nat)
    requires Valid(v) && Lowest(v, slot) && Mine(v, call) == {}
    ensures Valid(Reserve(v, slot, call)) && Mine(Reserve(v, slot, call), call) == {slot}
    ensures slot !in Reserve(v, slot, call).sent
  {
    ReserveKeeps(v, slot, call);
    SlotNotSent(v, slot);
    var e := Reserve(v, slot, call);
    assert Mine(e, call) == Mine(v, call) + {slot};
  }

  lemma MineReleased(w: Session, slot: nat, call: nat)
    requires Valid(w) && Mine(w, call) == {slot} && slot !in w.sent
    ensures slot < |w.slots| && Valid(Release(w, slot, false)) && Mine(Release(w, slot, false), call) == {}
  {
    assert slot in Mine(w, call);
    ReleaseKeeps(w, slot);
    assert Mine(Release(w, slot, false), call) == Mine(w, call) - {slot};
  }

  lemma MineSent(w: Session, slot: nat, call: nat)
    requires Valid(w) && Mine(w, call) == {slot} && slot !in w.sent
    ensures slot < |w.slots| && slot < |w.logs|
    ensures Valid(Send(w, slot)) && Mine(Send(w, slot), call) == {slot} && slot in Send(w, slot).sent
  {
    assert slot in Mine(w, call);
    SendKeeps(w, slot);
    assert Mine(Send(w, slot), call) == Mine(w, call);
  }

  // The slot of `call` and nothing else of it is sent.
  predicate HasSent(s: Session, slot: nat, call: nat) {
    Valid(s) && Mine(s, call) == {slot} && slot in s.sent
  }

  // What one session gives if nobody else acts.
  predicate Alone(before: Session, ok: bool, slot: nat, call: nat, after: Session) {
    if ok then
      Lowest(before, slot) && slot < |before.logs| && after == Send(Reserve(before, slot, call), slot)
    else after == before
  }

  // One session: reserve, send, and on failure take the channel down and give the
  // slot back. The table's lock is not held in between.
  method TryOne(s: CbSession, wait: bool, call: nat, ghost quiet: bool) returns (ok: bool, failed: bool, slot: nat)
    requires Valid(s.View()) && Mine(s.View(), call) == {} && s.up
    modifies s, s.slots
    ensures failed ==> !ok && !s.up
    ensures ok ==> HasSent(s.View(), slot, call)
    ensures !ok ==> Valid(s.View()) && Mine(s.View(), call) == {}
    ensures quiet ==> Alone(old(s.View()), ok, slot, call, s.View())
  {
    var found, highest;
    ghost var v;
    found, slot, highest, v := s.FindSlot(wait, call, quiet);
    if !found {
      return false, false, 0;
    }
    MineReserved(v, slot, call);
    GiveBack(v, slot, call);
    s.Interfere(call, quiet);
    var referenced: bool := *;
    if !referenced {
      GiveSlotBack(s, slot, call);
      return false, false, 0;
    }
    ok := *;
    if ok {
      MineSent(s.View(), slot, call);
      s.sent, s.logs := s.sent + {slot}, s.logs[slot := s.logs[slot] + [s.slots[slot].sequence]];
      return true, false, slot;
    }
    s.up := false;
    s.Interfere(call, quiet);
    GiveSlotBack(s, slot, call);
    return false, true, 0;
  }

  method GiveSlotBack(s: CbSession, slot: nat, call: nat)
    requires Valid(s.View()) && Mine(s.View(), call) == {slot} && slot !in s.sent
    modifies s, s.slots
    ensures slot < |old(s.View()).slots| && s.View() == Release(old(s.View()), slot, false) && s.up == old(s.up)
    ensures Valid(s.View()) && Mine(s.View(), call) == {}
  {
    MineReleased(s.View(), slot, call);
    s.ReleaseSlot(slot, false);
  }

  lemma SlotNotSent(v: Session, slot: nat)
    requires Valid(v) && Lowest(v, slot)
    ensures slot !in v.sent
  {
    assert SlotOk(v, slot);
  }

  // The same, seen from the whole list.
  method TryAt(sessions: seq<CbSession>, i: nat, wait: bool, call: nat, ghost quiet: bool)
    returns (ok: bool, failed: bool, slot: nat)
    requires Apart(sessions) && Untouched(sessions, call) && i < |sessions| && sessions[i].up
    modifies Frame(sessions)
    ensures Ups(sessions) <= old(Ups(sessions)) && (failed ==> Ups(sessions) < old(Ups(sessions)))
    ensures !ok ==> Untouched(sessions, call) && (quiet ==> Views(sessions) == old(Views(sessions)))
    ensures ok ==> SentOn(Views(sessions), i, slot, call)
    ensures ok && quiet ==> SentFrom(old(Views(sessions)), Views(sessions), i, slot, call)
  {
    ghost var before := Views(sessions);
    assert i in Ups(sessions);
    ok, failed, slot := TryOne(sessions[i], wait, call, quiet);
    ghost var after := Views(sessions);
    assert after == before[i := after[i]] by {
      forall j | 0 <= j < |sessions| && j != i ensures after[j] == before[j] {
        assert sessions[j] != sessions[i] && sessions[j].slots != sessions[i].slots;
      }
    }
    assert forall j | 0 <= j < |sessions| && j != i :: sessions[j].up == old(sessions[j].up);
    if ok {
      OneSent(before, after, i, slot, call);
    } else {
      assert forall j | 0 <= j < |sessions| :: sessions[j].View() == after[j];
    }
  }

  /** Send one call over some session. The search ends, however often, `budget`
      times, other threads bring a channel up meanwhile: every failed send takes
      one down, and the list is gone through once more, waiting, at most once.
      Success leaves exactly one slot with this call, sent; failure leaves none,
      and if nobody else acts every table is as before. */
  method Single(sessions: seq<CbSession>, call: nat, ghost quiet: bool, ghost budget: nat)
    returns (ok: bool, used: nat, slot: nat)
    requires Apart(sessions) && Untouched(sessions, call)
    modifies Frame(sessions)
    ensures !ok ==> Untouched(sessions, call) && (quiet ==> Views(sessions) == old(Views(sessions)))
    ensures ok ==> SentOn(Views(sessions), used, slot, call)
    ensures ok && quiet ==> SentFrom(old(Views(sessions)), Views(sessions), used, slot, call)
  {
    var wait, i := false, 0;
    ghost var before, left := Views(sessions), budget;
    while true
      invariant i <= |sessions| && Untouched(sessions, call)
      invariant quiet ==> Views(sessions) == before
      decreases left, Ups(sessions), !wait, |sessions| - i
    {
      left := InterfereAll(sessions, call, quiet, left);
      if i == |sessions| {
        if wait {
          return false, 0, 0;
        }
        wait, i := true, 0;
      } else if !sessions[i].up {
        i := i + 1;
      } else {
        var failed;
        ok, failed, slot := TryAt(sessions, i, wait, call, quiet);
        if ok {
          return true, i, slot;
        }
        i := if failed then 0 else i + 1;
      }
    }
  }

  // Nothing but the reservation and the sending of one call happened.
  predicate SentFrom(before: seq<Session>, after: seq<Session>, used: nat, slot: nat, call: nat) {
    && used < |before| && Lowest(before[used], slot) && slot < |before[used].logs|
    && after == before[used := Send(Reserve(before[used], slot, call), slot)]
  }

  // The only slot of `call` is this one, and its call is sent.
  predicate SentOn(views: seq<Session>, used: nat, slot: nat, call: nat) {
    && used < |views| && HasSent(views[used], slot, call)
    && (forall i | 0 <= i < |views| && i != used :: Valid(views[i]) && Mine(views[i], call) == {})
  }

  lemma OneSent(before: seq<Session>, after: seq<Session>, i: nat, slot: nat, call: nat)
    requires i < |before| == |after| && after == before[i := after[i]] && HasSent(after[i], slot, call)
    requires forall j | 0 <= j < |before| :: Valid(before[j]) && Mine(before[j], call) == {}
    ensures SentOn(after, i, slot, call)
  {
  }
}
