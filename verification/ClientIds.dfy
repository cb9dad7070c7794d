/** Client ids: the confirmed and unconfirmed tables, the client records that
    point at them, and the two reference counts (section 9.1.1 of RFC 7530). */
module ClientIds {

  datatype Opt = None | Some(v: nat)

  datatype Status = Unconfirmed | Confirmed | Stale | Expired

  // Which table holds the id. `Limbo` is created and not yet inserted.
  datatype Place = Limbo | InUnconf | InConf | Nowhere

  // `held` counts the references of running requests; `dying` names, between
  // marking an id expired and unhashing it, the table the expire chose.
  datatype Client = Client(
    key: nat, status: Status, record: Opt, refcnt: nat, place: Place, held: nat, dying: Place)

  // `held` counts the references of running requests.
  datatype Record = Record(confirmed: Opt, unconfirmed: Opt, refcnt: nat, held: nat)

  // Ids and records by address, tables by clientid4.
  datatype State = State(
    clients: map<nat, Client>, records: map<nat, Record>, unconf: map<nat, nat>, conf: map<nat, nat>)

  const EMPTY := State(map[], map[], map[], map[])

  // ------------------------------------------------------------- primitives

  function UnrefRecord(s: State, r: nat): State {
    if r !in s.records then s
    else if s.records[r].refcnt <= 1 then s.(records := s.records - {r})
    else s.(records := s.records[r := s.records[r].(refcnt := s.records[r].refcnt - 1)])
  }

  function Free(s: State, p: nat): State
    requires p in s.clients
  {
    var t := s.(clients := s.clients - {p});
    if s.clients[p].record.Some? then UnrefRecord(t, s.clients[p].record.v) else t
  }

  // dec_client_id_ref: only an expired id is freed with its last reference.
  function Unref(s: State, p: nat): State
    requires p in s.clients && s.clients[p].refcnt > 0
  {
    var c := s.clients[p];
    if c.refcnt == 1 && c.status.Expired? then Free(s, p)
    else s.(clients := s.clients[p := c.(refcnt := c.refcnt - 1)])
  }

  function Set(s: State, p: nat, c: Client): State {
    s.(clients := s.clients[p := c])
  }

  function SetRecord(s: State, r: nat, rec: Record): State {
    s.(records := s.records[r := rec])
  }

  // ----------------------------------------------------------------- steps

  predicate CanCreate(s: State, p: nat, r: nat) {
    p !in s.clients && r in s.records && s.records[r].held > 0
  }

  function Create(s: State, p: nat, r: nat, key: nat): State
    requires CanCreate(s, p, r)
  {
    var rec := s.records[r];
    Set(SetRecord(s, r, rec.(refcnt := rec.refcnt + 1)), p, Client(key, Unconfirmed, Some(r), 0, Limbo, 0, Nowhere))
  }

  // The record has no other unconfirmed id: callers remove it first.
  predicate CanInsert(s: State, p: nat) {
    && p in s.clients && s.clients[p].place.Limbo? && s.clients[p].record.Some?
    && s.clients[p].record.v in s.records && s.records[s.clients[p].record.v].unconfirmed.None?
  }

  function Insert(s: State, p: nat): State
    requires CanInsert(s, p)
  {
    var c := s.clients[p];
    if c.key in s.unconf then Free(s, p)
    else
      var rec := s.records[c.record.v];
      SetRecord(Set(s, p, c.(refcnt := c.refcnt + 1, place := InUnconf)), c.record.v, rec.(unconfirmed := Some(p)))
      .(unconf := s.unconf[c.key := p])
  }

  // The record has no confirmed id: callers expire it first.
  predicate CanConfirm(s: State, p: nat) {
    && p in s.clients && s.clients[p].status.Unconfirmed? && s.clients[p].place.InUnconf?
    && s.clients[p].record.Some? && s.clients[p].record.v in s.records
    && s.records[s.clients[p].record.v].confirmed.None?
  }

  function Confirm(s: State, p: nat): State
    requires CanConfirm(s, p)
  {
    var c := s.clients[p];
    var rec := s.records[c.record.v].(unconfirmed := None);
    var t := SetRecord(s, c.record.v, rec);
    if c.key !in s.unconf then t
    else
      var u := t.(unconf := s.unconf - {c.key});
      if c.key in s.conf then Unlinked(u, p)
      else
        SetRecord(Set(u, p, c.(status := Confirmed, place := InConf)), c.record.v, rec.(confirmed := Some(p)))
        .(conf := s.conf[c.key := p])
  }

  // Mark expired and give up the table's reference.
  function Unlinked(s: State, p: nat): State
    requires p in s.clients
  {
    var t := Set(s, p, s.clients[p].(status := Expired, place := Nowhere));
    if s.clients[p].refcnt > 0 then Unref(t, p) else t
  }

  predicate CanRemove(s: State, p: nat, status: Status) {
    p in s.clients && s.clients[p].status == status && !s.clients[p].place.Limbo?
  }

  function RemoveUnconfirmed(s: State, p: nat): State
    requires p in s.clients
  {
    var c := s.clients[p];
    if c.key !in s.unconf then s
    else
      var t := s.(unconf := s.unconf - {c.key});
      Unlinked(if c.record.Some? && c.record.v in s.records
               then SetRecord(t, c.record.v, s.records[c.record.v].(unconfirmed := None)) else t, p)
  }

  function RemoveConfirmed(s: State, p: nat): State
    requires p in s.clients
  {
    var c := s.clients[p];
    if c.key !in s.conf then s
    else
      var t := s.(conf := s.conf - {c.key});
      Unlinked(if c.record.Some? && c.record.v in s.records
               then SetRecord(t, c.record.v, s.records[c.record.v].(confirmed := None)) else t, p)
  }

  // First half of an expire: under cid_mutex, decouple and mark.
  function Decoupled(s: State, p: nat): State
    requires p in s.clients
  {
    var c := s.clients[p];
    if c.record.None? || c.record.v !in s.records then Set(s, p, c.(record := None))
    else
      var r := c.record.v;
      var rec := s.records[r];
      var cleared := rec.(confirmed := if rec.confirmed == Some(p) then None else rec.confirmed,
                          unconfirmed := if rec.unconfirmed == Some(p) then None else rec.unconfirmed);
      UnrefRecord(SetRecord(Set(s, p, c.(record := None)), r, cleared), r)
  }

  function Mark(s: State, p: nat, stale: bool): State
    requires p in s.clients
  {
    if s.clients[p].status.Expired? then s
    else
      var t := Decoupled(s, p);
      if stale then Set(t, p, t.clients[p].(status := Stale))
      else Set(t, p, t.clients[p].(status := Expired, dying := ExpireTable(s.clients[p].status)))
  }

  // The table the second half of an expire takes the id out of: chosen by the
  // status found in the first half.
  function ExpireTable(status: Status): Place {
    if status.Confirmed? || status.Stale? then InConf else InUnconf
  }

  // Second half: unhash. The table's reference passes to the expiring thread,
  // which gives it up once it has released the owners.
  predicate CanUnhash(s: State, p: nat) {
    p in s.clients && Hashed(s.clients[p].dying)
  }

  // The delete finds this id; the server stops if it finds nothing.
  predicate UnhashFinds(s: State, p: nat)
    requires p in s.clients
  {
    var c := s.clients[p];
    c.key in Table(s, c.dying) && Table(s, c.dying)[c.key] == p
  }

  function Unhash(s: State, p: nat): State
    requires CanUnhash(s, p)
  {
    var c := s.clients[p];
    var t := if c.dying.InConf? then s.(conf := s.conf - {c.key}) else s.(unconf := s.unconf - {c.key});
    Set(t, p, c.(dying := Nowhere, place := Nowhere, held := c.held + 1))
  }

  function Table(s: State, place: Place): map<nat, nat> {
    if place.InConf? then s.conf else s.unconf
  }

  datatype Answer = Found(p: nat) | StaleId | ExpiredId

  const HALF := 0x1_0000_0000

  function GetAnswer(s: State, place: Place, key: nat, epoch: nat): Answer {
    if key / HALF != epoch % HALF then StaleId
    else if key !in Table(s, place) || Table(s, place)[key] !in s.clients then ExpiredId
    else if s.clients[Table(s, place)[key]].status.Stale? then StaleId
    else Found(Table(s, place)[key])
  }

  function Get(s: State, place: Place, key: nat, epoch: nat): State {
    match GetAnswer(s, place, key, epoch)
    case Found(p) =>
      if p in s.clients
      then Set(s, p, s.clients[p].(refcnt := s.clients[p].refcnt + 1, held := s.clients[p].held + 1)) else s
    case _ => s
  }

  predicate CanPut(s: State, p: nat) {
    p in s.clients && s.clients[p].held > 0 && s.clients[p].refcnt > 0
  }

  function Put(s: State, p: nat): State
    requires CanPut(s, p)
  {
    Unref(Set(s, p, s.clients[p].(held := s.clients[p].held - 1)), p)
  }

  function HoldRecord(s: State, r: nat): State {
    if r in s.records then
      SetRecord(s, r, s.records[r].(refcnt := s.records[r].refcnt + 1, held := s.records[r].held + 1))
    else SetRecord(s, r, Record(None, None, 1, 1))
  }

  predicate CanDrop(s: State, r: nat) {
    r in s.records && s.records[r].held > 0
  }

  function DropRecord(s: State, r: nat): State
    requires CanDrop(s, r)
  {
    UnrefRecord(SetRecord(s, r, s.records[r].(held := s.records[r].held - 1)), r)
  }

  datatype Step =
    | Creates(p: nat, r: nat, key: nat)
    | Inserts(p: nat)
    | Confirms(p: nat)
    | RemovesUnconfirmed(p: nat)
    | RemovesConfirmed(p: nat)
    | Marks(p: nat, stale: bool)
    | Unhashes(p: nat)
    | Gets(place: Place, key: nat, epoch: nat)
    | Puts(p: nat)
    | HoldsRecord(r: nat)
    | DropsRecord(r: nat)

  // What callers guarantee; an id is made stale only after it was confirmed.
  predicate Next(s: State, step: Step, e: State) {
    match step
    case Creates(p, r, key) => CanCreate(s, p, r) && e == Create(s, p, r, key)
    case Inserts(p) => CanInsert(s, p) && e == Insert(s, p)
    case Confirms(p) => CanConfirm(s, p) && e == Confirm(s, p)
    case RemovesUnconfirmed(p) => CanRemove(s, p, Unconfirmed) && e == RemoveUnconfirmed(s, p)
    case RemovesConfirmed(p) => CanRemove(s, p, Confirmed) && e == RemoveConfirmed(s, p)
    case Marks(p, stale) => CanMark(s, p, stale) && e == Mark(s, p, stale)
    case Unhashes(p) => CanUnhash(s, p) && UnhashFinds(s, p) && e == Unhash(s, p)
    case Gets(place, key, epoch) => e == Get(s, place, key, epoch)
    case Puts(p) => CanPut(s, p) && e == Put(s, p)
    case HoldsRecord(r) => e == HoldRecord(s, r)
    case DropsRecord(r) => CanDrop(s, r) && e == DropRecord(s, r)
  }

  predicate CanMark(s: State, p: nat, stale: bool) {
    p in s.clients && !s.clients[p].place.Limbo? && (stale ==> !s.clients[p].status.Unconfirmed?)
  }

  // ------------------------------------------------------------- invariant

  predicate Hashed(place: Place) {
    place.InUnconf? || place.InConf?
  }

  predicate Shape(c: Client) {
    match c.status
    case Unconfirmed =>
      && c.dying.Nowhere? && (c.place.Limbo? || c.place.InUnconf?) && c.record.Some?
      && (c.place.Limbo? ==> c.held == 0)
    case Confirmed => c.dying.Nowhere? && c.place.InConf? && c.record.Some?
    case Stale => c.dying.Nowhere? && c.place.InConf? && c.record.None?
    case Expired => c.place == c.dying && !c.place.Limbo? && (Hashed(c.place) ==> c.record.None?)
  }

  // One reference for the table and one per running request.
  function Due(c: Client): nat {
    c.held + if Hashed(c.place) then 1 else 0
  }

  // An expired id lives as long as it has a reference. `extra` is an id with a
  // reference about to be given up.
  predicate Clients(s: State, extra: Opt) {
    forall p <- s.clients :: ClientOk(s.clients[p], extra == Some(p))
  }

  predicate ClientOk(c: Client, extra: bool) {
    Shape(c) && (if extra then c.refcnt == Due(c) + 1 else c.refcnt == Due(c) && (c.status.Expired? ==> c.refcnt > 0))
  }

  predicate Agrees(s: State, table: map<nat, nat>, place: Place) {
    && (forall k <- table ::
          table[k] in s.clients && s.clients[table[k]].key == k && s.clients[table[k]].place == place)
    && (forall p <- s.clients :: s.clients[p].place == place ==>
          s.clients[p].key in table && table[s.clients[p].key] == p)
  }

  predicate Tables(s: State) {
    Agrees(s, s.unconf, InUnconf) && Agrees(s, s.conf, InConf)
  }

  // An id points at a record that exists, and the record points back.
  predicate Points(s: State, p: nat)
    requires p in s.clients
  {
    var c := s.clients[p];
    c.record.Some? ==>
      && c.record.v in s.records
      && (c.status.Confirmed? ==> s.records[c.record.v].confirmed == Some(p))
      && (c.status.Unconfirmed? && c.place.InUnconf? ==> s.records[c.record.v].unconfirmed == Some(p))
  }

  predicate PointsBack(s: State, r: nat)
    requires r in s.records
  {
    var rec := s.records[r];
    && (rec.confirmed.Some? ==>
          && rec.confirmed.v in s.clients && s.clients[rec.confirmed.v].record == Some(r)
          && s.clients[rec.confirmed.v].status.Confirmed?)
    && (rec.unconfirmed.Some? ==>
          && rec.unconfirmed.v in s.clients && s.clients[rec.unconfirmed.v].record == Some(r)
          && s.clients[rec.unconfirmed.v].status.Unconfirmed? && s.clients[rec.unconfirmed.v].place.InUnconf?)
  }

  predicate Links(s: State) {
    (forall p <- s.clients :: Points(s, p)) && (forall r <- s.records :: PointsBack(s, r))
  }

  function Users(clients: map<nat, Client>, r: nat): set<nat> {
    set p | p in clients && clients[p].record == Some(r)
  }

  // One record reference per id that points at it and one per running request.
  predicate RecordCounted(s: State, r: nat, extra: bool)
    requires r in s.records
  {
    var due := s.records[r].held + |Users(s.clients, r)|;
    if extra then s.records[r].refcnt == due + 1 else s.records[r].refcnt == due > 0
  }

  predicate Records(s: State, extra: Opt) {
    forall r <- s.records :: RecordCounted(s, r, extra == Some(r))
  }

  predicate Inv(s: State) {
    Clients(s, None) && Tables(s) && Links(s) && Records(s, None)
  }

  // ---------------------------------------------------- references given up

  lemma UnrefRecordLinks(s: State, r: nat, e: State)
    requires Links(s) && Records(s, Some(r)) && r in s.records && e == UnrefRecord(s, r)
    ensures Links(e) && Records(e, None)
  {
    assert RecordCounted(s, r, true);
    if s.records[r].refcnt <= 1 {
      assert Users(s.clients, r) == {};
      forall p <- e.clients ensures Points(e, p) {
        assert Points(s, p);
        assert s.clients[p].record == Some(r) ==> p in Users(s.clients, r);
      }
      forall q <- e.records ensures PointsBack(e, q) && RecordCounted(e, q, false) {
        assert PointsBack(s, q) && RecordCounted(s, q, false);
      }
    } else {
      forall p <- e.clients ensures Points(e, p) {
        assert Points(s, p);
      }
      forall q <- e.records ensures PointsBack(e, q) && RecordCounted(e, q, false) {
        assert PointsBack(s, q) && RecordCounted(s, q, q == r);
      }
    }
  }

  // An id no table and no record points at can go.
  predicate Loose(c: Client) {
    !Hashed(c.place) && (c.status.Expired? || (c.status.Unconfirmed? && c.place.Limbo?))
  }

  lemma FreeLinks(s: State, p: nat, e: State)
    requires Links(s) && Records(s, None) && p in s.clients && Loose(s.clients[p]) && e == Free(s, p)
    ensures Links(e) && Records(e, None)
  {
    var t := s.(clients := s.clients - {p});
    var rec := s.clients[p].record;
    forall q <- t.clients ensures Points(t, q) {
      assert Points(s, q);
    }
    forall r <- t.records ensures PointsBack(t, r) && RecordCounted(t, r, rec == Some(r)) {
      assert PointsBack(s, r) && RecordCounted(s, r, false);
      assert Users(t.clients, r) == Users(s.clients, r) - {p};
      assert rec == Some(r) <==> p in Users(s.clients, r);
    }
    if rec.Some? {
      assert Points(s, p);
      UnrefRecordLinks(t, rec.v, e);
    }
  }

  lemma FreeTables(s: State, p: nat, e: State)
    requires Tables(s) && p in s.clients && !Hashed(s.clients[p].place) && e == Free(s, p)
    ensures Tables(e)
  {
  }

  lemma FreeKeeps(s: State, p: nat, e: State)
    requires Tables(s) && Links(s) && Records(s, None) && p in s.clients && Loose(s.clients[p]) && e == Free(s, p)
    requires forall q <- s.clients :: q != p ==> ClientOk(s.clients[q], false)
    ensures Inv(e)
  {
    FreeLinks(s, p, e);
    FreeTables(s, p, e);
    assert e.clients == s.clients - {p};
  }

  // A change that leaves key, place, record and status of an id alone.
  predicate SameFace(a: Client, b: Client) {
    a.key == b.key && a.place == b.place && a.record == b.record && a.status == b.status
  }

  lemma SetKeeps(s: State, p: nat, c: Client, e: State)
    requires Tables(s) && Links(s) && Records(s, None) && p in s.clients && SameFace(s.clients[p], c)
    requires e == Set(s, p, c)
    ensures Tables(e) && Links(e) && Records(e, None)
  {
    forall q <- e.clients ensures Points(e, q) {
      assert Points(s, q);
    }
    forall r <- e.records ensures PointsBack(e, r) && RecordCounted(e, r, false) {
      assert PointsBack(s, r) && RecordCounted(s, r, false);
      assert Users(e.clients, r) == Users(s.clients, r);
    }
  }

  // dec_client_id_ref: the last reference is only ever dropped by an expired id.
  lemma UnrefKeeps(s: State, p: nat, e: State)
    requires Clients(s, Some(p)) && Tables(s) && Links(s) && Records(s, None)
    requires p in s.clients && s.clients[p].refcnt > 0 && e == Unref(s, p)
    ensures Inv(e)
    ensures s.clients[p].refcnt == 1 && !s.clients[p].place.Limbo? ==> s.clients[p].status.Expired?
  {
    var c := s.clients[p];
    assert ClientOk(c, true);
    if c.refcnt == 1 && c.status.Expired? {
      FreeKeeps(s, p, e);
    } else {
      SetKeeps(s, p, c.(refcnt := c.refcnt - 1), e);
      forall q <- e.clients ensures ClientOk(e.clients[q], false) {
        assert ClientOk(s.clients[q], q == p);
      }
    }
  }
}
