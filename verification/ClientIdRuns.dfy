/** Every step on client ids keeps the tables, the back-pointers and both counts
    exact, and what follows for every run. */
module ClientIdRuns {
  import opened ClientIds

  lemma SameUsers(a: map<nat, Client>, b: map<nat, Client>, p: nat, r: nat)
    requires p in a && p in b && a[p].record == b[p].record && b == a[p := b[p]]
    ensures Users(b, r) == Users(a, r)
  {
  }

  lemma CreateUsers(s: State, p: nat, c: Client, r: nat)
    requires p !in s.clients
    ensures |Users(s.clients[p := c], r)| == |Users(s.clients, r)| + if c.record == Some(r) then 1 else 0
  {
    assert Users(s.clients[p := c], r) ==
           if c.record == Some(r) then Users(s.clients, r) + {p} else Users(s.clients, r);
  }

  lemma CreateRecord(s: State, p: nat, r: nat, key: nat, e: State, x: nat)
    requires CanCreate(s, p, r) && e == Create(s, p, r, key) && x in s.records
    requires PointsBack(s, x) && RecordCounted(s, x, false)
    ensures PointsBack(e, x) && RecordCounted(e, x, false)
  {
    CreateUsers(s, p, e.clients[p], x);
  }

  lemma CreateTables(s: State, p: nat, r: nat, key: nat, e: State)
    requires Tables(s) && CanCreate(s, p, r) && e == Create(s, p, r, key)
    ensures Tables(e)
  {
  }

  lemma CreateKeeps(s: State, p: nat, r: nat, key: nat, e: State)
    requires Inv(s) && CanCreate(s, p, r) && e == Create(s, p, r, key)
    ensures Inv(e)
  {
    CreateTables(s, p, r, key, e);
    forall q <- e.clients ensures ClientOk(e.clients[q], false) && Points(e, q) {
      assert q != p ==> ClientOk(s.clients[q], false) && Points(s, q);
    }
    forall x <- e.records ensures PointsBack(e, x) && RecordCounted(e, x, false) {
      CreateRecord(s, p, r, key, e, x);
    }
  }

  lemma InsertTables(s: State, p: nat, e: State)
    requires Tables(s) && CanInsert(s, p) && s.clients[p].key !in s.unconf && e == Insert(s, p)
    ensures Tables(e)
  {
  }

  lemma InsertPoints(s: State, p: nat, e: State, q: nat)
    requires CanInsert(s, p) && s.clients[p].key !in s.unconf && e == Insert(s, p)
    requires q in s.clients && Points(s, q)
    ensures q in e.clients && Points(e, q)
  {
  }

  lemma InsertRecord(s: State, p: nat, e: State, x: nat)
    requires CanInsert(s, p) && s.clients[p].status.Unconfirmed? && s.clients[p].key !in s.unconf && e == Insert(s, p)
    requires x in s.records && PointsBack(s, x) && RecordCounted(s, x, false)
    ensures x in e.records && PointsBack(e, x) && RecordCounted(e, x, false)
  {
    SameUsers(s.clients, e.clients, p, x);
  }

  lemma InsertLinks(s: State, p: nat, e: State)
    requires Links(s) && Records(s, None) && CanInsert(s, p)
    requires s.clients[p].status.Unconfirmed? && s.clients[p].key !in s.unconf && e == Insert(s, p)
    ensures Links(e) && Records(e, None)
  {
    forall q <- e.clients ensures Points(e, q) {
      InsertPoints(s, p, e, q);
    }
    forall x <- e.records ensures PointsBack(e, x) && RecordCounted(e, x, false) {
      assert x in s.records;
      InsertRecord(s, p, e, x);
    }
  }

  lemma InsertKeeps(s: State, p: nat, e: State)
    requires Inv(s) && CanInsert(s, p) && e == Insert(s, p)
    ensures Inv(e)
  {
    assert ClientOk(s.clients[p], false);
    if s.clients[p].key in s.unconf {
      FreeKeeps(s, p, e);
    } else {
      InsertTables(s, p, e);
      InsertLinks(s, p, e);
      forall q <- e.clients ensures ClientOk(e.clients[q], false) {
        assert ClientOk(s.clients[q], false);
      }
    }
  }

  // ----------------------------------------------------------- out of a table

  // An id taken out of its table, expired, forgotten by its record, and still
  // counting the table's reference.
  function Cut(s: State, p: nat): State
    requires p in s.clients
  {
    var c := s.clients[p];
    var t := if c.place.InConf? then s.(conf := s.conf - {c.key}) else s.(unconf := s.unconf - {c.key});
    Set(Forgotten(t, c.record, p), p, c.(status := Expired, place := Nowhere, dying := Nowhere))
  }

  function Forgotten(s: State, record: Opt, p: nat): State {
    if record.Some? && record.v in s.records then SetRecord(s, record.v, Cleared(s.records[record.v], p)) else s
  }

  function Cleared(rec: Record, p: nat): Record {
    rec.(confirmed := if rec.confirmed == Some(p) then None else rec.confirmed,
         unconfirmed := if rec.unconfirmed == Some(p) then None else rec.unconfirmed)
  }

  // One table, when the id leaves its own.
  lemma CutAgrees(s: State, p: nat, e: State, place: Place, table: map<nat, nat>)
    requires p in s.clients && Hashed(place) && Hashed(s.clients[p].place) && Agrees(s, table, place)
    requires p in e.clients && e.clients == s.clients[p := e.clients[p]] && e.clients[p].place.Nowhere?
    ensures Agrees(e, if s.clients[p].place == place then table - {s.clients[p].key} else table, place)
  {
    var c := s.clients[p];
    var rest := if c.place == place then table - {c.key} else table;
    forall k <- rest ensures rest[k] in e.clients && e.clients[rest[k]].key == k && e.clients[rest[k]].place == place {
      assert k in table && rest[k] == table[k] && table[k] != p;
    }
    forall q <- e.clients | e.clients[q].place == place
      ensures e.clients[q].key in rest && rest[e.clients[q].key] == q
    {
      assert q != p && table[s.clients[q].key] == q;
    }
  }

  lemma CutTables(s: State, p: nat, e: State)
    requires Tables(s) && p in s.clients && Hashed(s.clients[p].place) && e == Cut(s, p)
    ensures Tables(e)
  {
    CutAgrees(s, p, e, InUnconf, s.unconf);
    CutAgrees(s, p, e, InConf, s.conf);
  }

  lemma CutPoints(s: State, p: nat, e: State, q: nat)
    requires p in s.clients && e == Cut(s, p) && q in s.clients && Points(s, q)
    ensures q in e.clients && Points(e, q)
  {
  }

  lemma CutBack(s: State, p: nat, e: State, x: nat)
    requires p in s.clients && e == Cut(s, p) && x in s.records && PointsBack(s, x)
    ensures x in e.records && PointsBack(e, x)
  {
  }

  lemma CutCount(s: State, p: nat, e: State, x: nat)
    requires p in s.clients && e == Cut(s, p) && x in s.records && RecordCounted(s, x, false)
    ensures x in e.records && RecordCounted(e, x, false)
  {
    SameUsers(s.clients, e.clients, p, x);
  }

  lemma CutLinks(s: State, p: nat, e: State)
    requires Links(s) && Records(s, None) && p in s.clients && e == Cut(s, p)
    ensures Links(e) && Records(e, None)
  {
    forall q <- e.clients ensures Points(e, q) {
      CutPoints(s, p, e, q);
    }
    forall x <- e.records ensures PointsBack(e, x) && RecordCounted(e, x, false) {
      assert x in s.records;
      CutBack(s, p, e, x);
      CutCount(s, p, e, x);
    }
  }

  lemma CutClients(s: State, p: nat, c: State)
    requires Clients(s, None) && p in s.clients && Hashed(s.clients[p].place) && c == Cut(s, p)
    ensures Clients(c, Some(p))
  {
    forall q <- c.clients ensures ClientOk(c.clients[q], Some(p) == Some(q)) {
      assert ClientOk(s.clients[q], false);
    }
  }

  lemma CutKeeps(s: State, p: nat, c: State, e: State)
    requires Inv(s) && p in s.clients && Hashed(s.clients[p].place) && c == Cut(s, p)
    requires c.clients[p].refcnt > 0 && e == Unref(c, p)
    ensures Inv(e)
  {
    CutTables(s, p, c);
    CutLinks(s, p, c);
    CutClients(s, p, c);
    UnrefKeeps(c, p, e);
  }

  // Where an id is, both ways.
  lemma Located(s: State, p: nat)
    requires Clients(s, None) && Tables(s) && p in s.clients
    ensures s.clients[p].place.InUnconf? <==> s.clients[p].key in s.unconf && s.unconf[s.clients[p].key] == p
    ensures s.clients[p].place.InConf? <==> s.clients[p].key in s.conf && s.conf[s.clients[p].key] == p
    ensures Hashed(s.clients[p].place) ==> s.clients[p].refcnt > 0
    ensures Shape(s.clients[p])
  {
    assert ClientOk(s.clients[p], false);
  }

  lemma RemovesAreCuts(s: State, p: nat)
    requires Inv(s) && p in s.clients
    ensures CanRemove(s, p, Unconfirmed) ==>
              s.clients[p].key in s.unconf && s.clients[p].refcnt > 0 && RemoveUnconfirmed(s, p) == Unref(Cut(s, p), p)
    ensures CanRemove(s, p, Confirmed) ==>
              s.clients[p].key in s.conf && s.clients[p].refcnt > 0 && RemoveConfirmed(s, p) == Unref(Cut(s, p), p)
  {
    Located(s, p);
    assert Points(s, p);
    var c := s.clients[p];
    if c.record.Some? {
      assert PointsBack(s, c.record.v);
    }
  }

  lemma RemoveKeeps(s: State, p: nat, e: State)
    requires Inv(s)
    requires (CanRemove(s, p, Unconfirmed) && e == RemoveUnconfirmed(s, p)) ||
             (CanRemove(s, p, Confirmed) && e == RemoveConfirmed(s, p))
    ensures Inv(e)
  {
    RemovesAreCuts(s, p);
    Located(s, p);
    CutKeeps(s, p, Cut(s, p), e);
  }

  // The delete of an expire finds its own id.
  lemma UnhashAlwaysFinds(s: State, p: nat)
    requires Clients(s, None) && Tables(s) && CanUnhash(s, p)
    ensures UnhashFinds(s, p) && s.clients[p].refcnt > 0 && Shape(s.clients[p]) && Hashed(s.clients[p].place)
  {
    Located(s, p);
  }

  lemma UnhashIsCut(s: State, p: nat)
    requires CanUnhash(s, p) && Shape(s.clients[p])
    ensures var c := Cut(s, p); Unhash(s, p) == Set(c, p, c.clients[p].(held := c.clients[p].held + 1))
  {
  }

  lemma UnhashClients(s: State, p: nat, e: State)
    requires Clients(s, None) && CanUnhash(s, p) && e == Unhash(s, p)
    ensures Clients(e, None)
  {
    forall q <- e.clients ensures ClientOk(e.clients[q], false) {
      assert ClientOk(s.clients[q], false);
    }
  }

  lemma UnhashKeeps(s: State, p: nat, e: State)
    requires Inv(s) && CanUnhash(s, p) && e == Unhash(s, p)
    ensures Inv(e)
  {
    UnhashAlwaysFinds(s, p);
    UnhashIsCut(s, p);
    UnhashClients(s, p, e);
    var c := Cut(s, p);
    CutTables(s, p, c);
    CutLinks(s, p, c);
    SetKeeps(c, p, c.clients[p].(held := c.clients[p].held + 1), e);
  }

  // -------------------------------------------------------------- confirming

  lemma ConfirmCollides(s: State, p: nat)
    requires Inv(s) && CanConfirm(s, p) && s.clients[p].key in s.conf
    ensures s.clients[p].refcnt > 0 && Confirm(s, p) == Unref(Cut(s, p), p)
  {
    Located(s, p);
    assert Points(s, p) && PointsBack(s, s.clients[p].record.v);
  }

  lemma ConfirmTables(s: State, p: nat, e: State)
    requires Inv(s) && CanConfirm(s, p) && s.clients[p].key !in s.conf && e == Confirm(s, p)
    ensures Tables(e)
  {
    Located(s, p);
    var c := s.clients[p];
    forall q <- e.clients ensures q != p && e.clients[q].place.InUnconf? ==> e.clients[q].key != c.key {}
  }

  lemma ConfirmRecord(s: State, p: nat, e: State, x: nat)
    requires CanConfirm(s, p) && s.clients[p].key in s.unconf && s.clients[p].key !in s.conf && e == Confirm(s, p)
    requires Points(s, p) && x in s.records && PointsBack(s, x) && RecordCounted(s, x, false)
    ensures x in e.records && PointsBack(e, x) && RecordCounted(e, x, false)
  {
    SameUsers(s.clients, e.clients, p, x);
  }

  lemma ConfirmPoints(s: State, p: nat, e: State, q: nat)
    requires CanConfirm(s, p) && s.clients[p].key in s.unconf && s.clients[p].key !in s.conf && e == Confirm(s, p)
    requires Points(s, p) && q in s.clients && Points(s, q)
    ensures q in e.clients && Points(e, q)
  {
  }

  lemma ConfirmLinks(s: State, p: nat, e: State)
    requires Links(s) && Records(s, None) && CanConfirm(s, p)
    requires s.clients[p].key in s.unconf && s.clients[p].key !in s.conf && e == Confirm(s, p)
    ensures Links(e) && Records(e, None)
  {
    assert Points(s, p);
    forall q <- e.clients ensures Points(e, q) {
      ConfirmPoints(s, p, e, q);
    }
    forall x <- e.records ensures PointsBack(e, x) && RecordCounted(e, x, false) {
      assert x in s.records;
      ConfirmRecord(s, p, e, x);
    }
  }

  lemma ConfirmKeeps(s: State, p: nat, e: State)
    requires Inv(s) && CanConfirm(s, p) && e == Confirm(s, p)
    ensures Inv(e)
  {
    Located(s, p);
    if s.clients[p].key in s.conf {
      ConfirmCollides(s, p);
      CutKeeps(s, p, Cut(s, p), e);
    } else {
      ConfirmTables(s, p, e);
      ConfirmLinks(s, p, e);
      forall q <- e.clients ensures ClientOk(e.clients[q], false) {
        assert ClientOk(s.clients[q], false);
      }
    }
  }

  // ---------------------------------------------------------------- expiring

  // The first half of an expire with the record's count still to be lowered.
  function Marked(s: State, p: nat, stale: bool): State
    requires p in s.clients
  {
    var c := s.clients[p];
    Set(Forgotten(s, c.record, p), p,
        if stale then c.(record := None, status := Stale)
        else c.(record := None, status := Expired, dying := ExpireTable(c.status)))
  }

  // Ids and records are changed independently.
  lemma UnrefApart(s: State, p: nat, was: Client, c: Client, r: nat)
    ensures Set(UnrefRecord(Set(s, p, was), r), p, c) == UnrefRecord(Set(s, p, c), r)
  {
    assert s.clients[p := was][p := c] == s.clients[p := c];
  }

  lemma MarkIsMarked(s: State, p: nat, stale: bool)
    requires p in s.clients && Points(s, p) && !s.clients[p].status.Expired?
    ensures var c := s.clients[p];
            Mark(s, p, stale) == if c.record.Some? then UnrefRecord(Marked(s, p, stale), c.record.v)
                                 else Marked(s, p, stale)
  {
    var c := s.clients[p];
    var was := c.(record := None);
    var now := if stale then was.(status := Stale)
               else was.(status := Expired, dying := ExpireTable(c.status));
    if c.record.Some? {
      var r := c.record.v;
      var t := SetRecord(s, r, Cleared(s.records[r], p));
      UnrefApart(t, p, was, now, r);
      assert Marked(s, p, stale) == Set(t, p, now);
      assert Decoupled(s, p) == UnrefRecord(Set(t, p, was), r);
      assert p in Decoupled(s, p).clients && Decoupled(s, p).clients[p] == was;
    } else {
      assert s.clients[p := was][p := now] == s.clients[p := now];
    }
  }

  lemma MarkedPoints(s: State, p: nat, stale: bool, e: State, q: nat)
    requires p in s.clients && e == Marked(s, p, stale) && q in s.clients && Points(s, q)
    ensures q in e.clients && Points(e, q)
  {
  }

  lemma MarkedBack(s: State, p: nat, stale: bool, e: State, x: nat)
    requires p in s.clients && e == Marked(s, p, stale) && x in s.records && PointsBack(s, x)
    ensures x in e.records && PointsBack(e, x)
  {
  }

  lemma MarkedCount(s: State, p: nat, stale: bool, e: State, x: nat)
    requires p in s.clients && e == Marked(s, p, stale) && x in s.records && RecordCounted(s, x, false)
    ensures x in e.records && RecordCounted(e, x, s.clients[p].record == Some(x))
  {
    UsersWithout(s.clients, e.clients, p, x);
  }

  lemma UsersWithout(a: map<nat, Client>, b: map<nat, Client>, p: nat, r: nat)
    requires p in a && p in b && b == a[p := b[p]] && b[p].record.None?
    ensures |Users(b, r)| == |Users(a, r)| - if a[p].record == Some(r) then 1 else 0
  {
    assert Users(b, r) == Users(a, r) - {p};
    assert a[p].record == Some(r) <==> p in Users(a, r);
  }

  lemma MarkedLinks(s: State, p: nat, stale: bool, e: State)
    requires Links(s) && Records(s, None) && p in s.clients && e == Marked(s, p, stale)
    ensures Links(e) && Records(e, s.clients[p].record)
  {
    forall q <- e.clients ensures Points(e, q) {
      MarkedPoints(s, p, stale, e, q);
    }
    forall x <- e.records ensures PointsBack(e, x) && RecordCounted(e, x, s.clients[p].record == Some(x)) {
      assert x in s.records;
      MarkedBack(s, p, stale, e, x);
      MarkedCount(s, p, stale, e, x);
    }
  }

  lemma SameTables(s: State, e: State, p: nat)
    requires Tables(s) && e.unconf == s.unconf && e.conf == s.conf
    requires p in s.clients && p in e.clients && e.clients == s.clients[p := e.clients[p]]
    requires e.clients[p].key == s.clients[p].key && e.clients[p].place == s.clients[p].place
    ensures Tables(e)
  {
  }

  lemma MarkClients(s: State, p: nat, stale: bool, e: State)
    requires Clients(s, None) && CanMark(s, p, stale) && !s.clients[p].status.Expired?
    requires e.clients == Marked(s, p, stale).clients
    ensures Clients(e, None)
  {
    assert ClientOk(s.clients[p], false);
    forall q <- e.clients ensures ClientOk(e.clients[q], false) {
      assert ClientOk(s.clients[q], false);
    }
  }

  lemma MarkKeeps(s: State, p: nat, stale: bool, e: State)
    requires Inv(s) && CanMark(s, p, stale) && e == Mark(s, p, stale)
    ensures Inv(e)
  {
    if !s.clients[p].status.Expired? {
      var m := Marked(s, p, stale);
      assert Points(s, p);
      MarkIsMarked(s, p, stale);
      MarkClients(s, p, stale, e);
      SameTables(s, e, p);
      MarkedLinks(s, p, stale, m);
      if s.clients[p].record.Some? {
        UnrefRecordLinks(m, s.clients[p].record.v, e);
      }
    }
  }

  // -------------------------------------------------------------- references

  lemma GetKeeps(s: State, place: Place, key: nat, epoch: nat, e: State)
    requires Inv(s) && e == Get(s, place, key, epoch)
    ensures Inv(e)
  {
    var a := GetAnswer(s, place, key, epoch);
    if a.Found? {
      var c := s.clients[a.p];
      Located(s, a.p);
      SetKeeps(s, a.p, c.(refcnt := c.refcnt + 1, held := c.held + 1), e);
      forall q <- e.clients ensures ClientOk(e.clients[q], false) {
        assert ClientOk(s.clients[q], false);
      }
    }
  }

  lemma PutKeeps(s: State, p: nat, e: State)
    requires Inv(s) && CanPut(s, p) && e == Put(s, p)
    ensures Inv(e)
  {
    var c := s.clients[p];
    var m := Set(s, p, c.(held := c.held - 1));
    SetKeeps(s, p, c.(held := c.held - 1), m);
    forall q <- m.clients ensures ClientOk(m.clients[q], Some(p) == Some(q)) {
      assert ClientOk(s.clients[q], false);
    }
    UnrefKeeps(m, p, e);
  }

  lemma HeldRecord(s: State, r: nat, e: State, x: nat)
    requires x in s.records && PointsBack(s, x) && RecordCounted(s, x, false) && e == HoldRecord(s, r)
    ensures x in e.records && PointsBack(e, x) && RecordCounted(e, x, false)
  {
  }

  lemma HeldLinks(s: State, r: nat, e: State)
    requires Links(s) && Records(s, None) && e == HoldRecord(s, r)
    ensures Links(e) && Records(e, None)
  {
    forall q <- e.clients ensures Points(e, q) {
      assert Points(s, q);
    }
    forall x <- e.records ensures PointsBack(e, x) && RecordCounted(e, x, false) {
      if x in s.records {
        HeldRecord(s, r, e, x);
      } else {
        NoUsers(s, x);
      }
    }
  }

  lemma HoldRecordKeeps(s: State, r: nat, e: State)
    requires Inv(s) && e == HoldRecord(s, r)
    ensures Inv(e)
  {
    HeldLinks(s, r, e);
  }

  lemma NoUsers(s: State, r: nat)
    requires Links(s) && r !in s.records
    ensures Users(s.clients, r) == {}
  {
    forall p <- s.clients ensures s.clients[p].record != Some(r) {
      assert Points(s, p);
    }
  }

  lemma DropRecordLinks(s: State, r: nat, m: State)
    requires Links(s) && Records(s, None) && CanDrop(s, r)
    requires m == SetRecord(s, r, s.records[r].(held := s.records[r].held - 1))
    ensures Links(m) && Records(m, Some(r))
  {
    forall q <- m.clients ensures Points(m, q) {
      assert Points(s, q);
    }
    forall x <- m.records ensures PointsBack(m, x) && RecordCounted(m, x, Some(r) == Some(x)) {
      assert PointsBack(s, x) && RecordCounted(s, x, false);
    }
  }

  lemma DropRecordKeeps(s: State, r: nat, e: State)
    requires Inv(s) && CanDrop(s, r) && e == DropRecord(s, r)
    ensures Inv(e)
  {
    var m := SetRecord(s, r, s.records[r].(held := s.records[r].held - 1));
    DropRecordLinks(s, r, m);
    UnrefRecordLinks(m, r, e);
  }

  lemma StepKeeps(s: State, step: Step, e: State)
    requires Inv(s) && Next(s, step, e)
    ensures Inv(e)
  {
    match step {
      case Creates(p, r, key) => CreateKeeps(s, p, r, key, e);
      case Inserts(p) => InsertKeeps(s, p, e);
      case Confirms(p) => ConfirmKeeps(s, p, e);
      case RemovesUnconfirmed(p) => RemoveKeeps(s, p, e);
      case RemovesConfirmed(p) => RemoveKeeps(s, p, e);
      case Marks(p, stale) => MarkKeeps(s, p, stale, e);
      case Unhashes(p) => UnhashKeeps(s, p, e);
      case Gets(place, key, epoch) => GetKeeps(s, place, key, epoch, e);
      case Puts(p) => PutKeeps(s, p, e);
      case HoldsRecord(r) => HoldRecordKeeps(s, r, e);
      case DropsRecord(r) => DropRecordKeeps(s, r, e);
    }
  }

  // -------------------------------------------------------------------- runs

  predicate IsRun(states: seq<State>, steps: seq<Step>) {
    && |states| == |steps| + 1 && states[0] == EMPTY
    && forall i | 0 <= i < |steps| :: Next(states[i], steps[i], states[i + 1])
  }

  lemma {:induction false} RunInv(states: seq<State>, steps: seq<Step>, k: nat)
    requires IsRun(states, steps) && k < |states|
    ensures Inv(states[k])
  {
    if k > 0 {
      RunInv(states, steps, k - 1);
      StepKeeps(states[k - 1], steps[k - 1], states[k]);
    }
  }

  predicate In(table: map<nat, nat>, s: State, p: nat)
    requires p in s.clients
  {
    s.clients[p].key in table && table[s.clients[p].key] == p
  }

  /** Tables match states: an unconfirmed id, once inserted, is in the unconfirmed
      table only, a confirmed or stale id in the confirmed table only, an expired
      id that no expire is still working on in neither. */
  lemma Placement(states: seq<State>, steps: seq<Step>, k: nat, p: nat)
    requires IsRun(states, steps) && k < |states| && p in states[k].clients
    ensures var s := states[k];
            var c := s.clients[p];
            && (c.status.Unconfirmed? ==> (In(s.unconf, s, p) <==> !c.place.Limbo?) && !In(s.conf, s, p))
            && (c.status.Confirmed? || c.status.Stale? ==> In(s.conf, s, p) && !In(s.unconf, s, p))
            && (c.status.Expired? && !CanUnhash(s, p) ==> !In(s.conf, s, p) && !In(s.unconf, s, p))
  {
    RunInv(states, steps, k);
    Located(states[k], p);
  }

  /** The table delete of an expire never fails, and removes that very id. */
  lemma ExpireDeleteFinds(states: seq<State>, steps: seq<Step>, k: nat, p: nat)
    requires IsRun(states, steps) && k < |states| && CanUnhash(states[k], p)
    ensures UnhashFinds(states[k], p)
  {
    RunInv(states, steps, k);
    UnhashAlwaysFinds(states[k], p);
  }

  /** The second lookup of an expire, guarded by a stale status after the first has
      failed, never runs in any run, and is never needed. */
  lemma SecondLookupNeverRuns(states: seq<State>, steps: seq<Step>, k: nat, p: nat)
    requires IsRun(states, steps) && k < |states| && CanUnhash(states[k], p)
    ensures !states[k].clients[p].status.Stale? && UnhashFinds(states[k], p)
  {
    RunInv(states, steps, k);
    UnhashAlwaysFinds(states[k], p);
  }

  lemma MarkedTwice(s: State, p: nat)
    requires p in s.clients && Points(s, p) && !s.clients[p].status.Expired?
    ensures var e := Mark(Mark(s, p, true), p, false);
            && p in e.clients && e.clients[p].dying == InConf && e.clients[p].key == s.clients[p].key
            && e.conf == s.conf && e.unconf == s.unconf
  {
    MarkIsMarked(s, p, true);
    var m := Mark(s, p, true);
    assert m.clients[p] == s.clients[p].(record := None, status := Stale);
    MarkIsMarked(m, p, false);
  }

  /** Why callers make only confirmed ids stale: the later expire finds the id exactly
      then, since it chooses the table by the status. */
  lemma StaleThenExpireIff(s: State, p: nat)
    requires Inv(s) && p in s.clients && Hashed(s.clients[p].place) && !s.clients[p].status.Expired?
    ensures var e := Mark(Mark(s, p, true), p, false);
            p in e.clients && (UnhashFinds(e, p) <==> !s.clients[p].status.Unconfirmed?)
  {
    assert Points(s, p);
    Located(s, p);
    MarkedTwice(s, p);
  }

  /** Dropping the last reference happens only to expired ids: nothing hashed is
      ever freed, and an id is freed with exactly its last reference. */
  lemma FreedOnlyExpired(s: State, p: nat)
    requires Inv(s) && CanPut(s, p)
    ensures p !in Put(s, p).clients <==> s.clients[p].refcnt == 1 && s.clients[p].status.Expired?
    ensures p !in Put(s, p).clients ==> s.clients[p].place.Nowhere?
    ensures s.clients[p].refcnt == 1 ==> s.clients[p].status.Expired?
  {
    assert ClientOk(s.clients[p], false);
  }

  // ------------------------------------------------------------------ new ids

  function NewId(counter: nat, epoch: nat): nat {
    counter % HALF + epoch % HALF * HALF
  }

  /** An id minted in this epoch passes the epoch test of a lookup, one minted in
      an epoch that differs modulo 2^32 is answered stale, and two counters below
      2^32 give two ids. */
  lemma NewIdEpoch(s: State, place: Place, counter: nat, epoch: nat, now: nat)
    ensures epoch % HALF != now % HALF ==> GetAnswer(s, place, NewId(counter, epoch), now) == StaleId
    ensures epoch % HALF == now % HALF && NewId(counter, epoch) !in Table(s, place) ==>
              GetAnswer(s, place, NewId(counter, epoch), now) == ExpiredId
    ensures forall other: nat | other < HALF && counter < HALF && other != counter ::
              NewId(other, epoch) != NewId(counter, epoch)
  {
    assert NewId(counter, epoch) / HALF == epoch % HALF;
  }
}
