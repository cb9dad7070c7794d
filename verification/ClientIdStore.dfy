/** The client id tables as an object: each entry point of nfs4_clientid.c ends in
    the state its step describes. */
module ClientIdStore {
  import opened ClientIds

  datatype Result = Success | InsertError | InvalidArgument | NotFound

  class Store {
    var clients: map<nat, Client>
    var records: map<nat, Record>
    var unconf: map<nat, nat>
    var conf: map<nat, nat>

    ghost function View(): State
      reads this
    {
      State(clients, records, unconf, conf)
    }

    constructor ()
      ensures View() == EMPTY
    {
      clients, records, unconf, conf := map[], map[], map[], map[];
    }

    method DecRecordRef(r: nat)
      requires r in records && records[r].refcnt > 0
      modifies this`records
      ensures View() == UnrefRecord(old(View()), r)
    {
      var refcount := records[r].refcnt - 1;
      records := records[r := records[r].(refcnt := refcount)];
      if refcount == 0 {
        records := records - {r};
      }
      assert records == UnrefRecord(old(View()), r).records;
    }

    predicate RecordAlive(p: nat)
      requires p in clients
      reads this
    {
      clients[p].record.Some? ==> clients[p].record.v in records && records[clients[p].record.v].refcnt > 0
    }

    method FreeClient(p: nat)
      requires p in clients && RecordAlive(p)
      modifies this
      ensures View() == Free(old(View()), p)
    {
      var record := clients[p].record;
      clients := clients - {p};
      if record.Some? {
        DecRecordRef(record.v);
      }
    }

    method DecClientRef(p: nat)
      requires p in clients && clients[p].refcnt > 0 && RecordAlive(p)
      modifies this
      ensures View() == Unref(old(View()), p)
    {
      var refcount := clients[p].refcnt - 1;
      if refcount == 0 && clients[p].status.Expired? {
        FreeClient(p);
      } else {
        clients := clients[p := clients[p].(refcnt := refcount)];
      }
    }

    method InsertClient(p: nat) returns (rc: Result)
      requires CanInsert(View(), p) && RecordAlive(p)
      modifies this
      ensures View() == Insert(old(View()), p)
      ensures rc == if old(clients[p].key in unconf) then InsertError else Success
    {
      var key := clients[p].key;
      if key in unconf {
        FreeClient(p);
        return InsertError;
      }
      unconf := unconf[key := p];
      clients := clients[p := clients[p].(refcnt := clients[p].refcnt + 1, place := InUnconf)];
      var r := clients[p].record.v;
      records := records[r := records[r].(unconfirmed := Some(p))];
      return Success;
    }

    // Mark expired and drop the table's reference.
    method Unlink(p: nat)
      requires p in clients && clients[p].refcnt > 0 && RecordAlive(p)
      modifies this
      ensures View() == Unlinked(old(View()), p)
    {
      clients := clients[p := clients[p].(status := Expired, place := Nowhere)];
      DecClientRef(p);
    }

    method ConfirmClient(p: nat) returns (rc: Result)
      requires CanConfirm(View(), p) && clients[p].refcnt > 0 && RecordAlive(p)
      modifies this
      ensures View() == Confirm(old(View()), p)
      ensures rc == if old(clients[p].key !in unconf) then InvalidArgument
                    else if old(clients[p].key in conf) then InsertError else Success
    {
      var key, r := clients[p].key, clients[p].record.v;
      records := records[r := records[r].(unconfirmed := None)];
      if key !in unconf {
        return InvalidArgument;
      }
      unconf := unconf - {key};
      if key in conf {
        Unlink(p);
        return InsertError;
      }
      clients := clients[p := clients[p].(status := Confirmed, place := InConf)];
      conf := conf[key := p];
      records := records[r := records[r].(confirmed := Some(p))];
      return Success;
    }

    method RemoveUnconfirmedClient(p: nat) returns (rc: Result)
      requires p in clients && clients[p].refcnt > 0 && RecordAlive(p)
      modifies this
      ensures View() == RemoveUnconfirmed(old(View()), p)
      ensures rc == if old(clients[p].key in unconf) then Success else NotFound
    {
      if clients[p].key !in unconf {
        return NotFound;
      }
      unconf := unconf - {clients[p].key};
      if clients[p].record.Some? {
        var r := clients[p].record.v;
        records := records[r := records[r].(unconfirmed := None)];
      }
      Unlink(p);
      return Success;
    }

    method RemoveConfirmedClient(p: nat) returns (rc: Result)
      requires p in clients && clients[p].refcnt > 0 && RecordAlive(p)
      modifies this
      ensures View() == RemoveConfirmed(old(View()), p)
      ensures rc == if old(clients[p].key in conf) then Success else NotFound
    {
      if clients[p].key !in conf {
        return NotFound;
      }
      conf := conf - {clients[p].key};
      if clients[p].record.Some? {
        var r := clients[p].record.v;
        records := records[r := records[r].(confirmed := None)];
      }
      Unlink(p);
      return Success;
    }

    // The record part of an expire.
    method Decouple(p: nat)
      requires p in clients && RecordAlive(p)
      modifies this
      ensures View() == Decoupled(old(View()), p)
    {
      var record := clients[p].record;
      clients := clients[p := clients[p].(record := None)];
      if record.Some? {
        var r := record.v;
        if records[r].confirmed == Some(p) {
          records := records[r := records[r].(confirmed := None)];
        }
        if records[r].unconfirmed == Some(p) {
          records := records[r := records[r].(unconfirmed := None)];
        }
        DecRecordRef(r);
      }
    }

    // False: somebody expired it before.
    method MarkExpired(p: nat, stale: bool) returns (marked: bool)
      requires p in clients && RecordAlive(p)
      modifies this
      ensures View() == Mark(old(View()), p, stale)
      ensures marked <==> !old(clients[p].status.Expired?)
    {
      if clients[p].status.Expired? {
        return false;
      }
      var table := ExpireTable(clients[p].status);
      Decouple(p);
      if stale {
        clients := clients[p := clients[p].(status := Stale)];
      } else {
        clients := clients[p := clients[p].(status := Expired, dying := table)];
      }
      return true;
    }

    // Unhash; the table's reference is now the caller's to give up.
    method FinishExpire(p: nat)
      requires CanUnhash(View(), p) && UnhashFinds(View(), p)
      modifies this
      ensures View() == Unhash(old(View()), p)
    {
      if clients[p].dying.InConf? {
        conf := conf - {clients[p].key};
      } else {
        unconf := unconf - {clients[p].key};
      }
      clients := clients[p := clients[p].(dying := Nowhere, place := Nowhere, held := clients[p].held + 1)];
    }

    method PutClient(p: nat)
      requires CanPut(View(), p) && RecordAlive(p)
      modifies this
      ensures View() == Put(old(View()), p)
    {
      clients := clients[p := clients[p].(held := clients[p].held - 1)];
      DecClientRef(p);
    }

    method GetClient(place: Place, key: nat, epoch: nat) returns (answer: Answer)
      requires key in Table(View(), place) ==> Table(View(), place)[key] in clients
      modifies this
      ensures View() == Get(old(View()), place, key, epoch)
      ensures answer == GetAnswer(old(View()), place, key, epoch)
    {
      if key / HALF != epoch % HALF {
        return StaleId;
      }
      var table := if place.InConf? then conf else unconf;
      if key !in table {
        return ExpiredId;
      }
      var p := table[key];
      var before := clients[p];
      clients := clients[p := before.(refcnt := before.refcnt + 1, held := before.held + 1)];
      if before.status.Stale? {
        clients := clients[p := before];
        assert clients == old(clients);
        return StaleId;
      }
      return Found(p);
    }
  }
}
