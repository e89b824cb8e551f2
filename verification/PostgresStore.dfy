/** Ingest as the durable store runs it: one database transaction a call, against
    tables that hold the rows and their events. */
module PostgresStore {
  import opened Text
  import opened Calendar
  import opened Transactions
  import opened Fingerprints
  import opened Rows
  import opened MemoryStore
  import opened Outbox
  import opened Protocol
  import opened IngestProofs

  /** Which statements of a call fail, and whether a commit reported as failed was
      applied all the same. */
  datatype Faults = Faults(begin: bool, insert: bool, queue: bool, read: bool, commit: bool, applied: bool)

  /** What an open transaction will write when it commits. */
  datatype Writes = Writes(row: TransactionRow, serial: nat, event: EventRow)

  datatype Work = Work(outcome: IngestOutcome, writes: Option<Writes>)

  /** When a call's statements all succeed: none it reaches fails, its row meets the
      constraints, and for a new key its event can be built. */
  predicate Workable(m: Memory, tx: Transaction, faults: Faults) {
    && !faults.insert && Fits(EncodeRow(tx))
    && if KeyOfTransaction(tx) in m.byKey then !faults.read
       else !faults.queue && InYearRange(tx.occurredAt) && InYearRange(tx.receivedAt)
  }

  /** When a call takes effect, whether or not its caller hears so. */
  predicate Effective(m: Memory, tx: Transaction, faults: Faults) {
    !faults.begin && Workable(m, tx, faults) && (!faults.commit || faults.applied)
  }

  /** The tables hold the in-memory store's contents, and one event for each. */
  ghost predicate TablesHold(
    transactions: map<Key, TransactionRow>, events: map<nat, EventRow>, serial: nat, m: Memory, ids: set<Uuid>) {
    Mirrors(transactions, m) && EventsOk(events, serial, m, ids) && OneEventEach(events, m)
  }

  /** An event can be built exactly when both its instants are in the years 0 to 9999. */
  lemma BuildableIffInRange(tx: Transaction, eventId: Uuid)
    ensures NewTransactionReceived(tx, eventId).Some? <==> InYearRange(tx.occurredAt) && InYearRange(tx.receivedAt)
  {
    EncodableIffInRange(tx.occurredAt);
    EncodableIffInRange(tx.receivedAt);
    hide Encodable, InYearRange;
  }

  lemma TablesLater(
    transactions: map<Key, TransactionRow>, events: map<nat, EventRow>, serial: nat, m: Memory, ids: set<Uuid>,
    serial': nat, ids': set<Uuid>)
    requires TablesHold(transactions, events, serial, m, ids) && serial <= serial' && ids <= ids'
    ensures TablesHold(transactions, events, serial', m, ids')
  {
    hide NewTransactionReceived, KeyOfEvent, Mirrors, OneEventEach;
  }

  /** Writing the row and its event together keeps the tables a mirror of the
      memory with one event each. */
  lemma CommitKeepsTables(
    transactions: map<Key, TransactionRow>, events: map<nat, EventRow>, serial: nat, nextSerial: nat,
    m: Memory, ids: set<Uuid>, tx: Transaction, eventId: Uuid, event: EventRow)
    requires TablesHold(transactions, events, serial, m, ids)
    requires Acceptable(tx) && KeyOfTransaction(tx) !in m.byKey && eventId !in ids && serial < nextSerial
    requires NewTransactionReceived(tx, eventId) == Some(event.event)
    ensures m.byKey.Keys == m.fingerprints.Keys
    ensures TablesHold(
      transactions[KeyOfTransaction(tx) := EncodeRow(tx)], events[serial := event], nextSerial,
      Ingest(m, tx).0, ids + {eventId})
  {
    EventHasItsId(tx, eventId);
    MirrorsGrow(transactions, m, tx);
    TablesLater(transactions, events, serial, m, ids, nextSerial, ids + {eventId});
    FreshIn(events, serial, m, ids, eventId);
    hide Fingerprint, Acceptable, KeyOfTransaction, KeyOfEvent, Mirrors, EventsOk, OneEventEach, EncodeRow;
    hide NewTransactionReceived;
    EventsGrow(events, nextSerial, m, ids + {eventId}, tx, serial, event, Ingest(m, tx).0);
  }

  lemma FreshIn(events: map<nat, EventRow>, serial: nat, m: Memory, ids: set<Uuid>, eventId: Uuid)
    requires EventsOk(events, serial, m, ids) && eventId !in ids
    ensures serial !in events && forall x :: x in events ==> events[x].event.id != eventId
  {
    hide NewTransactionReceived, KeyOfEvent;
  }

  class Store {
    var transactions: map<Key, TransactionRow>
    var events: map<nat, EventRow>
    var nextSerial: nat
    ghost var memory: Memory
    ghost var eventIds: set<Uuid>

    ghost predicate Valid()
      reads this
    {
      TablesHold(transactions, events, nextSerial, memory, eventIds)
    }

    constructor ()
      ensures Valid() && memory == EMPTY && eventIds == {}
    {
      transactions, events, nextSerial := map[], map[], 0;
      memory, eventIds := EMPTY, {};
    }

    /** Queues the event of a new transaction under a serial of its own. */
    method WriteOutboxEvent(
      tx: Transaction, eventId: Uuid, now: Instant, fails: bool)
      returns (queued: Result<(nat, EventRow), Cause>)
      modifies this`nextSerial
      ensures nextSerial >= old(nextSerial)
      ensures queued.Ok? <==> !fails && NewTransactionReceived(tx, eventId).Some?
      ensures queued.Ok? ==>
        && queued.value.0 == old(nextSerial) < nextSerial
        && queued.value.1 == EventRow(NewTransactionReceived(tx, eventId).value, None, 0, None, now)
      ensures queued.Err? ==> queued.error == Refused
    {
      var event := NewTransactionReceived(tx, eventId);
      if event.None? || fails {
        return Err(Refused);
      }
      queued := Ok((nextSerial, EventRow(event.value, None, 0, None, now)));
      nextSerial := nextSerial + 1;
    }

    /** Inserts the row, or reads back the one its key already has. */
    method IngestInTx(tx: Transaction, eventId: Uuid, now: Instant, faults: Faults) returns (work: Result<Work, Cause>)
      requires Valid() && Acceptable(tx)
      modifies this`nextSerial
      ensures nextSerial >= old(nextSerial)
      ensures work.Ok? <==> Workable(memory, tx, faults)
      ensures work.Err? ==> work.error == Refused
      ensures work.Ok? ==> work.value.outcome == Returned(Ingest(memory, tx).1)
      ensures work.Ok? ==> if KeyOfTransaction(tx) in memory.byKey then work.value.writes == None
        else
          && old(nextSerial) < nextSerial && NewTransactionReceived(tx, eventId).Some?
          && work.value.writes == Some(Writes(EncodeRow(tx), old(nextSerial),
               EventRow(NewTransactionReceived(tx, eventId).value, None, 0, None, now)))
    {
      hide Fingerprint, Acceptable, AsStored, KeyOfTransaction, Fits, EventsOk, OneEventEach, EncodeRow, DecodeRow;
      hide NewTransactionReceived;
      BuildableIffInRange(tx, eventId);
      var key, row, fingerprint := KeyOfTransaction(tx), EncodeRow(tx), Fingerprint(tx);
      if faults.insert || !Fits(row) {
        return Err(Refused);
      }
      if key !in transactions {
        var queued := WriteOutboxEvent(tx, eventId, now, faults.queue);
        if queued.Err? {
          return Err(queued.error);
        }
        return Ok(Work(IngestOutcome(tx, false, false), Some(Writes(row, queued.value.0, queued.value.1))));
      }
      if faults.read {
        return Err(Refused);
      }
      RowRoundTrip(memory.byKey[key]);
      match DecodeRow(transactions[key])
      case Err(_) => return Err(Unreadable);
      case Ok((existing, stored)) => return Ok(Work(IngestOutcome(existing, true, stored != fingerprint), None));
    }

    /** Both rows become visible at once. */
    method Apply(w: Writes, tx: Transaction, eventId: Uuid, ghost used: set<Uuid>)
      requires TablesHold(transactions, events, w.serial, memory, used)
      requires Acceptable(tx) && KeyOfTransaction(tx) !in memory.byKey && w.serial < nextSerial
      requires eventId !in used && eventIds == used + {eventId}
      requires w.row == EncodeRow(tx) && NewTransactionReceived(tx, eventId) == Some(w.event.event)
      modifies this`transactions, this`events, this`memory
      ensures Valid() && old(memory).byKey.Keys == old(memory).fingerprints.Keys && memory == Ingest(old(memory), tx).0
      ensures transactions == old(transactions)[KeyOfTransaction(tx) := w.row]
      ensures events == old(events)[w.serial := w.event]
    {
      hide Fingerprint, Acceptable, KeyOfTransaction, TablesHold, EncodeRow, NewTransactionReceived, Ingest;
      CommitKeepsTables(transactions, events, w.serial, nextSerial, memory, used, tx, eventId, w.event);
      transactions := transactions[KeyOfTransaction(tx) := w.row];
      events := events[w.serial := w.event];
      memory := Ingest(memory, tx).0;
    }

    /** Records the transaction with its event, or returns the one stored under its
        key. A call that fails leaves no trace, unless it failed only in hearing of
        its commit. */
    method IngestOne(tx: Transaction, eventId: Uuid, now: Instant, faults: Faults) returns (answer: Answer)
      requires Valid() && Acceptable(tx) && eventId !in eventIds
      modifies this
      ensures Valid() && eventIds == old(eventIds) + {eventId}
      ensures answer.Answered? <==> Effective(old(memory), tx, faults) && !faults.commit
      ensures answer.Answered? ==> answer.outcome == Returned(Ingest(old(memory), tx).1)
      ensures answer.Errored? ==> answer.cause == Refused
      ensures Effective(old(memory), tx, faults) && KeyOfTransaction(tx) !in old(memory).byKey ==>
        && NewTransactionReceived(tx, eventId).Some?
        && memory == Ingest(old(memory), tx).0
        && transactions == old(transactions)[KeyOfTransaction(tx) := EncodeRow(tx)]
        && events == old(events)[
             old(nextSerial) := EventRow(NewTransactionReceived(tx, eventId).value, None, 0, None, now)]
      ensures !Effective(old(memory), tx, faults) || KeyOfTransaction(tx) in old(memory).byKey ==>
        memory == old(memory) && transactions == old(transactions) && events == old(events)
    {
      hide Fingerprint, Acceptable, AsStored, KeyOfTransaction, Fits, TablesHold, EncodeRow, NewTransactionReceived;
      hide Ingest, Encodable, Returned, Workable;
      ghost var before, used := nextSerial, eventIds;
      TablesLater(transactions, events, before, memory, used, before, used + {eventId});
      eventIds := eventIds + {eventId};
      if faults.begin {
        return Errored(Refused);
      }
      var work := IngestInTx(tx, eventId, now, faults);
      TablesLater(transactions, events, before, memory, used, nextSerial, eventIds);
      if work.Err? {
        return Errored(work.error);
      }
      if (!faults.commit || faults.applied) && work.value.writes.Some? {
        Apply(work.value.writes.value, tx, eventId, used);
      }
      answer := if faults.commit then Errored(Refused) else Answered(work.value.outcome);
    }

    /** The record stored under a key, as its columns give it back. */
    method Get(key: Key) returns (found: Result<Transaction, Cause>)
      requires Valid()
      ensures found == if key in memory.byKey then Ok(AsStored(memory.byKey[key])) else Err(NotFound)
    {
      hide Fingerprint, Acceptable, AsStored, KeyOfTransaction, EncodeRow, DecodeRow, EventsOk, OneEventEach;
      if key !in transactions {
        return Err(NotFound);
      }
      RowRoundTrip(memory.byKey[key]);
      match DecodeRow(transactions[key])
      case Err(_) => return Err(Unreadable);
      case Ok((existing, _)) => return Ok(existing);
    }
  }
}
