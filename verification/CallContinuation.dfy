/** Calls of the durable store's code as stretches of a run. */
module CallContinuation {
  import opened Text
  import opened Calendar
  import opened Transactions
  import opened Fingerprints
  import opened Rows
  import opened MemoryStore
  import opened Outbox
  import opened Protocol
  import opened IngestProofs
  import opened Guarantees
  import opened Continuation
  import opened PostgresStore

  predicate Takes(s: System, a: Action, t: System) {
    Enabled(s, a) && t == Step(s, a)
  }

  /** The call that the next submission makes. */
  function Next(s: System): nat {
    |s.calls.submitted|
  }

  /** The calls once that submission has come, and its transaction got so far. */
  function Calling(s: System, tx: Transaction, phase: Phase, eventIds: set<Uuid>): Calls {
    s.calls.(submitted := s.calls.submitted + [Submitted(tx, |s.calls.history|)],
             open := s.calls.open[Next(s) := Open(s.clock, phase)],
             transactionIds := s.calls.transactionIds + {tx.id}, eventIds := eventIds)
  }

  /** What the call needs: an acceptable transaction, unused ids, and a key on which
      no other call makes it wait. */
  predicate Callable(s: System, tx: Transaction, eventId: Uuid) {
    && CanStep(s) && Acceptable(tx) && tx.id !in s.calls.transactionIds && eventId !in s.calls.eventIds
    && KeyIsFree(s.calls, KeyOfTransaction(tx))
  }

  // ---- the steps ----

  lemma Begins(s: System, tx: Transaction, eventId: Uuid) returns (t: System)
    requires Callable(s, tx, eventId)
    ensures Takes(s, Begin(tx), t) && t == s.(calls := Calling(s, tx, Begun, s.calls.eventIds))
  {
    hide Acceptable, KeyOfTransaction;
    t := Step(s, Begin(tx));
  }

  lemma InsertTaken(s: System, t: System, tx: Transaction, eventId: Uuid) returns (u: System)
    requires Callable(s, tx, eventId) && t == s.(calls := Calling(s, tx, Begun, s.calls.eventIds))
    requires Next(s) !in s.calls.replies
    ensures Takes(t, Insert(Next(s)), u) && u == t.(calls := InsertRow(t, Next(s)))
  {
    hide Acceptable, KeyOfTransaction, Fits, EncodeRow, InsertRow;
    assert t.calls.submitted[Next(s)].tx == tx;
    StillFree(s, t, tx, eventId);
    u := Step(t, Insert(Next(s)));
  }

  lemma StillFree(s: System, t: System, tx: Transaction, eventId: Uuid)
    requires Callable(s, tx, eventId) && t == s.(calls := Calling(s, tx, Begun, s.calls.eventIds))
    ensures CallsNumbered(t.calls) && KeyIsFree(t.calls, KeyOfTransaction(tx))
  {
    hide Acceptable, KeyOfTransaction;
    forall c <- t.calls.open
      ensures c < |t.calls.submitted| && !Holds(t.calls, c, KeyOfTransaction(tx))
    {
      assert c != Next(s) ==> !Holds(s.calls, c, KeyOfTransaction(tx));
    }
  }

  lemma InsertOutcome(s: System, t: System, tx: Transaction)
    requires t == s.(calls := Calling(s, tx, Begun, s.calls.eventIds))
    ensures InsertRow(t, Next(s)) ==
      if !Fits(EncodeRow(tx)) then Finish(t.calls, Next(s), Errored(Refused))
      else if KeyOfTransaction(tx) in s.db.transactions then Calling(s, tx, Conflicted, s.calls.eventIds)
      else Calling(s, tx, Inserted(EncodeRow(tx)), s.calls.eventIds)
  {
    hide KeyOfTransaction, Fits, EncodeRow;
  }

  /** A call answered: what its caller was told, and whether it took effect, the tables
      and the memory then holding what the code leaves there. */
  predicate Ended(s: System, t: System, tx: Transaction, eventId: Uuid, answer: Answer, effective: bool)
    requires s.calls.memory.byKey.Keys == s.calls.memory.fingerprints.Keys
  {
    && t.relays == s.relays && t.clock == s.clock && t.calls.open == s.calls.open
    && Next(s) in t.calls.replies && t.calls.replies[Next(s)].answer == answer
    && t.calls.memory == (if effective then Ingest(s.calls.memory, tx).0 else s.calls.memory)
    && if effective && KeyOfTransaction(tx) !in s.db.transactions then
         && NewTransactionReceived(tx, eventId).Some?
         && t.db.transactions == s.db.transactions[KeyOfTransaction(tx) := EncodeRow(tx)]
         && t.db.events == s.db.events[s.db.nextSerial :=
              EventRow(NewTransactionReceived(tx, eventId).value, None, 0, None, s.clock)]
       else t.db.transactions == s.db.transactions && t.db.events == s.db.events
  }

  /** The call is at the given point, and nothing but a serial has been used up. */
  predicate During(s: System, t: System, tx: Transaction, phase: Phase, eventIds: set<Uuid>) {
    && t.calls == Calling(s, tx, phase, eventIds) && t.relays == s.relays && t.clock == s.clock
    && t.db.transactions == s.db.transactions && t.db.events == s.db.events
    && CanStep(s) && Next(s) !in s.calls.replies
  }

  /** Ending the transaction gives the caller its answer and leaves the rest. */
  lemma FinishEnds(s: System, t: System, tx: Transaction, eventId: Uuid, phase: Phase, eventIds: set<Uuid>)
    requires During(s, t, tx, phase, eventIds)
    ensures Ended(s, t.(calls := Finish(t.calls, Next(s), Errored(Refused))), tx, eventId, Errored(Refused), false)
  {
    hide KeyOfTransaction, EncodeRow, NewTransactionReceived, Ingest;
    assert t.calls.open - {Next(s)} == s.calls.open;
  }

  /** A statement fails, or the session, and the transaction is rolled back. */
  lemma RollsBack(s: System, t: System, tx: Transaction, eventId: Uuid, phase: Phase, eventIds: set<Uuid>)
    returns (u: System)
    requires During(s, t, tx, phase, eventIds)
    ensures Takes(t, Rollback(Next(s)), u) && Ended(s, u, tx, eventId, Errored(Refused), false)
  {
    FinishEnds(s, t, tx, eventId, phase, eventIds);
    hide Ended, Finish;
    u := Step(t, Rollback(Next(s)));
  }

  // ---- a key that is there already ----

  lemma SelectTaken(t: System, c: nat)
    requires CanStep(t) && Live(t.calls, c) && t.calls.open[c].phase.Conflicted?
    ensures Enabled(t, Select(c)) && Step(t, Select(c)) == t.(calls := SelectExisting(t, c))
  {
    hide SelectExisting;
  }

  lemma DuringSelects(s: System, t: System, tx: Transaction)
    requires During(s, t, tx, Conflicted, s.calls.eventIds)
    ensures CanStep(t) && Selecting(t, Next(s)) && Live(t.calls, Next(s)) && t.calls.submitted[Next(s)].tx == tx
    ensures t.calls.memory == s.calls.memory
  {
  }

  /** The read-back, as the in-memory store answers. */
  lemma ReadsBack(s: System, t: System, tx: Transaction) returns (u: System)
    requires During(s, t, tx, Conflicted, s.calls.eventIds)
    requires Mirrors(t.db.transactions, t.calls.memory) && PhasesOk(t.db, t.calls)
    ensures Takes(t, Select(Next(s)), u)
    ensures Ingest(s.calls.memory, tx).0 == s.calls.memory
    ensures u == t.(calls :=
      At(Linearize(t.calls, Next(s)), Next(s), Found(Returned(Ingest(s.calls.memory, tx).1))))
  {
    hide KeyOfTransaction, Ingest, SelectExisting, Returned, Mirrors, PhasesOk, During, Enabled, Step;
    DuringSelects(s, t, tx);
    SelectTaken(t, Next(s));
    SelectFinds(t, Next(s));
    u := Step(t, Select(Next(s)));
  }

  lemma Parts(db: Database, g: Calls)
    requires CallsOk(db, g)
    ensures Mirrors(db.transactions, g.memory) && PhasesOk(db, g) && forall c <- g.replies :: c < |g.submitted|
  {
    hide Mirrors, HistoryOk, SubmittedOk, IdsOk, PhasesOk, LocksOk, EventsOk, OneEventEach, QueuedAreFresh;
  }

  /** Where the record was there already, the call ends alike whether it counts or not. */
  predicate WasThere(s: System, u: System, tx: Transaction, outcome: IngestOutcome) {
    && CanStep(s) && KeyOfTransaction(tx) in s.db.transactions && Ingest(s.calls.memory, tx).0 == s.calls.memory
    && u.relays == s.relays && u.clock == s.clock && u.db == s.db && CanStep(u)
    && u.calls.memory == s.calls.memory && u.calls.replies == s.calls.replies && Next(s) !in s.calls.replies
    && Next(s) in u.calls.open && u.calls.open[Next(s)].phase == Found(outcome)
    && Next(s) < |u.calls.submitted| && u.calls.open - {Next(s)} == s.calls.open
  }

  lemma ReadBackWasThere(s: System, t: System, u: System, tx: Transaction)
    requires During(s, t, tx, Conflicted, s.calls.eventIds) && t.db == s.db
    requires KeyOfTransaction(tx) in s.db.transactions && Ingest(s.calls.memory, tx).0 == s.calls.memory
    requires u == t.(calls :=
      At(Linearize(t.calls, Next(s)), Next(s), Found(Returned(Ingest(s.calls.memory, tx).1))))
    ensures WasThere(s, u, tx, Returned(Ingest(s.calls.memory, tx).1))
  {
    hide KeyOfTransaction, Ingest, Returned;
    assert u.calls.open - {Next(s)} == s.calls.open;
  }

  /** The read-only transaction commits, or fails to. */
  lemma ReadBackEnds(
    s: System, u: System, tx: Transaction, eventId: Uuid, outcome: IngestOutcome, fails: bool, effective: bool)
    returns (a: Action, v: System)
    requires WasThere(s, u, tx, outcome)
    ensures Takes(u, a, v)
    ensures Ended(s, v, tx, eventId, if fails then Errored(Refused) else Answered(outcome), effective)
  {
    hide KeyOfTransaction, Ingest, EncodeRow, NewTransactionReceived;
    a := if fails then Rollback(Next(s)) else Commit(Next(s));
    v := Step(u, a);
  }

  // ---- a new key ----

  function NewRow(s: System, tx: Transaction, eventId: Uuid): EventRow
    requires NewTransactionReceived(tx, eventId).Some?
  {
    EventRow(NewTransactionReceived(tx, eventId).value, None, 0, None, s.clock)
  }

  /** The phase of a call that has written both. */
  function NewPhase(s: System, tx: Transaction, eventId: Uuid): Phase
    requires NewTransactionReceived(tx, eventId).Some?
  {
    Queued(EncodeRow(tx), s.db.nextSerial, NewRow(s, tx, eventId))
  }

  lemma QueueTaken(t: System, c: nat, eventId: Uuid)
    requires CanStep(t) && Live(t.calls, c) && t.calls.open[c].phase.Inserted? && eventId !in t.calls.eventIds
    ensures Enabled(t, Queue(c, eventId))
    ensures Step(t, Queue(c, eventId)) == t.(db := QueueEvent(t, c, eventId).0, calls := QueueEvent(t, c, eventId).1)
  {
    hide QueueEvent;
  }

  lemma QueueOutcome(s: System, t: System, tx: Transaction, eventId: Uuid)
    requires During(s, t, tx, Inserted(EncodeRow(tx)), s.calls.eventIds) && t.db.nextSerial == s.db.nextSerial
    ensures CanStep(t) && Live(t.calls, Next(s)) && t.calls.open[Next(s)].phase == Inserted(EncodeRow(tx))
    ensures var (db, g) := QueueEvent(t, Next(s), eventId);
      if NewTransactionReceived(tx, eventId).None? then db == t.db && g == Finish(t.calls, Next(s), Errored(Refused))
      else
        && db == t.db.(nextSerial := s.db.nextSerial + 1)
        && g == Calling(s, tx, NewPhase(s, tx, eventId), s.calls.eventIds + {eventId})
  {
    hide KeyOfTransaction, EncodeRow, NewTransactionReceived, Finish;
  }

  lemma QueuesEvent(s: System, t: System, tx: Transaction, eventId: Uuid) returns (u: System)
    requires During(s, t, tx, Inserted(EncodeRow(tx)), s.calls.eventIds) && eventId !in s.calls.eventIds
    requires t.db.nextSerial == s.db.nextSerial
    ensures Takes(t, Queue(Next(s), eventId), u)
    ensures NewTransactionReceived(tx, eventId).None? ==> Ended(s, u, tx, eventId, Errored(Refused), false)
    ensures NewTransactionReceived(tx, eventId).Some? ==>
      During(s, u, tx, NewPhase(s, tx, eventId), s.calls.eventIds + {eventId})
  {
    FinishEnds(s, t, tx, eventId, Inserted(EncodeRow(tx)), s.calls.eventIds);
    QueueOutcome(s, t, tx, eventId);
    QueueTaken(t, Next(s), eventId);
    hide KeyOfTransaction, EncodeRow, NewTransactionReceived, Ended, Finish, QueueEvent, Enabled, Step;
    u := Step(t, Queue(Next(s), eventId));
  }

  /** Row and event become visible; the caller may hear so, or only of an error. */
  lemma CommitsNew(s: System, u: System, tx: Transaction, eventId: Uuid) returns (v: System)
    requires NewTransactionReceived(tx, eventId).Some?
    requires During(s, u, tx, NewPhase(s, tx, eventId), s.calls.eventIds + {eventId})
    requires KeyOfTransaction(tx) !in s.db.transactions
    ensures Takes(u, Commit(Next(s)), v)
    ensures Ended(s, v, tx, eventId, Answered(IngestOutcome(tx, false, false)), true)
  {
    hide KeyOfTransaction, EncodeRow, NewTransactionReceived, Ingest;
    v := Step(u, Commit(Next(s)));
    assert v.calls.open == s.calls.open;
  }

  lemma CommitsUnheard(s: System, u: System, tx: Transaction, eventId: Uuid) returns (v: System, w: System)
    requires NewTransactionReceived(tx, eventId).Some?
    requires During(s, u, tx, NewPhase(s, tx, eventId), s.calls.eventIds + {eventId})
    requires KeyOfTransaction(tx) !in s.db.transactions
    ensures Takes(u, Abandon(Next(s)), v) && Takes(v, Commit(Next(s)), w)
    ensures Ended(s, w, tx, eventId, Errored(Refused), true)
  {
    hide KeyOfTransaction, EncodeRow, NewTransactionReceived, Ingest;
    v := Step(u, Abandon(Next(s)));
    w := Step(v, Commit(Next(s)));
    assert w.calls.open == s.calls.open;
  }

  // ---- the whole call ----

  /** What the code of a call leaves behind, for given faults. */
  predicate Done(s: System, t: System, tx: Transaction, eventId: Uuid, faults: Faults)
    requires s.calls.memory.byKey.Keys == s.calls.memory.fingerprints.Keys
  {
    var (m, effective) := (s.calls.memory, Effective(s.calls.memory, tx, faults));
    Ended(s, t, tx, eventId,
      if effective && !faults.commit then Answered(Returned(Ingest(m, tx).1)) else Errored(Refused), effective)
  }

  /** The actions can be taken one after another, from s through the given states. */
  predicate Path(s: System, actions: seq<Action>, states: seq<System>)
    decreases |actions|
  {
    && |actions| == |states| != 0 && Takes(s, actions[0], states[0])
    && (|actions| == 1 || Path(states[0], actions[1..], states[1..]))
  }

  lemma PathHead(s: System, actions: seq<Action>, states: seq<System>)
    requires Path(s, actions, states)
    ensures Takes(s, actions[0], states[0])
    ensures |actions| > 1 ==> Path(states[0], actions[1..], states[1..]) && Last(states[1..]) == Last(states)
  {
    hide Takes;
  }

  /** A call that has no effect is done when its caller was refused. */
  lemma RefusedIsDone(s: System, t: System, tx: Transaction, eventId: Uuid, faults: Faults)
    requires CanStep(s) && !Effective(s.calls.memory, tx, faults)
    requires Ended(s, t, tx, eventId, Errored(Refused), false)
    ensures Done(s, t, tx, eventId, faults)
  {
    hide Ended, Effective, CanStep, Ingest, Returned;
    assert s.calls.memory.byKey.Keys == s.calls.memory.fingerprints.Keys by {
      CanStepKeys(s);
    }
  }

  lemma CanStepKeys(s: System)
    requires CanStep(s)
    ensures s.calls.memory.byKey.Keys == s.calls.memory.fingerprints.Keys
  {
  }

  lemma OneStep(s: System, a: Action, t: System)
    requires Takes(s, a, t)
    ensures Path(s, [a], [t])
  {
    hide Takes;
  }

  lemma StepThenPath(s: System, a: Action, t: System, actions: seq<Action>, states: seq<System>)
    requires Takes(s, a, t) && Path(t, actions, states)
    ensures Path(s, [a] + actions, [t] + states) && Last([t] + states) == Last(states)
  {
    hide Takes;
    assert ([a] + actions)[1..] == actions && ([t] + states)[1..] == states;
  }

  lemma ReadBackIsEffective(s: System, tx: Transaction, faults: Faults)
    requires KeyOfTransaction(tx) in s.calls.memory.byKey
    requires !faults.begin && !faults.insert && Fits(EncodeRow(tx))
    ensures Effective(s.calls.memory, tx, faults) <==> !faults.read && (!faults.commit || faults.applied)
  {
    hide Fits, EncodeRow, KeyOfTransaction;
  }

  lemma NewKeyIsEffective(s: System, tx: Transaction, eventId: Uuid, faults: Faults)
    requires KeyOfTransaction(tx) !in s.calls.memory.byKey
    requires !faults.begin && !faults.insert && Fits(EncodeRow(tx))
    ensures Effective(s.calls.memory, tx, faults) <==>
      !faults.queue && NewTransactionReceived(tx, eventId).Some? && (!faults.commit || faults.applied)
  {
    BuildableIffInRange(tx, eventId);
    hide Fits, EncodeRow, KeyOfTransaction, NewTransactionReceived, InYearRange;
  }

  /** Where the record is there already. */
  lemma ReadBackPath(s: System, t: System, tx: Transaction, eventId: Uuid, faults: Faults)
    returns (actions: seq<Action>, states: seq<System>)
    requires During(s, t, tx, Conflicted, s.calls.eventIds) && t.db == s.db
    requires Mirrors(t.db.transactions, t.calls.memory) && PhasesOk(t.db, t.calls)
    requires KeyOfTransaction(tx) in s.db.transactions && s.db.transactions.Keys == s.calls.memory.byKey.Keys
    requires !faults.begin && !faults.insert && Fits(EncodeRow(tx))
    ensures Path(t, actions, states) && CanStep(s) && Done(s, Last(states), tx, eventId, faults)
  {
    hide Takes, During, Ended, WasThere, Fits, EncodeRow, KeyOfTransaction, Ingest, Returned, Mirrors, PhasesOk;
    hide Path, CanStep, Effective;
    DuringCanStep(s, t, tx, Conflicted, s.calls.eventIds);
    ReadBackIsEffective(s, tx, faults);
    if faults.read {
      var u := RollsBack(s, t, tx, eventId, Conflicted, s.calls.eventIds);
      RefusedIsDone(s, u, tx, eventId, faults);
      OneStep(t, Rollback(Next(s)), u);
      actions, states := [Rollback(Next(s))], [u];
    } else {
      var u := ReadsBack(s, t, tx);
      ReadBackWasThere(s, t, u, tx);
      var outcome, effective := Returned(Ingest(s.calls.memory, tx).1), Effective(s.calls.memory, tx, faults);
      var a, v := ReadBackEnds(s, u, tx, eventId, outcome, faults.commit, effective);
      OneStep(u, a, v);
      StepThenPath(t, Select(Next(s)), u, [a], [v]);
      actions, states := [Select(Next(s))] + [a], [u] + [v];
    }
  }

  lemma DuringCanStep(s: System, t: System, tx: Transaction, phase: Phase, eventIds: set<Uuid>)
    requires During(s, t, tx, phase, eventIds)
    ensures CanStep(s) && s.calls.memory.byKey.Keys == s.calls.memory.fingerprints.Keys
  {
  }

  /** Where the key is new. */
  lemma NewKeyPath(s: System, t: System, tx: Transaction, eventId: Uuid, faults: Faults)
    returns (actions: seq<Action>, states: seq<System>)
    requires During(s, t, tx, Inserted(EncodeRow(tx)), s.calls.eventIds) && eventId !in s.calls.eventIds
    requires t.db.nextSerial == s.db.nextSerial && KeyOfTransaction(tx) !in s.db.transactions
    requires s.db.transactions.Keys == s.calls.memory.byKey.Keys
    requires !faults.begin && !faults.insert && Fits(EncodeRow(tx))
    ensures Path(t, actions, states) && CanStep(s) && Done(s, Last(states), tx, eventId, faults)
  {
    hide Takes, During, Ended, Fits, EncodeRow, KeyOfTransaction, Ingest, Returned, Path, CanStep, Effective;
    hide NewTransactionReceived, NewRow;
    DuringCanStep(s, t, tx, Inserted(EncodeRow(tx)), s.calls.eventIds);
    NewKeyIsFresh(s.calls.memory, tx);
    NewKeyIsEffective(s, tx, eventId, faults);
    if faults.queue {
      var u := RollsBack(s, t, tx, eventId, Inserted(EncodeRow(tx)), s.calls.eventIds);
      RefusedIsDone(s, u, tx, eventId, faults);
      OneStep(t, Rollback(Next(s)), u);
      actions, states := [Rollback(Next(s))], [u];
    } else {
      var queue := Queue(Next(s), eventId);
      var u := QueuesEvent(s, t, tx, eventId);
      if NewTransactionReceived(tx, eventId).None? {
        RefusedIsDone(s, u, tx, eventId, faults);
        OneStep(t, queue, u);
        actions, states := [queue], [u];
      } else {
        var rest, after := QueuedPath(s, u, tx, eventId, faults);
        StepThenPath(t, queue, u, rest, after);
        actions, states := [queue] + rest, [u] + after;
      }
    }
  }

  lemma NewKeyIsFresh(m: Memory, tx: Transaction)
    requires m.byKey.Keys == m.fingerprints.Keys && KeyOfTransaction(tx) !in m.byKey
    ensures Returned(Ingest(m, tx).1) == IngestOutcome(tx, false, false)
  {
    hide Fingerprint, KeyOfTransaction;
  }

  lemma QueuedPath(s: System, u: System, tx: Transaction, eventId: Uuid, faults: Faults)
    returns (actions: seq<Action>, states: seq<System>)
    requires NewTransactionReceived(tx, eventId).Some? && KeyOfTransaction(tx) !in s.db.transactions
    requires During(s, u, tx, NewPhase(s, tx, eventId), s.calls.eventIds + {eventId})
    ensures Path(u, actions, states) && CanStep(s)
    ensures Ended(s, Last(states), tx, eventId,
      if faults.commit then Errored(Refused) else Answered(IngestOutcome(tx, false, false)),
      !faults.commit || faults.applied)
  {
    hide Takes, During, Ended, EncodeRow, KeyOfTransaction, Path, CanStep, NewTransactionReceived, NewRow;
    var phase, ids := NewPhase(s, tx, eventId), s.calls.eventIds + {eventId};
    DuringCanStep(s, u, tx, phase, ids);
    if !faults.commit {
      var v := CommitsNew(s, u, tx, eventId);
      OneStep(u, Commit(Next(s)), v);
      actions, states := [Commit(Next(s))], [v];
    } else if faults.applied {
      var v, w := CommitsUnheard(s, u, tx, eventId);
      OneStep(v, Commit(Next(s)), w);
      StepThenPath(u, Abandon(Next(s)), v, [Commit(Next(s))], [w]);
      actions, states := [Abandon(Next(s))] + [Commit(Next(s))], [v] + [w];
    } else {
      var v := RollsBack(s, u, tx, eventId, phase, ids);
      OneStep(u, Rollback(Next(s)), v);
      actions, states := [Rollback(Next(s))], [v];
    }
  }

  /** A call with the given faults, from the moment it is made. */
  lemma CallPath(s: System, tx: Transaction, eventId: Uuid, faults: Faults)
    returns (actions: seq<Action>, states: seq<System>)
    requires Inv(s) && Callable(s, tx, eventId)
    ensures Path(s, actions, states) && CanStep(s) && Done(s, Last(states), tx, eventId, faults)
  {
    var t := Begins(s, tx, eventId);
    InvParts(s);
    BegunIsDuring(s, t, tx, eventId);
    NothingIsEffective(s, tx, faults);
    hide Takes, During, Ended, Fits, EncodeRow, KeyOfTransaction, Path, CanStep, Callable, Inv, Mirrors, PhasesOk;
    hide Calling;
    hide Done, Effective, InsertRow;
    DuringCanStep(s, t, tx, Begun, s.calls.eventIds);
    if faults.begin || faults.insert {
      var u := RollsBack(s, t, tx, eventId, Begun, s.calls.eventIds);
      RefusedIsDone(s, u, tx, eventId, faults);
      OneStep(t, Rollback(Next(s)), u);
      StepThenPath(s, Begin(tx), t, [Rollback(Next(s))], [u]);
      actions, states := [Begin(tx)] + [Rollback(Next(s))], [t] + [u];
    } else {
      var insert := Insert(Next(s));
      var u := InsertTaken(s, t, tx, eventId);
      InsertOutcome(s, t, tx);
      if !Fits(EncodeRow(tx)) {
        FinishEnds(s, t, tx, eventId, Begun, s.calls.eventIds);
        RefusedIsDone(s, u, tx, eventId, faults);
        OneStep(t, insert, u);
        StepThenPath(s, Begin(tx), t, [insert], [u]);
        actions, states := [Begin(tx)] + [insert], [t] + [u];
      } else {
        var rest, after := InsertedPath(s, t, u, tx, eventId, faults);
        StepThenPath(t, insert, u, rest, after);
        StepThenPath(s, Begin(tx), t, [insert] + rest, [u] + after);
        actions, states := [Begin(tx)] + ([insert] + rest), [t] + ([u] + after);
      }
    }
  }

  lemma NothingIsEffective(s: System, tx: Transaction, faults: Faults)
    ensures faults.begin || faults.insert || !Fits(EncodeRow(tx)) ==> !Effective(s.calls.memory, tx, faults)
  {
    hide Fits, EncodeRow, KeyOfTransaction;
  }

  lemma InsertedPath(s: System, t: System, u: System, tx: Transaction, eventId: Uuid, faults: Faults)
    returns (actions: seq<Action>, states: seq<System>)
    requires Inv(s) && Callable(s, tx, eventId) && Takes(s, Begin(tx), t) && Takes(t, Insert(Next(s)), u)
    requires t == s.(calls := Calling(s, tx, Begun, s.calls.eventIds)) && Next(s) !in s.calls.replies
    requires !faults.begin && !faults.insert && Fits(EncodeRow(tx))
    requires u == t.(calls := if KeyOfTransaction(tx) in s.db.transactions
      then Calling(s, tx, Conflicted, s.calls.eventIds) else Calling(s, tx, Inserted(EncodeRow(tx)), s.calls.eventIds))
    ensures Path(u, actions, states) && CanStep(s) && Done(s, Last(states), tx, eventId, faults)
  {
    hide Fits, EncodeRow, KeyOfTransaction, Path, Inv, Mirrors, PhasesOk, Ended, Enabled, Step;
    StepKeeps(s, Begin(tx));
    StepKeeps(t, Insert(Next(s)));
    InvParts(s);
    InvParts(u);
    if KeyOfTransaction(tx) in s.db.transactions {
      actions, states := ReadBackPath(s, u, tx, eventId, faults);
    } else {
      actions, states := NewKeyPath(s, u, tx, eventId, faults);
    }
  }

  lemma BegunIsDuring(s: System, t: System, tx: Transaction, eventId: Uuid)
    requires Callable(s, tx, eventId) && t == s.(calls := Calling(s, tx, Begun, s.calls.eventIds))
    requires Next(s) !in s.calls.replies
    ensures During(s, t, tx, Begun, s.calls.eventIds)
  {
    hide Acceptable, KeyIsFree, KeyOfTransaction;
  }

  lemma InvParts(s: System)
    requires Inv(s)
    ensures Mirrors(s.db.transactions, s.calls.memory) && PhasesOk(s.db, s.calls)
    ensures s.db.transactions.Keys == s.calls.memory.byKey.Keys && Next(s) !in s.calls.replies
  {
    Parts(s.db, s.calls);
    hide CallsOk, PhasesOk, EncodeRow, Acceptable, Fingerprint, KeyOfTransaction;
  }

  /** Any run goes on with a call of the code: for every choice of faults there is a
      stretch that answers the caller, and leaves tables and memory, as
      `Store.IngestOne` does. */
  lemma RunGoesOnWithACall(
    states: seq<System>, actions: seq<Action>, tx: Transaction, eventId: Uuid, faults: Faults)
    returns (states': seq<System>, actions': seq<Action>)
    requires IsRun(states, actions) && Callable(Last(states), tx, eventId)
    ensures GoesOn(states, actions, states', actions') && CanStep(Last(states))
    ensures Done(Last(states), Last(states'), tx, eventId, faults)
  {
    EveryStateKeeps(states, actions, |states| - 1);
    RunStarts(states, actions);
    hide IsRun, Inv, Callable, Done, Path, CanStep;
    var taken, passed := CallPath(Last(states), tx, eventId, faults);
    states', actions' := GoesAlong(states, actions, states, actions, taken, passed);
  }

  lemma GoesAlong(
    states: seq<System>, actions: seq<Action>, states': seq<System>, actions': seq<Action>,
    taken: seq<Action>, passed: seq<System>)
    returns (states'': seq<System>, actions'': seq<Action>)
    requires GoesOn(states, actions, states', actions') && Path(Last(states'), taken, passed)
    ensures GoesOn(states, actions, states'', actions'') && Last(states'') == Last(passed)
    decreases |taken|
  {
    hide Enabled, Step, Init;
    PathHead(Last(states'), taken, passed);
    OneMore(states, actions, states', actions', taken[0]);
    states'', actions'' := states' + [passed[0]], actions' + [taken[0]];
    if |taken| > 1 {
      states'', actions'' := GoesAlong(states, actions, states'', actions'', taken[1..], passed[1..]);
    }
  }
}
