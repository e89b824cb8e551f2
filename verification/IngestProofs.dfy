/** What every step keeps about ingest calls: the database mirrors a sequential
    run of the in-memory store, and every transaction has its one event. */
module IngestProofs {
  import opened Text
  import opened Transactions
  import opened Fingerprints
  import opened Rows
  import opened MemoryStore
  import opened Outbox
  import opened Protocol

  // ---- the sequential run ----

  /** What the in-memory calls of a history were given. */
  function Given(h: seq<Linearized>): seq<Transaction> {
    seq(|h|, i requires 0 <= i < |h| => h[i].tx)
  }

  /** The memory after the in-memory calls of a history. */
  function Replay(h: seq<Linearized>): (m: Memory)
    ensures m.byKey.Keys == m.fingerprints.Keys
  {
    IngestAll(Given(h))
  }

  lemma ReplayAdds(h: seq<Linearized>, l: Linearized)
    ensures Replay(h + [l]) == Ingest(Replay(h), l.tx).0
  {
    hide Ingest;
    assert Given(h + [l])[..|h|] == Given(h);
  }

  /** Every outcome in the history is the one the in-memory store gives there. */
  predicate Sequential(h: seq<Linearized>) {
    h == [] || (
      && Sequential(h[..|h| - 1])
      && h[|h| - 1].outcome == Ingest(Replay(h[..|h| - 1]), h[|h| - 1].tx).1)
  }

  /** A duplicate's record comes back through the columns. */
  function Returned(o: IngestOutcome): IngestOutcome {
    if o.duplicate then o.(tx := AsStored(o.tx)) else o
  }

  // ---- invariants ----

  /** The committed rows are the rows of the memory's transactions. */
  predicate Mirrors(rows: map<Key, TransactionRow>, m: Memory) {
    && rows.Keys == m.byKey.Keys == m.fingerprints.Keys
    && forall k <- m.byKey ::
      && Acceptable(m.byKey[k]) && KeyOfTransaction(m.byKey[k]) == k
      && m.fingerprints[k] == Fingerprint(m.byKey[k]) && rows[k] == EncodeRow(m.byKey[k])
  }

  predicate Counted(h: seq<Linearized>, c: nat) {
    exists i :: 0 <= i < |h| && h[i].call == c
  }

  /** Position i of the history is call c, with the outcome the caller gets. */
  predicate CountsAs(h: seq<Linearized>, i: int, c: nat, outcome: IngestOutcome) {
    0 <= i < |h| && h[i].call == c && Returned(h[i].outcome) == outcome
  }

  predicate HistoryOk(submitted: seq<Submitted>, h: seq<Linearized>, m: Memory) {
    && Sequential(h) && m == Replay(h)
    && (forall i :: 0 <= i < |h| ==>
          h[i].call < |submitted| && h[i].tx == submitted[h[i].call].tx && submitted[h[i].call].after <= i)
    && (forall i, j :: 0 <= i < j < |h| ==> h[i].call != h[j].call)
  }

  predicate SubmittedOk(submitted: seq<Submitted>, h: seq<Linearized>) {
    forall c :: 0 <= c < |submitted| ==> Acceptable(submitted[c].tx) && submitted[c].after <= |h|
  }

  /** No two submitted transactions share an identifier. */
  predicate IdsOk(submitted: seq<Submitted>, ids: set<Uuid>) {
    && (forall c :: 0 <= c < |submitted| ==> submitted[c].tx.id in ids)
    && forall c, d :: 0 <= c < d < |submitted| ==> submitted[c].tx.id != submitted[d].tx.id
  }

  /** What is known of a call at each point. */
  ghost predicate PhaseOk(db: Database, g: Calls, c: nat)
    requires c in g.open && c < |g.submitted|
  {
    var tx := g.submitted[c].tx;
    match g.open[c].phase
    case Begun => !Counted(g.history, c)
    case Inserted(row) =>
      !Counted(g.history, c) && row == EncodeRow(tx) && KeyOfTransaction(tx) !in db.transactions
    case Queued(row, serial, event) =>
      && !Counted(g.history, c) && row == EncodeRow(tx) && KeyOfTransaction(tx) !in db.transactions
      && serial < db.nextSerial && serial !in db.events
      && NewTransactionReceived(tx, event.event.id) == Some(event.event) && event.event.id in g.eventIds
      && event.publishedAt.None? && event.attempts == 0 && event.lastError.None?
    case Conflicted => !Counted(g.history, c) && KeyOfTransaction(tx) in db.transactions
    case Found(outcome) => exists i :: CountsAs(g.history, i, c, outcome)
  }

  ghost predicate PhasesOk(db: Database, g: Calls) {
    CallsNumbered(g) && forall c <- g.open :: PhaseOk(db, g, c)
  }

  predicate Holding(o: Open) {
    o.phase.Inserted? || o.phase.Queued?
  }

  /** No two open transactions hold the same key, serial or event id. */
  predicate LocksOk(submitted: seq<Submitted>, open: map<nat, Open>) {
    && (forall c <- open :: c < |submitted|)
    && (forall c <- open, d <- open :: c != d && Holding(open[c]) && Holding(open[d]) ==>
          KeyOfTransaction(submitted[c].tx) != KeyOfTransaction(submitted[d].tx))
    && (forall c <- open, d <- open :: c != d && open[c].phase.Queued? && open[d].phase.Queued? ==>
          && open[c].phase.serial != open[d].phase.serial
          && open[c].phase.event.event.id != open[d].phase.event.event.id)
  }

  ghost predicate ReplyOk(g: Calls, c: nat, reply: Reply) {
    && c < |g.submitted| && reply.upTo <= |g.history|
    && match reply.answer
       case Answered(outcome) => c !in g.open && exists i :: i < reply.upTo && CountsAs(g.history, i, c, outcome)
       case Errored(cause) => cause == Refused
  }

  ghost predicate RepliesOk(g: Calls) {
    forall c <- g.replies :: ReplyOk(g, c, g.replies[c])
  }

  /** The event row with this serial announces the transaction under this key. */
  predicate Announces(events: map<nat, EventRow>, id: nat, k: Key) {
    id in events && KeyOfEvent(events[id].event) == k
  }

  /** Every event is the event of a committed transaction. */
  predicate EventsOk(events: map<nat, EventRow>, nextSerial: nat, m: Memory, eventIds: set<Uuid>) {
    forall id <- events ::
      && id < nextSerial && events[id].event.id in eventIds && KeyOfEvent(events[id].event) in m.byKey
      && NewTransactionReceived(m.byKey[KeyOfEvent(events[id].event)], events[id].event.id) == Some(events[id].event)
  }

  /** Every committed transaction has an event, and no two events share a
      transaction or an event id. */
  ghost predicate OneEventEach(events: map<nat, EventRow>, m: Memory) {
    && (forall k <- m.byKey :: exists id :: Announces(events, id, k))
    && (forall x <- events, y <- events :: x != y ==>
          && KeyOfEvent(events[x].event) != KeyOfEvent(events[y].event)
          && events[x].event.id != events[y].event.id)
  }

  predicate QueuedAreFresh(events: map<nat, EventRow>, open: map<nat, Open>) {
    forall x <- events, c <- open :: open[c].phase.Queued? ==> events[x].event.id != open[c].phase.event.event.id
  }

  ghost predicate CallsOk(db: Database, g: Calls) {
    && Mirrors(db.transactions, g.memory) && HistoryOk(g.submitted, g.history, g.memory)
    && SubmittedOk(g.submitted, g.history) && IdsOk(g.submitted, g.transactionIds)
    && PhasesOk(db, g) && LocksOk(g.submitted, g.open) && RepliesOk(g)
    && EventsOk(db.events, db.nextSerial, g.memory, g.eventIds) && OneEventEach(db.events, g.memory)
    && QueuedAreFresh(db.events, g.open)
  }

  // ---- what leaves another call alone ----

  /** The history only grows, without this call. */
  predicate Extends(h: seq<Linearized>, h': seq<Linearized>, c: nat) {
    h <= h' && forall i :: |h| <= i < |h'| ==> h'[i].call != c
  }

  lemma PhaseStays(db: Database, g: Calls, db': Database, g': Calls, c: nat)
    requires c in g.open && c < |g.submitted| <= |g'.submitted| && g'.submitted[c] == g.submitted[c]
    requires c in g'.open && g'.open[c] == g.open[c]
    requires Extends(g.history, g'.history, c) && g.eventIds <= g'.eventIds
    requires db.nextSerial <= db'.nextSerial && db.transactions.Keys <= db'.transactions.Keys
    requires Holding(g.open[c]) ==> KeyOfTransaction(g.submitted[c].tx) !in db'.transactions.Keys - db.transactions.Keys
    requires g.open[c].phase.Queued? ==> g.open[c].phase.serial !in db'.events.Keys - db.events.Keys
    requires PhaseOk(db, g, c)
    ensures PhaseOk(db', g', c)
  {
    hide EncodeRow, NewTransactionReceived, KeyOfTransaction, Returned;
    if g.open[c].phase.Found? {
      var i :| CountsAs(g.history, i, c, g.open[c].phase.outcome);
      assert CountsAs(g'.history, i, c, g.open[c].phase.outcome);
    }
    if Counted(g'.history, c) {
      var i :| 0 <= i < |g'.history| && g'.history[i].call == c;
      assert g.history[i].call == c;
    }
  }

  lemma RepliesStay(g: Calls, g': Calls)
    requires RepliesOk(g) && |g.submitted| <= |g'.submitted| && g.history <= g'.history
    requires g'.open.Keys - {|g.submitted|} <= g.open.Keys && g'.replies == g.replies
    ensures RepliesOk(g')
  {
    hide Returned;
    forall c <- g'.replies
      ensures ReplyOk(g', c, g'.replies[c])
    {
      assert ReplyOk(g, c, g.replies[c]);
      if g.replies[c].answer.Answered? {
        var i :| i < g.replies[c].upTo && CountsAs(g.history, i, c, g.replies[c].answer.outcome);
        assert CountsAs(g'.history, i, c, g.replies[c].answer.outcome);
      }
    }
  }

  // ---- the steps ----

  lemma FinishKeeps(db: Database, g: Calls, c: nat, answer: Answer)
    requires CallsOk(db, g) && c in g.open
    requires answer == Errored(Refused)
      || (answer.Answered? && exists i :: CountsAs(g.history, i, c, answer.outcome))
    ensures CallsOk(db, Finish(g, c, answer))
  {
    hide Mirrors, HistoryOk, SubmittedOk, EventsOk, OneEventEach, KeyOfTransaction, CountsAs, PhaseOk;
    var after := Finish(g, c, answer);
    forall d <- after.open
      ensures PhaseOk(db, after, d)
    {
      PhaseStays(db, g, db, after, d);
    }
    assert forall d <- g.replies :: ReplyOk(g, d, g.replies[d]) && ReplyOk(after, d, g.replies[d]);
    if c !in g.replies {
      FinishReply(g, c, answer);
    }
  }

  lemma FinishReply(g: Calls, c: nat, answer: Answer)
    requires c in g.open && c < |g.submitted| && c !in g.replies
    requires answer == Errored(Refused)
      || (answer.Answered? && exists i :: CountsAs(g.history, i, c, answer.outcome))
    ensures ReplyOk(Finish(g, c, answer), c, Reply(answer, |g.history|))
  {
    hide Returned;
    if answer.Answered? {
      var i :| CountsAs(g.history, i, c, answer.outcome);
      assert i < |g.history|;
    }
  }

  lemma BeginKeepsRecord(s: System, tx: Transaction)
    requires HistoryOk(s.calls.submitted, s.calls.history, s.calls.memory)
    requires SubmittedOk(s.calls.submitted, s.calls.history) && IdsOk(s.calls.submitted, s.calls.transactionIds)
    requires Acceptable(tx) && tx.id !in s.calls.transactionIds
    ensures var g := BeginCall(s, tx);
      HistoryOk(g.submitted, g.history, g.memory) && SubmittedOk(g.submitted, g.history)
      && IdsOk(g.submitted, g.transactionIds)
  {
    hide Acceptable, Sequential, Replay;
  }

  lemma BeginKeepsLocks(s: System, tx: Transaction)
    requires LocksOk(s.calls.submitted, s.calls.open) && QueuedAreFresh(s.db.events, s.calls.open)
    ensures var g := BeginCall(s, tx);
      LocksOk(g.submitted, g.open) && QueuedAreFresh(s.db.events, g.open)
  {
    hide KeyOfTransaction;
  }

  lemma BeginKeepsPhases(s: System, tx: Transaction)
    requires PhasesOk(s.db, s.calls) && HistoryOk(s.calls.submitted, s.calls.history, s.calls.memory)
    ensures PhasesOk(s.db, BeginCall(s, tx))
  {
    BegunOk(s, tx);
    hide PhaseOk, KeyOfTransaction, HistoryOk;
    forall d <- s.calls.open
      ensures PhaseOk(s.db, BeginCall(s, tx), d)
    {
      PhaseStays(s.db, s.calls, s.db, BeginCall(s, tx), d);
    }
  }

  lemma BeginKeeps(s: System, tx: Transaction)
    requires CallsOk(s.db, s.calls) && Acceptable(tx) && tx.id !in s.calls.transactionIds
    ensures CallsOk(s.db, BeginCall(s, tx))
  {
    hide Mirrors, EventsOk, OneEventEach, HistoryOk, SubmittedOk, IdsOk, PhasesOk, LocksOk, RepliesOk, QueuedAreFresh;
    BeginKeepsRecord(s, tx);
    BeginKeepsLocks(s, tx);
    BeginKeepsPhases(s, tx);
    RepliesStay(s.calls, BeginCall(s, tx));
  }

  lemma BegunOk(s: System, tx: Transaction)
    requires HistoryOk(s.calls.submitted, s.calls.history, s.calls.memory)
    ensures PhaseOk(s.db, BeginCall(s, tx), |s.calls.submitted|)
  {
    hide Sequential, Replay;
  }

  /** Moving one call to another point keeps the phases of the others. */
  lemma AtKeepsPhases(db: Database, g: Calls, db': Database, c: nat, phase: Phase, eventIds: set<Uuid>)
    requires PhasesOk(db, g) && c in g.open && g.eventIds <= eventIds
    requires db'.transactions == db.transactions && db'.events == db.events && db.nextSerial <= db'.nextSerial
    requires PhaseOk(db', At(g, c, phase).(eventIds := eventIds), c)
    ensures PhasesOk(db', At(g, c, phase).(eventIds := eventIds))
  {
    hide PhaseOk, KeyOfTransaction;
    var after := At(g, c, phase).(eventIds := eventIds);
    forall d <- after.open | d != c
      ensures PhaseOk(db', after, d)
    {
      PhaseStays(db, g, db', after, d);
    }
  }

  lemma LocksExtend(submitted: seq<Submitted>, open: map<nat, Open>, c: nat, o: Open)
    requires LocksOk(submitted, open) && c in open
    requires Holding(o) ==> forall d <- open :: d != c && Holding(open[d]) ==>
      KeyOfTransaction(submitted[d].tx) != KeyOfTransaction(submitted[c].tx)
    requires o.phase.Queued? ==> forall d <- open :: d != c && open[d].phase.Queued? ==>
      open[d].phase.serial != o.phase.serial && open[d].phase.event.event.id != o.phase.event.event.id
    ensures LocksOk(submitted, open[c := o])
  {
    hide KeyOfTransaction;
  }

  lemma InsertKeeps(s: System, c: nat)
    requires Enabled(s, Insert(c)) && CallsOk(s.db, s.calls)
    ensures CallsOk(s.db, Step(s, Insert(c)).calls)
  {
    hide Mirrors, HistoryOk, SubmittedOk, EventsOk, OneEventEach, ReplyOk, PhasesOk, LocksOk;
    hide KeyOfTransaction, Fits, EncodeRow;
    var g, tx := s.calls, s.calls.submitted[c].tx;
    if !Fits(EncodeRow(tx)) {
      FinishKeeps(s.db, g, c, Errored(Refused));
    } else {
      InsertKeepsPhases(s, c);
      RepliesStay(g, InsertRow(s, c));
      assert forall d <- g.open :: Holding(g.open[d]) ==> !Holds(g, d, KeyOfTransaction(tx));
      LocksExtend(g.submitted, g.open, c, InsertRow(s, c).open[c]);
    }
  }

  lemma InsertKeepsPhases(s: System, c: nat)
    requires CallsNumbered(s.calls) && c in s.calls.open && s.calls.open[c].phase.Begun? && PhasesOk(s.db, s.calls)
    requires Fits(EncodeRow(s.calls.submitted[c].tx))
    ensures PhasesOk(s.db, InsertRow(s, c))
  {
    hide KeyOfTransaction, Fits, EncodeRow, Counted;
    var g, tx := s.calls, s.calls.submitted[c].tx;
    var phase := if KeyOfTransaction(tx) in s.db.transactions then Conflicted else Inserted(EncodeRow(tx));
    assert InsertRow(s, c) == At(g, c, phase).(eventIds := g.eventIds);
    assert PhaseOk(s.db, g, c);
    AtKeepsPhases(s.db, g, s.db, c, phase, g.eventIds);
  }

  lemma QueueKeeps(s: System, c: nat, eventId: Uuid)
    requires Enabled(s, Queue(c, eventId)) && CallsOk(s.db, s.calls)
    ensures CallsOk(Step(s, Queue(c, eventId)).db, Step(s, Queue(c, eventId)).calls)
  {
    hide Mirrors, HistoryOk, SubmittedOk, OneEventEach, ReplyOk, PhaseOk, LocksOk, EventsOk, QueuedAreFresh;
    hide KeyOfTransaction, KeyOfEvent, EncodeRow, NewTransactionReceived;
    var g, tx := s.calls, s.calls.submitted[c].tx;
    var event := NewTransactionReceived(tx, eventId);
    if event.None? {
      FinishKeeps(s.db, g, c, Errored(Refused));
    } else {
      QueueKeepsPhases(s, c, eventId);
      RepliesStay(g, QueueEvent(s, c, eventId).1);
      QueueKeepsLocks(s, c, eventId);
      QueueKeepsEvents(s, c, eventId);
    }
  }

  /** An inserted row, an event that can be built, and an unused event id. */
  predicate Queueing(s: System, c: nat, eventId: Uuid) {
    && CallsNumbered(s.calls) && c in s.calls.open && s.calls.open[c].phase.Inserted?
    && eventId !in s.calls.eventIds && NewTransactionReceived(s.calls.submitted[c].tx, eventId).Some?
  }

  lemma QueueKeepsPhases(s: System, c: nat, eventId: Uuid)
    requires PhasesOk(s.db, s.calls) && Queueing(s, c, eventId)
    requires EventsOk(s.db.events, s.db.nextSerial, s.calls.memory, s.calls.eventIds)
    ensures PhasesOk(QueueEvent(s, c, eventId).0, QueueEvent(s, c, eventId).1)
  {
    hide KeyOfTransaction, KeyOfEvent, EncodeRow, NewTransactionReceived;
    EventHasItsId(s.calls.submitted[c].tx, eventId);
    var (db, after) := QueueEvent(s, c, eventId);
    assert PhaseOk(s.db, s.calls, c);
    assert after == At(s.calls, c, after.open[c].phase).(eventIds := s.calls.eventIds + {eventId});
    AtKeepsPhases(s.db, s.calls, db, c, after.open[c].phase, s.calls.eventIds + {eventId});
  }

  lemma QueueKeepsLocks(s: System, c: nat, eventId: Uuid)
    requires PhasesOk(s.db, s.calls) && LocksOk(s.calls.submitted, s.calls.open) && Queueing(s, c, eventId)
    ensures LocksOk(QueueEvent(s, c, eventId).1.submitted, QueueEvent(s, c, eventId).1.open)
  {
    EventHasItsId(s.calls.submitted[c].tx, eventId);
    hide KeyOfTransaction, EncodeRow, NewTransactionReceived, PhaseOk;
    var open := s.calls.open;
    forall d <- open | open[d].phase.Queued?
      ensures open[d].phase.serial < s.db.nextSerial && open[d].phase.event.event.id in s.calls.eventIds
    {
      QueuedIsNumbered(s.db, s.calls, d);
    }
    hide PhasesOk;
    LocksExtend(s.calls.submitted, open, c, QueueEvent(s, c, eventId).1.open[c]);
  }

  lemma QueuedIsNumbered(db: Database, g: Calls, c: nat)
    requires PhasesOk(db, g) && c in g.open && g.open[c].phase.Queued?
    ensures g.open[c].phase.serial < db.nextSerial && g.open[c].phase.event.event.id in g.eventIds
  {
    hide KeyOfTransaction, EncodeRow, NewTransactionReceived, Counted;
    assert PhaseOk(db, g, c);
  }

  lemma QueueKeepsEvents(s: System, c: nat, eventId: Uuid)
    requires EventsOk(s.db.events, s.db.nextSerial, s.calls.memory, s.calls.eventIds)
    requires QueuedAreFresh(s.db.events, s.calls.open) && Queueing(s, c, eventId)
    ensures var (db, g) := QueueEvent(s, c, eventId);
      EventsOk(db.events, db.nextSerial, g.memory, g.eventIds) && QueuedAreFresh(db.events, g.open)
  {
    EventHasItsId(s.calls.submitted[c].tx, eventId);
    hide KeyOfTransaction, KeyOfEvent, EncodeRow, NewTransactionReceived;
  }

  lemma EventHasItsId(tx: Transaction, eventId: Uuid)
    requires NewTransactionReceived(tx, eventId).Some?
    ensures NewTransactionReceived(tx, eventId).value.id == eventId
    ensures NewTransactionReceived(tx, eventId).value.aggregateId == tx.id
    ensures KeyOfEvent(NewTransactionReceived(tx, eventId).value) == KeyOfTransaction(tx)
  {
  }

  // ---- the history grows ----

  lemma LinearizeKeepsHistory(g: Calls, c: nat)
    requires HistoryOk(g.submitted, g.history, g.memory) && SubmittedOk(g.submitted, g.history)
    requires c < |g.submitted| && !Counted(g.history, c)
    ensures HistoryOk(g.submitted, Linearize(g, c).history, Linearize(g, c).memory)
    ensures SubmittedOk(g.submitted, Linearize(g, c).history)
    ensures CountsAs(Linearize(g, c).history, |g.history|, c, Returned(Ingest(g.memory, g.submitted[c].tx).1))
  {
    hide Ingest, Returned, Acceptable, Replay;
    var h, h' := g.history, Linearize(g, c).history;
    assert h'[..|h'| - 1] == h;
    ReplayAdds(h, h'[|h|]);
    forall i | 0 <= i < |h|
      ensures h'[i].call != c
    {
      assert h'[i] == h[i];
    }
  }

  lemma RowReadsBack(db: Database, g: Calls, key: Key)
    requires Mirrors(db.transactions, g.memory) && key in db.transactions
    ensures DecodeRow(db.transactions[key]) == Ok((AsStored(g.memory.byKey[key]), g.memory.fingerprints[key]))
  {
    hide EncodeRow, DecodeRow, Fingerprint, Acceptable, KeyOfTransaction, AsStored;
    RowRoundTrip(g.memory.byKey[key]);
  }

  predicate Selecting(s: System, c: nat) {
    && CallsNumbered(s.calls) && c in s.calls.open && s.calls.open[c].phase.Conflicted?
    && s.calls.memory.byKey.Keys == s.calls.memory.fingerprints.Keys
  }

  lemma SelectKeeps(s: System, c: nat)
    requires Enabled(s, Select(c)) && CallsOk(s.db, s.calls)
    ensures CallsOk(s.db, Step(s, Select(c)).calls)
  {
    hide Mirrors, HistoryOk, SubmittedOk, EventsOk, OneEventEach, RepliesOk, PhasesOk, LocksOk, QueuedAreFresh, IdsOk;
    hide KeyOfTransaction, Counted, CountsAs, Returned, Ingest, SelectExisting;
    hide BeginCall, InsertRow, QueueEvent, CommitCall, ClaimRows, PublishNext, MarkCurrent, CommitWrites;
    var g := s.calls;
    SelectFinds(s, c);
    LinearizeKeepsHistory(g, c);
    var after := Step(s, Select(c)).calls;
    SelectPhases(s, c, after);
    RepliesStay(g, after);
    SelectLocks(s.db.events, g, c, after.open[c]);
  }

  lemma SelectLocks(events: map<nat, EventRow>, g: Calls, c: nat, o: Open)
    requires LocksOk(g.submitted, g.open) && QueuedAreFresh(events, g.open) && c in g.open && o.phase.Found?
    ensures LocksOk(g.submitted, g.open[c := o]) && QueuedAreFresh(events, g.open[c := o])
  {
    LocksExtend(g.submitted, g.open, c, o);
    hide LocksOk;
  }

  /** The read-back finds the record, readable, and answers what the in-memory
      store answers, through the columns; the memory does not change. */
  lemma SelectFinds(s: System, c: nat)
    requires Selecting(s, c) && Mirrors(s.db.transactions, s.calls.memory) && PhasesOk(s.db, s.calls)
    ensures !Counted(s.calls.history, c) && Ingest(s.calls.memory, s.calls.submitted[c].tx).1.duplicate
    ensures Linearize(s.calls, c).memory == s.calls.memory
    ensures var outcome := Returned(Ingest(s.calls.memory, s.calls.submitted[c].tx).1);
      SelectExisting(s, c) == At(Linearize(s.calls, c), c, Found(outcome))
  {
    hide DecodeRow, Fingerprint, EncodeRow, Acceptable, AsStored, NewTransactionReceived, Counted, KeyOfTransaction;
    assert PhaseOk(s.db, s.calls, c);
    hide PhaseOk;
    RowReadsBack(s.db, s.calls, KeyOfTransaction(s.calls.submitted[c].tx));
  }

  lemma SelectPhases(s: System, c: nat, after: Calls)
    requires Selecting(s, c) && PhasesOk(s.db, s.calls)
    requires var outcome := Returned(Ingest(s.calls.memory, s.calls.submitted[c].tx).1);
      after == At(Linearize(s.calls, c), c, Found(outcome)) && CountsAs(after.history, |s.calls.history|, c, outcome)
    ensures PhasesOk(s.db, after)
  {
    hide KeyOfTransaction, Ingest, Returned, CountsAs, Counted, EncodeRow, NewTransactionReceived;
    assert PhaseOk(s.db, after, c);
    hide PhaseOk;
    forall d <- after.open | d != c
      ensures PhaseOk(s.db, after, d)
    {
      PhaseStays(s.db, s.calls, s.db, after, d);
    }
  }

  // ---- a commit ----

  lemma CommitKeeps(s: System, c: nat)
    requires Enabled(s, Commit(c)) && CallsOk(s.db, s.calls)
    ensures CallsOk(Step(s, Commit(c)).db, Step(s, Commit(c)).calls)
  {
    hide Mirrors, HistoryOk, SubmittedOk, EventsOk, OneEventEach, LocksOk, QueuedAreFresh, RepliesOk, PhaseOk;
    hide KeyOfTransaction, Ingest, Counted, CountsAs, Returned;
    var g := s.calls;
    if g.open[c].phase.Found? {
      assert exists i :: CountsAs(g.history, i, c, g.open[c].phase.outcome) by {
        FoundCounts(s.db, g, c);
      }
      FinishKeeps(s.db, g, c, Answered(g.open[c].phase.outcome));
    } else {
      QueuedIsUncounted(s.db, g, c);
      LinearizeKeepsHistory(g, c);
      CommitIsFresh(s, c);
      CommitMirrors(s, c);
      CommitEvents(s, c);
      CommitPhases(s, c);
      CommitReplies(s, c);
      CommitLocks(s, c);
    }
  }

  lemma FoundCounts(db: Database, g: Calls, c: nat)
    requires PhasesOk(db, g) && c in g.open && g.open[c].phase.Found?
    ensures exists i :: CountsAs(g.history, i, c, g.open[c].phase.outcome)
  {
    hide CountsAs, Counted;
    assert PhaseOk(db, g, c);
  }

  lemma QueuedIsUncounted(db: Database, g: Calls, c: nat)
    requires PhasesOk(db, g) && c in g.open && g.open[c].phase.Queued?
    ensures !Counted(g.history, c)
  {
    hide Counted, KeyOfTransaction, EncodeRow, NewTransactionReceived;
    assert PhaseOk(db, g, c);
  }

  /** Both rows written, and the event queued. */
  predicate Committing(s: System, c: nat) {
    && CallsNumbered(s.calls) && c in s.calls.open && s.calls.open[c].phase.Queued?
    && s.calls.memory.byKey.Keys == s.calls.memory.fingerprints.Keys
  }

  /** A committed call is fresh to the in-memory store too. */
  lemma CommitIsFresh(s: System, c: nat)
    requires Mirrors(s.db.transactions, s.calls.memory) && PhasesOk(s.db, s.calls) && Committing(s, c)
    ensures var tx := s.calls.submitted[c].tx;
      && Ingest(s.calls.memory, tx).1 == IngestOutcome(tx, false, false)
      && Linearize(s.calls, c).memory == Memory(
           s.calls.memory.byKey[KeyOfTransaction(tx) := tx],
           s.calls.memory.fingerprints[KeyOfTransaction(tx) := Fingerprint(tx)])
  {
    hide EncodeRow, Fingerprint, Acceptable, NewTransactionReceived, KeyOfTransaction;
    assert PhaseOk(s.db, s.calls, c);
  }

  lemma MirrorsGrow(rows: map<Key, TransactionRow>, m: Memory, tx: Transaction)
    requires Mirrors(rows, m) && Acceptable(tx) && KeyOfTransaction(tx) !in rows
    ensures var key := KeyOfTransaction(tx);
      Mirrors(rows[key := EncodeRow(tx)], Memory(m.byKey[key := tx], m.fingerprints[key := Fingerprint(tx)]))
  {
    hide EncodeRow, Fingerprint, Acceptable, KeyOfTransaction;
  }

  lemma CommitMirrors(s: System, c: nat)
    requires Mirrors(s.db.transactions, s.calls.memory)
    requires PhasesOk(s.db, s.calls)
    requires SubmittedOk(s.calls.submitted, s.calls.history)
    requires Committing(s, c)
    ensures Mirrors(CommitCall(s, c).0.transactions, CommitCall(s, c).1.memory)
  {
    CommitIsFresh(s, c);
    CommittingEvent(s, c);
    hide Mirrors, EncodeRow, Fingerprint, Acceptable, NewTransactionReceived, KeyOfTransaction, KeyOfEvent, Ingest;
    hide PhasesOk;
    MirrorsGrow(s.db.transactions, s.calls.memory, s.calls.submitted[c].tx);
  }

  /** The new event under its serial is the event of the new transaction. */
  lemma CommittingEvent(s: System, c: nat)
    requires PhasesOk(s.db, s.calls) && Committing(s, c)
    ensures var tx, row, serial := s.calls.submitted[c].tx, s.calls.open[c].phase.event, s.calls.open[c].phase.serial;
      && NewTransactionReceived(tx, row.event.id) == Some(row.event) && KeyOfEvent(row.event) == KeyOfTransaction(tx)
      && KeyOfTransaction(tx) !in s.db.transactions && serial !in s.db.events && serial < s.db.nextSerial
      && row.event.id in s.calls.eventIds
      && row.publishedAt.None? && row.attempts == 0 && row.lastError.None?
      && s.calls.open[c].phase.row == EncodeRow(tx)
  {
    EventHasItsId(s.calls.submitted[c].tx, s.calls.open[c].phase.event.event.id) by {
      assert PhaseOk(s.db, s.calls, c);
    }
    hide EncodeRow, NewTransactionReceived, KeyOfTransaction, KeyOfEvent, Counted;
    assert PhaseOk(s.db, s.calls, c);
  }

  lemma EventsGrow(events: map<nat, EventRow>, nextSerial: nat, m: Memory, eventIds: set<Uuid>,
                   tx: Transaction, serial: nat, row: EventRow, m': Memory)
    requires EventsOk(events, nextSerial, m, eventIds) && OneEventEach(events, m)
    requires serial < nextSerial && serial !in events && row.event.id in eventIds
    requires KeyOfEvent(row.event) !in m.byKey && NewTransactionReceived(tx, row.event.id) == Some(row.event)
    requires m'.byKey == m.byKey[KeyOfEvent(row.event) := tx]
    requires forall x :: x in events ==> events[x].event.id != row.event.id
    ensures EventsOk(events[serial := row], nextSerial, m', eventIds) && OneEventEach(events[serial := row], m')
  {
    hide NewTransactionReceived, KeyOfEvent;
    AnnouncementsGrow(events, m, serial, row, events[serial := row], tx, m');
    hide Announces;
  }

  lemma AnnouncementsGrow(
    events: map<nat, EventRow>, m: Memory, serial: nat, row: EventRow, after: map<nat, EventRow>, tx: Transaction,
    m': Memory)
    requires OneEventEach(events, m) && serial !in events && after == events[serial := row]
    requires m'.byKey == m.byKey[KeyOfEvent(row.event) := tx]
    ensures forall k <- m'.byKey :: exists id :: Announces(after, id, k)
  {
    hide KeyOfEvent;
    forall k <- m'.byKey
      ensures exists id :: Announces(after, id, k)
    {
      if k == KeyOfEvent(row.event) {
        assert Announces(after, serial, k);
      } else {
        var id :| Announces(events, id, k);
        assert Announces(after, id, k);
      }
    }
  }

  lemma CommitEvents(s: System, c: nat)
    requires Mirrors(s.db.transactions, s.calls.memory) && PhasesOk(s.db, s.calls) && Committing(s, c)
    requires EventsOk(s.db.events, s.db.nextSerial, s.calls.memory, s.calls.eventIds)
    requires OneEventEach(s.db.events, s.calls.memory) && QueuedAreFresh(s.db.events, s.calls.open)
    ensures EventsOk(CommitCall(s, c).0.events, s.db.nextSerial, CommitCall(s, c).1.memory, s.calls.eventIds)
    ensures OneEventEach(CommitCall(s, c).0.events, CommitCall(s, c).1.memory)
  {
    CommitIsFresh(s, c);
    CommittingEvent(s, c);
    assert s.db.transactions.Keys == s.calls.memory.byKey.Keys;
    hide NewTransactionReceived, KeyOfTransaction, KeyOfEvent, EncodeRow, Ingest, Mirrors, PhasesOk, Fingerprint;
    hide EventsOk, OneEventEach;
    var g := s.calls;
    EventsGrow(s.db.events, s.db.nextSerial, g.memory, g.eventIds, g.submitted[c].tx,
               g.open[c].phase.serial, g.open[c].phase.event, Linearize(g, c).memory);
  }

  lemma CommitPhases(s: System, c: nat)
    requires PhasesOk(s.db, s.calls) && LocksOk(s.calls.submitted, s.calls.open) && Committing(s, c)
    ensures PhasesOk(CommitCall(s, c).0, CommitCall(s, c).1)
  {
    hide PhaseOk, KeyOfTransaction, Ingest;
    var (db, g) := CommitCall(s, c);
    forall d <- g.open
      ensures PhaseOk(db, g, d)
    {
      PhaseStays(s.db, s.calls, db, g, d);
    }
  }

  lemma CommitReplies(s: System, c: nat)
    requires RepliesOk(s.calls) && Committing(s, c)
    requires Ingest(s.calls.memory, s.calls.submitted[c].tx).1 == IngestOutcome(s.calls.submitted[c].tx, false, false)
    requires var outcome := Returned(Ingest(s.calls.memory, s.calls.submitted[c].tx).1);
      CountsAs(Linearize(s.calls, c).history, |s.calls.history|, c, outcome)
    ensures RepliesOk(CommitCall(s, c).1)
  {
    var tx := s.calls.submitted[c].tx;
    assert Returned(IngestOutcome(tx, false, false)) == IngestOutcome(tx, false, false);
    hide RepliesOk, Ingest, KeyOfTransaction, CountsAs, Returned;
    var g := Linearize(s.calls, c);
    RepliesStay(s.calls, g);
    RepliesFinish(g, c, Answered(IngestOutcome(tx, false, false)));
  }

  lemma RepliesFinish(g: Calls, c: nat, answer: Answer)
    requires RepliesOk(g) && c in g.open && c < |g.submitted|
    requires answer.Answered? && exists i :: CountsAs(g.history, i, c, answer.outcome)
    ensures RepliesOk(Finish(g, c, answer))
  {
    hide CountsAs;
    var after := Finish(g, c, answer);
    assert forall d <- g.replies :: ReplyOk(g, d, g.replies[d]) && ReplyOk(after, d, g.replies[d]);
    if c !in g.replies {
      FinishReply(g, c, answer);
    }
  }

  lemma CommitLocks(s: System, c: nat)
    requires LocksOk(s.calls.submitted, s.calls.open) && QueuedAreFresh(s.db.events, s.calls.open) && Committing(s, c)
    ensures var (db, g) := CommitCall(s, c);
      LocksOk(g.submitted, g.open) && QueuedAreFresh(db.events, g.open)
  {
    hide KeyOfTransaction, Ingest;
  }

  lemma AbandonKeeps(s: System, c: nat)
    requires CallsOk(s.db, s.calls) && Enabled(s, Abandon(c))
    ensures CallsOk(s.db, Step(s, Abandon(c)).calls)
  {
    hide Mirrors, HistoryOk, SubmittedOk, EventsOk, OneEventEach, LocksOk, QueuedAreFresh, PhaseOk, CountsAs;
    var g, after := s.calls, Step(s, Abandon(c)).calls;
    forall d <- g.open
      ensures PhaseOk(s.db, after, d)
    {
      assert PhaseOk(s.db, g, d);
      PhaseStays(s.db, g, s.db, after, d);
    }
    assert forall d <- g.replies :: ReplyOk(g, d, g.replies[d]) && ReplyOk(after, d, g.replies[d]);
  }

  // ---- what the relay leaves alone ----

  /** The same event rows, but for their delivery bookkeeping. */
  predicate SameEvents(events: map<nat, EventRow>, events': map<nat, EventRow>) {
    events'.Keys == events.Keys && forall id <- events :: events'[id].event == events[id].event
  }

  lemma BookkeepingKeepsCalls(db: Database, db': Database, g: Calls)
    requires CallsOk(db, g) && SameEvents(db.events, db'.events)
    requires db'.transactions == db.transactions && db'.nextSerial == db.nextSerial
    ensures CallsOk(db', g)
  {
    hide Mirrors, HistoryOk, SubmittedOk, LocksOk, RepliesOk, PhasesOk, EventsOk, OneEventEach, QueuedAreFresh;
    BookkeepingKeepsPhases(db, db', g);
    BookkeepingKeepsEvents(db, db', g);
  }

  lemma BookkeepingKeepsPhases(db: Database, db': Database, g: Calls)
    requires PhasesOk(db, g) && SameEvents(db.events, db'.events)
    requires db'.transactions == db.transactions && db'.nextSerial == db.nextSerial
    ensures PhasesOk(db', g)
  {
    hide PhaseOk, KeyOfTransaction;
    forall c <- g.open
      ensures PhaseOk(db', g, c)
    {
      PhaseStays(db, g, db', g, c);
    }
  }

  lemma BookkeepingKeepsEvents(db: Database, db': Database, g: Calls)
    requires EventsOk(db.events, db.nextSerial, g.memory, g.eventIds) && OneEventEach(db.events, g.memory)
    requires QueuedAreFresh(db.events, g.open)
    requires SameEvents(db.events, db'.events) && db'.nextSerial == db.nextSerial
    ensures EventsOk(db'.events, db'.nextSerial, g.memory, g.eventIds) && OneEventEach(db'.events, g.memory)
    ensures QueuedAreFresh(db'.events, g.open)
  {
    hide NewTransactionReceived, KeyOfEvent, OneEventEach;
    BookkeepingKeepsOneEach(db.events, db'.events, g.memory);
  }

  lemma BookkeepingKeepsOneEach(events: map<nat, EventRow>, events': map<nat, EventRow>, m: Memory)
    requires OneEventEach(events, m) && SameEvents(events, events')
    ensures OneEventEach(events', m)
  {
    hide KeyOfEvent;
    forall k <- m.byKey
      ensures exists id :: Announces(events', id, k)
    {
      var id :| Announces(events, id, k);
      assert Announces(events', id, k);
    }
  }
}
