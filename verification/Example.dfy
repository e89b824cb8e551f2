/** One run from a submission to its published event, showing that the steps the
    guarantees are about can all be taken. */
module Example {
  import opened Text
  import opened Calendar
  import opened Transactions
  import opened Fingerprints
  import opened Rows
  import opened MemoryStore
  import opened Outbox
  import opened Protocol
  import opened Accounts = Delivery
  import opened Decimals
  import opened Money
  import opened Validation
  import opened Counterexamples

  /** The system before anything has happened. */
  function Idle(o: RelayOptions, clock: Instant): System {
    System.System(
      Database(map[], map[], 0), clock, Calls([], map[], map[], {}, {}, [], EMPTY),
      Relays(o, map[], map[], 0, {}, {}, [], map[]))
  }

  function EventOf(tx: Transaction, eventId: Uuid): Event
    requires NewTransactionReceived(tx, eventId).Some?
  {
    NewTransactionReceived(tx, eventId).value
  }

  function Row(tx: Transaction, eventId: Uuid, clock: Instant): EventRow
    requires NewTransactionReceived(tx, eventId).Some?
  {
    EventRow(EventOf(tx, eventId), None, 0, None, clock)
  }

  /** The system once the transaction and its event are committed. */
  predicate Stored(s: System, o: RelayOptions, clock: Instant, tx: Transaction, eventId: Uuid)
    requires NewTransactionReceived(tx, eventId).Some?
  {
    && s.db == Database(map[KeyOfTransaction(tx) := EncodeRow(tx)], map[0 := Row(tx, eventId, clock)], 1)
    && s.clock == clock && s.relays == Idle(o, clock).relays
    && s.calls.open == map[] && s.calls.memory.byKey.Keys == s.calls.memory.fingerprints.Keys
    && s.calls.replies.Keys == {0} && s.calls.replies[0].answer == Answered(IngestOutcome(tx, false, false))
  }

  predicate Takes(s: System, a: Action, t: System) {
    Enabled(s, a) && t == Step(s, a)
  }

  lemma Writes(
    o: RelayOptions, clock: Instant, tx: Transaction, eventId: Uuid)
    returns (a: System, b: System, c: System)
    requires Usable(o) && Acceptable(tx) && Fits(EncodeRow(tx)) && NewTransactionReceived(tx, eventId).Some?
    ensures Takes(Idle(o, clock), Begin(tx), a) && Takes(a, Insert(0), b) && Takes(b, Queue(0, eventId), c)
    ensures c.db == Database(map[], map[], 1) && c.clock == clock && c.relays == Idle(o, clock).relays
    ensures c.calls.submitted == [Submitted(tx, 0)]
    ensures c.calls.replies == map[]
    ensures c.calls.memory == EMPTY
    ensures c.calls.history == []
    ensures c.calls.open == map[0 := Open(clock, Queued(EncodeRow(tx), 0, Row(tx, eventId, clock)))]
  {
    hide Acceptable, Fits, EncodeRow, NewTransactionReceived, KeyOfTransaction, Usable;
    var s := Idle(o, clock);
    a := Step(s, Begin(tx));
    assert a.calls.submitted == [Submitted(tx, 0)] && a.calls.open == map[0 := Open(clock, Begun)];
    b := Step(a, Insert(0));
    assert b.calls.open == map[0 := Open(clock, Inserted(EncodeRow(tx)))];
    c := Step(b, Queue(0, eventId));
  }

  lemma Commits(c: System, o: RelayOptions, clock: Instant, tx: Transaction, eventId: Uuid) returns (t: System)
    requires Usable(o) && NewTransactionReceived(tx, eventId).Some?
    requires c.db == Database(map[], map[], 1) && c.clock == clock && c.relays == Idle(o, clock).relays
    requires c.calls.submitted == [Submitted(tx, 0)]
    requires c.calls.replies == map[]
    requires c.calls.memory == EMPTY
    requires c.calls.history == []
    requires c.calls.open == map[0 := Open(clock, Queued(EncodeRow(tx), 0, Row(tx, eventId, clock)))]
    ensures Takes(c, Commit(0), t) && Stored(t, o, clock, tx, eventId)
  {
    hide EncodeRow, NewTransactionReceived, KeyOfTransaction, Usable, Fingerprint, Row;
    t := Step(c, Commit(0));
    assert t.calls.open == map[];
  }

  lemma ClaimsOne(row: EventRow, now: Instant, limit: nat)
    requires Due(row, now) && limit > 0
    ensures ClaimFrom(map[0 := row], {}, now, 0, 1, limit) == [0]
  {
    assert ClaimFrom(map[0 := row], {}, now, 1, 1, limit - 1) == [];
  }

  /** Relays at work on the one row. */
  function Working(
    o: RelayOptions, passes: map<nat, Pass>, gone: map<nat, Pass>, next: nat, log: seq<Delivery>): Relays
  {
    Relays(o, passes, gone, next, {}, {}, log, map[])
  }

  /** The one row is in the table, and no call is open. */
  predicate OneRow(s: System, row: EventRow) {
    && s.db.events == map[0 := row] && s.db.nextSerial == 1
    && s.calls.open == map[] && s.calls.memory.byKey.Keys == s.calls.memory.fingerprints.Keys
  }

  /** A pass that has claimed the one row and done nothing yet. */
  function Claimed(row: EventRow, start: Instant): Pass {
    Pass.Pass(start, Ready, [0], map[0 := row], 0, {}, map[], map[])
  }

  lemma Claims(s: System, o: RelayOptions, row: EventRow, gone: map<nat, Pass>, p: nat, log: seq<Delivery>)
    returns (a: System, b: System)
    requires Usable(o) && OneRow(s, row) && Due(row, s.clock) && s.relays == Working(o, map[], gone, p, log)
    ensures Takes(s, BeginPass, a) && Takes(a, Claim(p), b)
    ensures b == s.(relays := Working(o, map[p := Claimed(row, s.clock)], gone, p + 1, log))
  {
    hide ClaimFrom;
    a := Step(s, BeginPass);
    assert Locked(a.relays) == {};
    ClaimsOne(row, s.clock, o.batchSize);
    hide Locked, Due;
    assert a.relays.passes[p] == Pass.Pass(s.clock, Opened, [], map[], 0, {}, map[], map[]);
    assert ClaimRows(a, p).claimed == [0];
    assert ClaimRows(a, p).seen == map[0 := row];
    b := Step(a, Claim(p));
  }

  lemma Delivers(s: System, o: RelayOptions, row: EventRow, gone: map<nat, Pass>, p: nat, log: seq<Delivery>)
    returns (a: System)
    requires Usable(o) && OneRow(s, row)
    requires s.relays == Working(o, map[p := Claimed(row, s.clock)], gone, p + 1, log)
    ensures Takes(s, Publish(p, true, ""), a)
    ensures var told := Claimed(row, s.clock).(stage := Told(true, ""), sent := {0});
      a == s.(relays := Working(o, map[p := told], gone, p + 1, log + [Delivery(p, 0, row.event)]))
  {
    a := Step(s, Publish(p, true, ""));
    assert a.relays.passes[p].sent == {0};
    assert a.relays.passes == map[p := Claimed(row, s.clock).(stage := Told(true, ""), sent := {0})];
  }

  lemma Publishes(s: System, o: RelayOptions, row: EventRow, gone: map<nat, Pass>, p: nat, log: seq<Delivery>)
    returns (a: System, b: System)
    requires Usable(o) && OneRow(s, row)
    requires s.relays
      == Working(o, map[p := Claimed(row, s.clock).(stage := Told(true, ""), sent := {0})], gone, p + 1, log)
    ensures Takes(s, Mark(p), a) && Takes(a, CommitPass(p), b)
    ensures b.db == s.db.(events := map[0 := MarkPublished(row, s.clock)])
    ensures b.relays.log == log && b.relays.passes == map[] && b.relays.gone == gone && b.calls == s.calls
    ensures b.relays.options == o
  {
    a := Step(s, Mark(p));
    assert a.relays.passes[p].writes == map[0 := MarkPublished(row, s.clock)];
    b := Step(a, CommitPass(p));
    assert b.relays.passes == map[];
  }

  /** Any accepted transaction that fits its row and can be announced may be stored,
      its caller told so, and its event published once. */
  lemma ARunDelivers(
    o: RelayOptions, clock: Instant, tx: Transaction, eventId: Uuid)
    returns (states: seq<System>, actions: seq<Action>)
    requires Usable(o) && Acceptable(tx) && Fits(EncodeRow(tx)) && NewTransactionReceived(tx, eventId).Some?
    ensures IsRun(states, actions)
    ensures var last := states[|states| - 1];
      && last.db.transactions == map[KeyOfTransaction(tx) := EncodeRow(tx)]
      && last.db.events == map[0 := MarkPublished(Row(tx, eventId, clock), clock)]
      && last.relays.log == [Delivery(0, 0, EventOf(tx, eventId))]
      && last.calls.replies.Keys == {0} && last.calls.replies[0].answer == Answered(IngestOutcome(tx, false, false))
  {
    hide Enabled, Step, NewTransactionReceived, EncodeRow, KeyOfTransaction, Row, Acceptable, Fits, OneRow;
    var s0 := Idle(o, clock);
    var s1, s2, s3 := Writes(o, clock, tx, eventId);
    var s4 := Commits(s3, o, clock, tx, eventId);
    var row := Row(tx, eventId, clock);
    StoredIsOneRow(s4, o, clock, tx, eventId);
    var s5, s6 := Claims(s4, o, row, map[], 0, []);
    OneRowStays(s4, s6, row);
    var s7 := Delivers(s6, o, row, map[], 0, []);
    OneRowStays(s6, s7, row);
    var s8, s9 := Publishes(s7, o, row, map[], 0, [] + [Delivery(0, 0, row.event)]);
    states := [s0, s1, s2, s3, s4, s5, s6, s7, s8, s9];
    actions := [
      Begin(tx), Insert(0), Queue(0, eventId), Commit(0), BeginPass, Claim(0),
      Publish(0, true, ""), Mark(0), CommitPass(0)
    ];
  }

  lemma StoredIsOneRow(s: System, o: RelayOptions, clock: Instant, tx: Transaction, eventId: Uuid)
    requires NewTransactionReceived(tx, eventId).Some? && Stored(s, o, clock, tx, eventId)
    ensures OneRow(s, Row(tx, eventId, clock)) && Due(Row(tx, eventId, clock), clock)
    ensures s.relays == Working(o, map[], map[], 0, []) && Row(tx, eventId, clock).event == EventOf(tx, eventId)
  {
    hide EncodeRow, NewTransactionReceived, KeyOfTransaction;
  }

  lemma LosesOne(s: System, o: RelayOptions, row: EventRow, p: nat) returns (a: System)
    requires Usable(o) && OneRow(s, row)
    requires s.relays == Working(o, map[p := Claimed(row, s.clock)], map[], p + 1, [])
    ensures Takes(s, LosePass(p), a)
    ensures a == s.(relays := Working(o, map[], map[p := Claimed(row, s.clock)], p + 1, []))
  {
    a := Step(s, LosePass(p));
    assert a.relays.passes == map[];
  }

  lemma PublishesLate(s: System, p: nat, start: Instant, row: EventRow) returns (a: System)
    requires Usable(s.relays.options) && s.calls.open == map[]
    requires s.calls.memory.byKey.Keys == s.calls.memory.fingerprints.Keys
    requires p in s.relays.gone && s.relays.gone[p] == Claimed(row, start)
    ensures Takes(s, PublishLate(p, true), a) && a.relays.log == s.relays.log + [Delivery(p, 0, row.event)]
    ensures a.db == s.db
  {
    a := Step(s, PublishLate(p, true));
  }

  lemma TwoDeliveries(first: Delivery, second: Delivery)
    requires first.serial == second.serial == 0
    ensures TimesDelivered([] + [first] + [second], 0) == 2
  {
    assert ([] + [first] + [second])[..1] == [first] && [first][..0] == [];
    assert TimesDelivered([first], 0) == 1;
  }

  /** A pass that loses its transaction before it has sent anything may still send: here
      the first pass claims the event and loses its transaction, the second claims,
      publishes and commits it, and the first publishes it again. */
  lemma LostBeforeSendingDeliversTwice(o: RelayOptions, clock: Instant, tx: Transaction, eventId: Uuid)
    returns (states: seq<System>, actions: seq<Action>)
    requires Usable(o) && Acceptable(tx) && Fits(EncodeRow(tx)) && NewTransactionReceived(tx, eventId).Some?
    ensures IsRun(states, actions)
    ensures forall i :: 0 <= i < |actions| && actions[i].LosePass? ==>
      actions[i].pass in states[i].relays.passes && states[i].relays.passes[actions[i].pass].sent == {}
    ensures var last := states[|states| - 1];
      0 in last.db.events && last.db.events[0].publishedAt.Some? && TimesDelivered(last.relays.log, 0) == 2
  {
    hide Enabled, Step, NewTransactionReceived, EncodeRow, KeyOfTransaction, Row, Acceptable, Fits, OneRow;
    hide TimesDelivered;
    var s0 := Idle(o, clock);
    var s1, s2, s3 := Writes(o, clock, tx, eventId);
    var s4 := Commits(s3, o, clock, tx, eventId);
    var row := Row(tx, eventId, clock);
    StoredIsOneRow(s4, o, clock, tx, eventId);
    var s5, s6 := Claims(s4, o, row, map[], 0, []);
    OneRowStays(s4, s6, row);
    var s7 := LosesOne(s6, o, row, 0);
    OneRowStays(s6, s7, row);
    var gone := map[0 := Claimed(row, clock)];
    var s8, s9 := Claims(s7, o, row, gone, 1, []);
    OneRowStays(s7, s9, row);
    var s10 := Delivers(s9, o, row, gone, 1, []);
    OneRowStays(s9, s10, row);
    var s11, s12 := Publishes(s10, o, row, gone, 1, [] + [Delivery(1, 0, row.event)]);
    OneRowIsQuiet(s10, row);
    var s13 := PublishesLate(s12, 0, clock, row);
    TwoDeliveries(Delivery(1, 0, row.event), Delivery(0, 0, row.event));
    states := [s0, s1, s2, s3, s4, s5, s6, s7, s8, s9, s10, s11, s12, s13];
    actions := [
      Begin(tx), Insert(0), Queue(0, eventId), Commit(0), BeginPass, Claim(0), LosePass(0),
      BeginPass, Claim(1), Publish(1, true, ""), Mark(1), CommitPass(1), PublishLate(0, true)
    ];
  }

  lemma OneRowStays(s: System, t: System, row: EventRow)
    requires OneRow(s, row) && t.db == s.db && t.calls == s.calls
    ensures OneRow(t, row)
  {
  }

  lemma OneRowIsQuiet(s: System, row: EventRow)
    requires OneRow(s, row)
    ensures s.calls.open == map[] && s.calls.memory.byKey.Keys == s.calls.memory.fingerprints.Keys
  {
  }

  /** An actual reading, accepted under actual rules, has such a run. */
  lemma AReadingIsDelivered(o: RelayOptions, id: Uuid, eventId: Uuid)
    returns (states: seq<System>, actions: seq<Action>)
    requires Usable(o)
    ensures IsRun(states, actions) && |states[|states| - 1].relays.log| == 1
  {
    hide Accept, BillableText, Acceptable, EncodeRow, IsRun, FromString, IsDecimalText;
    var s := Reading("1", ZonedTime(0, 0), "-0.00");
    NegativeZeroIsBillable();
    ReadingIsAccepted(s, 0, id);
    var tx := Accept(RULES, s, 0, Some(id)).tx;
    NothingFits(tx);
    assert YearOf(0) == 0;
    states, actions := ARunDelivers(o, 0, tx, eventId);
  }

  lemma NothingFits(tx: Transaction)
    requires Acceptable(tx) && tx.baseAmount.asReceived == "-0.00"
    ensures Fits(EncodeRow(tx))
  {
    NegativeZeroIsNothing();
    AcceptedFitsIffBelowLimit(tx);
    hide EncodeRow, Fits, Known, FromString, IsDecimalText;
  }

  /** A relay that polls an empty table loses nothing: its pass ends idle. */
  lemma AnIdlePollLosesNothing(o: RelayOptions, clock: Instant) returns (states: seq<System>, actions: seq<Action>)
    requires Usable(o)
    ensures IsRun(states, actions) && actions == [BeginPass, Claim(0), EndPass(0)]
    ensures var last := states[|states| - 1];
      && last.relays.idle == {0} && last.relays.gone == map[] && last.relays.passes == map[] && last.relays.log == []
  {
    var s := Idle(o, clock);
    var a := Step(s, BeginPass);
    assert a.relays.passes == map[0 := Pass.Pass(clock, Opened, [], map[], 0, {}, map[], map[])];
    assert Locked(a.relays) == {};
    NothingClaimed(map[], {}, clock, 0, 0, o.batchSize);
    var b := Step(a, Claim(0));
    assert b.relays.passes[0].claimed == [];
    var c := Step(b, EndPass(0));
    assert c.relays.passes == map[] && c.relays.idle == {0};
    states, actions := [s, a, b, c], [BeginPass, Claim(0), EndPass(0)];
  }
}
