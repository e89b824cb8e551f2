/** What holds in every run, whatever the interleaving and whatever is lost. */
module Guarantees {
  import opened Calendar
  import opened Transactions
  import opened Fingerprints
  import opened Rows
  import opened MemoryStore
  import opened Protocol
  import opened IngestProofs
  import opened RelayProofs

  ghost predicate Inv(s: System) {
    CallsOk(s.db, s.calls) && RelaysOk(s.db.events, s.clock, s.relays)
  }

  // ---- every step keeps the invariant ----

  lemma InitHolds(s: System)
    requires Init(s)
    ensures Inv(s)
  {
  }

  lemma BeginStep(s: System, tx: Transaction)
    requires Enabled(s, Begin(tx)) && Inv(s)
    ensures Inv(Step(s, Begin(tx)))
  {
    hide CallsOk, RelaysOk, BeginCall, Acceptable;
    BeginKeeps(s, tx);
  }

  lemma CallStep(s: System, a: Action)
    requires Enabled(s, a) && Inv(s)
    requires a.Insert? || a.Select? || a.Abandon? || a.Rollback?
    ensures Inv(Step(s, a))
  {
    hide CallsOk, RelaysOk, InsertRow, SelectExisting, Finish;
    match a
    case Insert(c) => InsertKeeps(s, c);
    case Select(c) => SelectKeeps(s, c);
    case Abandon(c) => AbandonKeeps(s, c);
    case Rollback(c) => FinishKeeps(s.db, s.calls, c, Errored(Refused));
  }

  lemma QueueStep(s: System, c: nat, eventId: Uuid)
    requires Enabled(s, Queue(c, eventId)) && Inv(s)
    ensures Inv(Step(s, Queue(c, eventId)))
  {
    QueueLeavesEvents(s, c, eventId);
    hide CallsOk, RelaysOk, QueueEvent;
    QueueKeeps(s, c, eventId);
  }

  lemma QueueLeavesEvents(s: System, c: nat, eventId: Uuid)
    requires Enabled(s, Queue(c, eventId))
    ensures QueueEvent(s, c, eventId).0.events == s.db.events
  {
    hide NewTransactionReceived;
  }

  lemma CommitStep(s: System, c: nat)
    requires Enabled(s, Commit(c)) && Inv(s)
    ensures Inv(Step(s, Commit(c)))
  {
    CommitKeeps(s, c);
    hide CallsOk, RelaysOk, Linearize, Finish;
    var phase := s.calls.open[c].phase;
    if phase.Queued? {
      assert PhasesOk(s.db, s.calls) by {
        PhasesFrom(s.db, s.calls);
      }
      CommittingEvent(s, c);
      NewEventKeeps(s.db.events, s.clock, s.relays, phase.serial, phase.event);
    }
  }

  lemma PhasesFrom(db: Database, g: Calls)
    requires CallsOk(db, g)
    ensures PhasesOk(db, g)
  {
  }

  lemma PassStep(s: System, a: Action)
    requires Enabled(s, a) && Inv(s)
    requires a.Tick? || a.BeginPass? || a.Claim? || a.Publish? || a.Mark? || a.EndPass? || a.LosePass? || a.PublishLate?
    ensures Inv(Step(s, a))
  {
    hide CallsOk, RelaysOk, ClaimRows, PublishNext, MarkCurrent, LoseTransaction, PublishWithout;
    match a
    case Tick(to) => TickKeeps(s.db.events, s.clock, s.relays, to);
    case BeginPass => BeginPassKeeps(s.db.events, s.clock, s.relays);
    case Claim(p) => ClaimKeeps(s, p);
    case Publish(p, delivered, error) => PublishKeeps(s, p, delivered, error);
    case Mark(p) => MarkKeeps(s, p);
    case EndPass(p) => EndPassKeeps(s, p);
    case LosePass(p) => LosePassKeeps(s, p);
    case PublishLate(p, delivered) => PublishLateKeeps(s, p, delivered);
  }

  lemma CommitPassStep(s: System, p: nat)
    requires Enabled(s, CommitPass(p)) && Inv(s)
    ensures Inv(Step(s, CommitPass(p)))
  {
    hide CallsOk, RelaysOk, CommitWrites;
    hide BeginCall, InsertRow, QueueEvent, SelectExisting, CommitCall, Finish, ClaimRows, PublishNext, MarkCurrent;
    hide LoseTransaction, PublishWithout;
    CommitPassKeeps(s, p);
    CommitShape(s, p);
    PassWritesKeepEvents(s, p);
    BookkeepingKeepsCalls(s.db, Step(s, CommitPass(p)).db, s.calls);
  }

  lemma PassWritesKeepEvents(s: System, p: nat)
    requires RelaysOk(s.db.events, s.clock, s.relays) && p in s.relays.passes
    ensures SameEvents(s.db.events, s.db.events + s.relays.passes[p].writes)
  {
    hide ClaimOk, ProgressOk, TriesOk, CountsOk, LogOk, ClaimsExclude;
    assert PassOk(s.relays.options, s.db.events, s.clock, s.relays.passes[p]);
  }

  lemma StepKeeps(s: System, a: Action)
    requires Enabled(s, a) && Inv(s)
    ensures Inv(Step(s, a))
  {
    hide Inv, Enabled, Step;
    match a
    case Begin(tx) => BeginStep(s, tx);
    case Insert(_) => CallStep(s, a);
    case Select(_) => CallStep(s, a);
    case Abandon(_) => CallStep(s, a);
    case Rollback(_) => CallStep(s, a);
    case Queue(c, eventId) => QueueStep(s, c, eventId);
    case Commit(c) => CommitStep(s, c);
    case CommitPass(p) => CommitPassStep(s, p);
    case Tick(_) => PassStep(s, a);
    case BeginPass => PassStep(s, a);
    case Claim(_) => PassStep(s, a);
    case Publish(_, _, _) => PassStep(s, a);
    case Mark(_) => PassStep(s, a);
    case EndPass(_) => PassStep(s, a);
    case LosePass(_) => PassStep(s, a);
    case PublishLate(_, _) => PassStep(s, a);
  }

  lemma {:induction false} EveryStateKeeps(states: seq<System>, actions: seq<Action>, i: nat)
    requires IsRun(states, actions) && i < |states|
    ensures Inv(states[i])
  {
    hide Inv, Enabled, Step, Init;
    if i == 0 {
      InitHolds(states[0]);
    } else {
      EveryStateKeeps(states, actions, i - 1);
      StepKeeps(states[i - 1], actions[i - 1]);
    }
  }

  // ---- ingest refines the in-memory store ----

  /** Call c counts as position i, at some moment between its submission and its
      reply. */
  predicate CountsWithin(g: Calls, i: int, c: nat, outcome: IngestOutcome)
    requires c in g.replies && c < |g.submitted|
  {
    CountsAs(g.history, i, c, outcome) && g.submitted[c].after <= i < g.replies[c].upTo
  }

  /** In every run the calls amount to a sequential run of the in-memory store: the
      committed rows are the rows of its contents, every answer is the outcome of
      one of its calls made while the caller waited, no call counts twice, and a
      call that errs was refused, never because a record had gone or was unreadable. */
  lemma IngestRefinesMemory(states: seq<System>, actions: seq<Action>, n: nat)
    requires IsRun(states, actions) && n < |states|
    ensures var (db, g) := (states[n].db, states[n].calls);
      && Sequential(g.history)
      && db.transactions == (map k | k in Replay(g.history).byKey :: EncodeRow(Replay(g.history).byKey[k]))
      && (forall i :: 0 <= i < |g.history| ==>
            g.history[i].call < |g.submitted| && g.history[i].tx == g.submitted[g.history[i].call].tx)
      && (forall i, j :: 0 <= i < j < |g.history| ==> g.history[i].call != g.history[j].call)
      && (forall c <- g.replies :: c < |g.submitted|)
      && (forall c <- g.replies :: g.replies[c].answer.Answered? ==>
            exists i :: CountsWithin(g, i, c, g.replies[c].answer.outcome))
      && (forall c <- g.replies :: g.replies[c].answer.Errored? ==> g.replies[c].answer.cause == Refused)
  {
    hide IsRun, PhasesOk, LocksOk, EventsOk, OneEventEach, QueuedAreFresh, RelaysOk;
    hide Sequential, Replay, EncodeRow, Acceptable, KeyOfTransaction, Fingerprint, Returned;
    EveryStateKeeps(states, actions, n);
    var g := states[n].calls;
    assert CallsOk(states[n].db, g);
    assert forall k <- g.memory.byKey :: states[n].db.transactions[k] == EncodeRow(g.memory.byKey[k]);
    forall c <- g.replies | g.replies[c].answer.Answered?
      ensures exists i :: CountsWithin(g, i, c, g.replies[c].answer.outcome)
    {
      assert ReplyOk(g, c, g.replies[c]);
      var i :| i < g.replies[c].upTo && CountsAs(g.history, i, c, g.replies[c].answer.outcome);
      assert CountsWithin(g, i, c, g.replies[c].answer.outcome);
    }
  }

  /** What a stretch of a run adds: history and submissions only grow, and what is
      submitted later comes after the history so far. */
  predicate Grew(g: Calls, g': Calls) {
    && g.history <= g'.history && g.submitted <= g'.submitted
    && (forall c :: |g.submitted| <= c < |g'.submitted| ==> |g.history| <= g'.submitted[c].after)
    && (forall c <- g.replies :: c in g'.replies && g'.replies[c] == g.replies[c])
  }

  lemma StepGrows(s: System, a: Action)
    requires Enabled(s, a)
    ensures Grew(s.calls, Step(s, a).calls)
  {
    hide Fits, EncodeRow, KeyOfTransaction, NewTransactionReceived, DecodeRow, Fingerprint, Acceptable, Ingest;
    hide ClaimRows, PublishNext, MarkCurrent, LoseTransaction, PublishWithout;
  }

  lemma {:induction false} RunGrows(states: seq<System>, actions: seq<Action>, m: nat, n: nat)
    requires IsRun(states, actions) && m <= n < |states|
    ensures Grew(states[m].calls, states[n].calls)
    decreases n - m
  {
    hide Enabled, Step, Init;
    if m < n {
      RunGrows(states, actions, m, n - 1);
      StepGrows(states[n - 1], actions[n - 1]);
    }
  }

  /** The sequential order respects real time: a call answered before another was
      submitted comes before it. */
  lemma OrderRespectsRealTime(states: seq<System>, actions: seq<Action>, m: nat, n: nat, c: nat, d: nat, i: nat, j: nat)
    requires IsRun(states, actions) && m <= n < |states|
    requires c in states[m].calls.replies && states[m].calls.replies[c].answer.Answered?
    requires d >= |states[m].calls.submitted|
    requires i < |states[n].calls.history| && states[n].calls.history[i].call == c
    requires j < |states[n].calls.history| && states[n].calls.history[j].call == d
    ensures i < j
  {
    hide IsRun, PhasesOk, LocksOk, EventsOk, OneEventEach, QueuedAreFresh, RelaysOk, Mirrors, SubmittedOk;
    hide Sequential, Replay, Returned;
    EveryStateKeeps(states, actions, m);
    EveryStateKeeps(states, actions, n);
    RunGrows(states, actions, m, n);
    var g, g' := states[m].calls, states[n].calls;
    assert ReplyOk(g, c, g.replies[c]);
    var k :| k < g.replies[c].upTo && CountsAs(g.history, k, c, g.replies[c].answer.outcome);
    assert g'.history[k].call == c;
    assert i == k;
  }

  // ---- a duplicate is flagged exactly when its content differs ----

  lemma {:induction false} ReplayKeepsRecords(h: seq<Linearized>, i: nat, key: Key)
    requires i <= |h| && key in Replay(h[..i]).byKey
    ensures key in Replay(h).byKey && Replay(h).byKey[key] == Replay(h[..i]).byKey[key]
    ensures Replay(h).fingerprints[key] == Replay(h[..i]).fingerprints[key]
  {
    hide Fingerprint, KeyOfTransaction, Replay;
    if i == |h| {
      assert h[..i] == h;
    } else {
      assert h[..|h| - 1][..i] == h[..i];
      ReplayKeepsRecords(h[..|h| - 1], i, key);
      assert h == h[..|h| - 1] + [h[|h| - 1]];
      ReplayAdds(h[..|h| - 1], h[|h| - 1]);
    }
  }

  lemma {:induction false} SequentialAt(h: seq<Linearized>, i: nat)
    requires Sequential(h) && i < |h|
    ensures h[i].outcome == Ingest(Replay(h[..i]), h[i].tx).1
  {
    hide Replay, Ingest;
    if i < |h| - 1 {
      SequentialAt(h[..|h| - 1], i);
      assert h[..|h| - 1][..i] == h[..i];
    }
  }

  /** A record in the store has its event, so its instant can be encoded. */
  lemma StoredIsEncodable(db: Database, g: Calls, key: Key)
    requires EventsOk(db.events, db.nextSerial, g.memory, g.eventIds) && OneEventEach(db.events, g.memory)
    requires key in g.memory.byKey
    ensures InYearRange(g.memory.byKey[key].occurredAt)
  {
    hide KeyOfEvent;
    var id :| Announces(db.events, id, key);
    assert NewTransactionReceived(g.memory.byKey[key], db.events[id].event.id).Some?;
    EncodableIffInRange(g.memory.byKey[key].occurredAt);
  }

  /** Every answer in every run: a fresh one returns the transaction submitted; a
      duplicate returns the record stored first under its key, and is flagged
      divergent exactly when what was submitted bills differently from it. */
  lemma AnswersAreRight(states: seq<System>, actions: seq<Action>, n: nat, c: nat)
    requires IsRun(states, actions) && n < |states|
    requires c in states[n].calls.replies && states[n].calls.replies[c].answer.Answered?
    ensures var (g, outcome) := (states[n].calls, states[n].calls.replies[c].answer.outcome);
      && c < |g.submitted|
      && var tx, key := g.submitted[c].tx, KeyOfTransaction(g.submitted[c].tx);
         && key in g.memory.byKey && states[n].db.transactions.Keys == g.memory.byKey.Keys
         && (!outcome.duplicate ==> outcome.tx == tx == g.memory.byKey[key] && !outcome.divergent)
         && (outcome.duplicate ==> outcome.tx == AsStored(g.memory.byKey[key]))
         && (outcome.duplicate ==> (outcome.divergent <==> !SameBilling(g.memory.byKey[key], tx)))
  {
    hide IsRun, PhasesOk, LocksOk, QueuedAreFresh, RelaysOk, Sequential, Replay, EventsOk, OneEventEach;
    hide Acceptable, Fingerprint, EncodeRow, AsStored, KeyOfTransaction, SameBilling, Ingest;
    EveryStateKeeps(states, actions, n);
    var g := states[n].calls;
    assert CallsOk(states[n].db, g);
    assert ReplyOk(g, c, g.replies[c]);
    var i :| i < g.replies[c].upTo && CountsAs(g.history, i, c, g.replies[c].answer.outcome);
    assert g.history[i].call == c;
    SequentialAt(g.history, i);
    OutcomeAgainstMemory(g, i);
    var key := KeyOfTransaction(g.submitted[c].tx);
    StoredIsEncodable(states[n].db, g, key);
    FingerprintDecides(g.memory.byKey[key], g.submitted[c].tx);
  }

  lemma OutcomeAgainstMemory(g: Calls, i: nat)
    requires i < |g.history| && g.memory == Replay(g.history)
    requires g.history[i].outcome == Ingest(Replay(g.history[..i]), g.history[i].tx).1
    requires forall k <- g.memory.byKey :: g.memory.fingerprints[k] == Fingerprint(g.memory.byKey[k])
    ensures var tx, outcome := g.history[i].tx, g.history[i].outcome;
      && KeyOfTransaction(tx) in g.memory.byKey
      && outcome.tx == g.memory.byKey[KeyOfTransaction(tx)]
      && (!outcome.duplicate ==> outcome.tx == tx && !outcome.divergent)
      && (outcome.duplicate ==> (outcome.divergent <==> Fingerprint(outcome.tx) != Fingerprint(tx)))
  {
    hide Fingerprint, KeyOfTransaction, Replay;
    var h, key := g.history, KeyOfTransaction(g.history[i].tx);
    assert h[..i + 1] == h[..i] + [h[i]];
    ReplayAdds(h[..i], h[i]);
    assert Replay(h[..i + 1]) == Ingest(Replay(h[..i]), h[i].tx).0;
    ReplayKeepsRecords(h, i + 1, key);
  }

  // ---- the first call under a key ----

  /** Position i of the history is the first with this key. */
  predicate FirstCall(h: seq<Linearized>, key: Key, i: int) {
    0 <= i < |h| && FirstUnder(Given(h), key, i)
  }

  lemma FirstCallIsKept(h: seq<Linearized>, key: Key)
    ensures key in Replay(h).byKey <==> exists i :: FirstCall(h, key, i)
    ensures forall i :: FirstCall(h, key, i) ==> Replay(h).byKey[key] == h[i].tx
  {
    hide KeyOfTransaction, Fingerprint, IngestAll;
    FirstSubmissionWins(Given(h), key);
    if i :| FirstUnder(Given(h), key, i) {
      assert FirstCall(h, key, i);
    }
  }

  /** A call is fresh in the sequential run exactly when it is the first under its key. */
  lemma FreshIffFirst(h: seq<Linearized>, i: nat)
    requires Sequential(h) && i < |h|
    ensures !h[i].outcome.duplicate <==> FirstCall(h, KeyOfTransaction(h[i].tx), i)
  {
    hide KeyOfTransaction, Fingerprint, Sequential, Replay, FirstCall;
    SequentialAt(h, i);
    var key := KeyOfTransaction(h[i].tx);
    FirstCallIsKept(h[..i], key);
    if h[i].outcome.duplicate {
      var j :| FirstCall(h[..i], key, j);
      assert !FirstCall(h, key, i) by {
        EarlierIsFirst(h, key, i, j);
      }
    } else {
      NoneIsFirst(h, key, i);
    }
  }

  lemma EarlierIsFirst(h: seq<Linearized>, key: Key, i: nat, j: int)
    requires i < |h| && FirstCall(h[..i], key, j)
    ensures FirstCall(h, key, j) && !FirstCall(h, key, i)
  {
    hide KeyOfTransaction;
    assert Given(h[..i]) == Given(h)[..i];
  }

  lemma NoneIsFirst(h: seq<Linearized>, key: Key, i: nat)
    requires i < |h| && KeyOfTransaction(h[i].tx) == key
    requires !exists j :: FirstCall(h[..i], key, j)
    ensures FirstCall(h, key, i)
  {
    hide KeyOfTransaction;
    var before := Given(h[..i]);
    assert before == Given(h)[..i];
    assert forall j :: FirstUnder(before, key, j) ==> FirstCall(h[..i], key, j);
    NoFirstNoKey(before, key);
    forall j | 0 <= j < i
      ensures KeyOfTransaction(Given(h)[j]) != key
    {
      assert before[j] == Given(h)[j];
    }
  }

  /** Position i of the history is the first call under c's key; the answer to c is
      fresh exactly when that is c itself, and otherwise returns what it submitted. */
  predicate ReturnsFirst(g: Calls, c: nat, outcome: IngestOutcome, i: int) {
    && c < |g.submitted| && FirstCall(g.history, KeyOfTransaction(g.submitted[c].tx), i)
    && (!outcome.duplicate <==> g.history[i].call == c)
    && (outcome.duplicate ==> outcome.tx == AsStored(g.history[i].tx))
  }

  lemma OutcomeReturnsFirst(g: Calls, c: nat, at: nat, outcome: IngestOutcome)
    requires HistoryOk(g.submitted, g.history, g.memory) && CountsAs(g.history, at, c, outcome) && c < |g.submitted|
    requires var key := KeyOfTransaction(g.submitted[c].tx);
      key in g.memory.byKey && (outcome.duplicate ==> outcome.tx == AsStored(g.memory.byKey[key]))
    ensures exists i :: ReturnsFirst(g, c, outcome, i)
  {
    hide Sequential, Replay, FirstCall, AsStored, KeyOfTransaction;
    var key := KeyOfTransaction(g.submitted[c].tx);
    FreshIffFirst(g.history, at);
    FirstCallIsKept(g.history, key);
    var first :| FirstCall(g.history, key, first);
    FirstIsUnique(g.history, key, first, at);
    assert 0 <= first < |g.history|;
    assert g.history[first].call == c <==> first == at;
    assert ReturnsFirst(g, c, outcome, first);
  }

  /** An answer is fresh exactly when its call is the first under its key in the
      sequential run, and a duplicate returns what that first call submitted. */
  lemma AnswersReturnTheFirst(states: seq<System>, actions: seq<Action>, n: nat, c: nat)
    requires IsRun(states, actions) && n < |states|
    requires c in states[n].calls.replies && states[n].calls.replies[c].answer.Answered?
    ensures exists i :: ReturnsFirst(states[n].calls, c, states[n].calls.replies[c].answer.outcome, i)
  {
    hide IsRun, PhasesOk, LocksOk, QueuedAreFresh, RelaysOk, EventsOk, OneEventEach, HistoryOk, IdsOk;
    hide AsStored, KeyOfTransaction, SameBilling, CountsAs, ReturnsFirst;
    EveryStateKeeps(states, actions, n);
    AnswersAreRight(states, actions, n, c);
    var g := states[n].calls;
    assert CallsOk(states[n].db, g);
    assert ReplyOk(g, c, g.replies[c]);
    var at :| at < g.replies[c].upTo && CountsAs(g.history, at, c, g.replies[c].answer.outcome);
    assert at >= 0 by {
      CountsInRange(g.history, at, c, g.replies[c].answer.outcome);
    }
    OutcomeReturnsFirst(g, c, at, g.replies[c].answer.outcome);
  }

  lemma CountsInRange(h: seq<Linearized>, i: int, c: nat, outcome: IngestOutcome)
    requires CountsAs(h, i, c, outcome)
    ensures 0 <= i < |h|
  {
  }

  lemma FirstIsUnique(h: seq<Linearized>, key: Key, i: int, j: int)
    requires FirstCall(h, key, i)
    ensures 0 <= i < |h| && (FirstCall(h, key, j) <==> i == j)
  {
    hide KeyOfTransaction;
  }

  /** At most one call a key is ever answered fresh. */
  lemma OneFreshAnswerEach(states: seq<System>, actions: seq<Action>, n: nat, c: nat, d: nat)
    requires IsRun(states, actions) && n < |states|
    requires c in states[n].calls.replies && states[n].calls.replies[c].answer.Answered?
    requires d in states[n].calls.replies && states[n].calls.replies[d].answer.Answered?
    requires !states[n].calls.replies[c].answer.outcome.duplicate
    requires !states[n].calls.replies[d].answer.outcome.duplicate
    ensures c < |states[n].calls.submitted| && d < |states[n].calls.submitted|
    ensures c != d ==>
      KeyOfTransaction(states[n].calls.submitted[c].tx) != KeyOfTransaction(states[n].calls.submitted[d].tx)
  {
    hide IsRun, FirstCall, KeyOfTransaction, AsStored;
    AnswersReturnTheFirst(states, actions, n, c);
    AnswersReturnTheFirst(states, actions, n, d);
    var g := states[n].calls;
    var i :| ReturnsFirst(g, c, g.replies[c].answer.outcome, i);
    var j :| ReturnsFirst(g, d, g.replies[d].answer.outcome, j);
    FirstIsUnique(g.history, KeyOfTransaction(g.submitted[c].tx), i, j);
  }

  /** Row identifiers are unique across the table. */
  lemma RowIdsAreUnique(states: seq<System>, actions: seq<Action>, n: nat)
    requires IsRun(states, actions) && n < |states|
    ensures var rows := states[n].db.transactions;
      forall k <- rows, l <- rows :: rows[k].id == rows[l].id ==> k == l
  {
    hide IsRun, PhasesOk, LocksOk, QueuedAreFresh, RelaysOk, Sequential, Replay, EventsOk, OneEventEach, FirstCall;
    hide Acceptable, Fingerprint, KeyOfTransaction, RepliesOk;
    EveryStateKeeps(states, actions, n);
    var rows, g := states[n].db.transactions, states[n].calls;
    assert CallsOk(states[n].db, g);
    forall k <- rows
      ensures rows[k].id == g.memory.byKey[k].id
      ensures exists c: nat :: c < |g.submitted| && g.submitted[c].tx == g.memory.byKey[k]
    {
      KeptWasSubmitted(g, k);
      RowKeepsId(g.memory.byKey[k]);
    }
    hide EncodeRow;
  }

  lemma RowKeepsId(tx: Transaction)
    ensures EncodeRow(tx).id == tx.id
  {
  }

  lemma KeptWasSubmitted(g: Calls, key: Key)
    requires HistoryOk(g.submitted, g.history, g.memory) && key in g.memory.byKey
    ensures exists c: nat :: c < |g.submitted| && g.submitted[c].tx == g.memory.byKey[key]
  {
    hide Sequential, Replay, KeyOfTransaction, FirstCall;
    FirstCallIsKept(g.history, key);
    var i :| FirstCall(g.history, key, i);
    FirstIsUnique(g.history, key, i, i);
    assert g.submitted[g.history[i].call].tx == g.memory.byKey[key];
  }
}
