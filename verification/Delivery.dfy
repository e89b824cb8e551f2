/** What every run delivers: one event per transaction, none lost, and every
    delivery accounted for. */
module Delivery {
  import opened Text
  import opened Calendar
  import opened Transactions
  import opened Fingerprints
  import opened Rows
  import opened MemoryStore
  import opened Outbox
  import opened Protocol
  import opened IngestProofs
  import opened RelayProofs
  import opened Guarantees

  // ---- the outbox mirrors the transactions ----

  /** The row and the event row were made from one and the same transaction. */
  ghost predicate Matches(row: TransactionRow, event: Event) {
    exists tx :: Acceptable(tx) && row == EncodeRow(tx) && NewTransactionReceived(tx, event.id) == Some(event)
  }

  /** In every state each committed transaction has exactly one event, made from the
      same transaction as its row, and each event has its committed transaction. */
  lemma OneEventPerTransaction(states: seq<System>, actions: seq<Action>, n: nat)
    requires IsRun(states, actions) && n < |states|
    ensures var db := states[n].db;
      && (forall k <- db.transactions :: exists id :: Announces(db.events, id, k))
      && (forall x, y, k :: Announces(db.events, x, k) && Announces(db.events, y, k) ==> x == y)
      && (forall id <- db.events ::
            && KeyOfEvent(db.events[id].event) in db.transactions
            && Matches(db.transactions[KeyOfEvent(db.events[id].event)], db.events[id].event))
      && (forall x <- db.events, y <- db.events :: db.events[x].event.id == db.events[y].event.id ==> x == y)
  {
    EveryStateKeeps(states, actions, n);
    hide IsRun, PhasesOk, LocksOk, QueuedAreFresh, RelaysOk, HistoryOk, SubmittedOk, RepliesOk;
    hide Acceptable, EncodeRow, KeyOfEvent, NewTransactionReceived, KeyOfTransaction;
    assert CallsOk(states[n].db, states[n].calls);
    var db, m := states[n].db, states[n].calls.memory;
    assert db.transactions.Keys == m.byKey.Keys;
    forall id <- db.events
      ensures Matches(db.transactions[KeyOfEvent(db.events[id].event)], db.events[id].event)
    {
      var tx := m.byKey[KeyOfEvent(db.events[id].event)];
      assert NewTransactionReceived(tx, db.events[id].event.id) == Some(db.events[id].event);
    }
  }

  /** The publish log, read by event id, maps one to one into the committed
      transactions: two deliveries carry the same event id exactly when they are
      for the same source and reference. */
  lemma LogIsOneToOne(states: seq<System>, actions: seq<Action>, n: nat)
    requires IsRun(states, actions) && n < |states|
    ensures var (db, log) := (states[n].db, states[n].relays.log);
      && (forall d <- log ::
            KeyOfEvent(d.event) in db.transactions && Matches(db.transactions[KeyOfEvent(d.event)], d.event))
      && (forall d <- log, e <- log :: d.event.id == e.event.id <==> KeyOfEvent(d.event) == KeyOfEvent(e.event))
      && (forall d <- log, e <- log :: d.event.id == e.event.id ==> d.event == e.event)
  {
    OneEventPerTransaction(states, actions, n);
    EveryStateKeeps(states, actions, n);
    hide IsRun, CallsOk, PassesOk, CountsOk, TriesOk, ClaimsExclude, KeyOfEvent, Matches;
    assert LogOk(states[n].db.events, states[n].relays.nextPass, states[n].relays.log);
    assert forall d <- states[n].relays.log :: Announces(states[n].db.events, d.serial, KeyOfEvent(d.event));
  }

  // ---- nothing is lost ----

  /** Rows stay, events keep their content, and a published row never changes. */
  predicate Keeps(db: Database, db': Database) {
    && (forall k <- db.transactions :: k in db'.transactions && db'.transactions[k] == db.transactions[k])
    && (forall id <- db.events :: id in db'.events && db'.events[id].event == db.events[id].event
          && db.events[id].attempts <= db'.events[id].attempts
          && (db.events[id].publishedAt.Some? ==> db'.events[id] == db.events[id]))
  }

  lemma StepKeepsRows(s: System, a: Action)
    requires Enabled(s, a) && Inv(s)
    ensures Keeps(s.db, Step(s, a).db)
  {
    hide Enabled, Inv, Step, Keeps;
    match a
    case Commit(c) => CommitStepKeepsRows(s, c);
    case CommitPass(p) => CommitPassKeepsRows(s, p);
    case Queue(c, eventId) => QueueStepKeepsRows(s, c, eventId);
    case _ =>
      OthersKeepTables(s, a);
      SameKeeps(s.db);
  }

  lemma SameKeeps(db: Database)
    ensures Keeps(db, db)
  {
  }

  lemma OthersKeepTables(s: System, a: Action)
    requires Enabled(s, a) && !a.Commit? && !a.CommitPass? && !a.Queue?
    ensures Step(s, a).db == s.db
  {
    hide BeginCall, InsertRow, SelectExisting, Finish, ClaimRows, PublishNext, MarkCurrent;
    hide LoseTransaction, PublishWithout;
    hide Acceptable, Fits, EncodeRow, KeyOfTransaction;
  }

  lemma CommitStepKeepsRows(s: System, c: nat)
    requires Enabled(s, Commit(c)) && Inv(s)
    ensures Keeps(s.db, Step(s, Commit(c)).db)
  {
    hide CallsOk, RelaysOk, CommitCall, Keeps;
    assert PhasesOk(s.db, s.calls) by {
      PhasesFrom(s.db, s.calls);
    }
    CommitKeepsRows(s, c);
  }

  lemma CommitPassKeepsRows(s: System, p: nat)
    requires Enabled(s, CommitPass(p)) && Inv(s)
    ensures Keeps(s.db, Step(s, CommitPass(p)).db)
  {
    hide CallsOk, RelaysOk, CommitWrites, Keeps;
    assert PassesOk(s.db.events, s.clock, s.relays) by {
      PassesFrom(s.db.events, s.clock, s.relays);
    }
    PassKeepsRows(s, p);
  }

  lemma QueueStepKeepsRows(s: System, c: nat, eventId: Uuid)
    requires Enabled(s, Queue(c, eventId))
    ensures Keeps(s.db, Step(s, Queue(c, eventId)).db)
  {
    hide QueueEvent, Keeps;
    QueueKeepsRows(s, c, eventId);
  }

  lemma PassesFrom(events: map<nat, EventRow>, clock: Instant, r: Relays)
    requires RelaysOk(events, clock, r)
    ensures Usable(r.options) && PassesOk(events, clock, r)
  {
  }

  lemma QueueKeepsRows(s: System, c: nat, eventId: Uuid)
    requires Enabled(s, Queue(c, eventId))
    ensures Keeps(s.db, QueueEvent(s, c, eventId).0)
  {
    hide NewTransactionReceived;
  }

  lemma CommitKeepsRows(s: System, c: nat)
    requires Enabled(s, Commit(c)) && PhasesOk(s.db, s.calls)
    ensures Keeps(s.db, CommitCall(s, c).0)
  {
    hide KeyOfTransaction, Ingest, PhasesOk, NewTransactionReceived, EncodeRow, Linearize, Finish, KeyOfEvent;
    if s.calls.open[c].phase.Queued? {
      CommittingEvent(s, c);
    }
  }

  lemma PassKeepsRows(s: System, p: nat)
    requires Committable(s, p)
    ensures Keeps(s.db, CommitWrites(s, p).db)
  {
    CommitShape(s, p);
    hide PassOk, CommitWrites, Delay;
    forall id <- s.relays.passes[p].writes
      ensures id in s.db.events && s.db.events[id].publishedAt.None?
      ensures s.relays.passes[p].writes[id].event == s.db.events[id].event
      ensures s.relays.passes[p].writes[id].attempts == s.db.events[id].attempts + 1
    {
      WrittenWasUnpublished(s, p, id);
    }
  }

  /** Over any stretch of any run, no transaction and no event goes away or changes
      its content, and a published row stays exactly as it is. */
  lemma {:induction false} NothingIsLost(states: seq<System>, actions: seq<Action>, m: nat, n: nat)
    requires IsRun(states, actions) && m <= n < |states|
    ensures Keeps(states[m].db, states[n].db)
    decreases n - m
  {
    hide Enabled, Step, Init, Inv;
    if m < n {
      NothingIsLost(states, actions, m, n - 1);
      EveryStateKeeps(states, actions, n - 1);
      StepKeepsRows(states[n - 1], actions[n - 1]);
    }
  }

  // ---- claims ----

  /** In every state a pass that has its transaction holds at most a batch of rows, in
      id order, each of them unpublished and due when the pass began; no other pass
      with a transaction holds any of them. */
  lemma ClaimsAreExclusive(states: seq<System>, actions: seq<Action>, n: nat, p: nat)
    requires IsRun(states, actions) && n < |states| && p in states[n].relays.passes
    ensures var (r, pass, events) := (states[n].relays, states[n].relays.passes[p], states[n].db.events);
      && Increasing(pass.claimed) && |pass.claimed| <= r.options.batchSize
      && (forall id <- pass.claimed :: id in events
            && events[id].publishedAt.None? && events[id].nextAttemptAt <= pass.start)
      && (forall q <- r.passes :: q != p ==> forall id <- pass.claimed :: id !in r.passes[q].claimed)
  {
    EveryStateKeeps(states, actions, n);
    hide IsRun, CallsOk, LogOk, CountsOk, TriesOk, ProgressOk, WritesOk;
    assert PassOk(states[n].relays.options, states[n].db.events, states[n].clock, states[n].relays.passes[p]);
  }

  /** Once published, a row is in no claim made from then on, nor in one still backed
      by its transaction. */
  lemma PublishedIsNeverClaimed(states: seq<System>, actions: seq<Action>, m: nat, n: nat, id: nat, p: nat)
    requires IsRun(states, actions) && m <= n < |states|
    requires id in states[m].db.events && states[m].db.events[id].publishedAt.Some?
    requires p in states[n].relays.passes
    ensures id !in states[n].relays.passes[p].claimed
  {
    NothingIsLost(states, actions, m, n);
    ClaimsAreExclusive(states, actions, n, p);
  }

  // ---- every delivery is accounted for ----

  /** How often an event was delivered in all. */
  function TimesDelivered(log: seq<Delivery>, id: nat): nat {
    if log == [] then 0 else TimesDelivered(log[..|log| - 1], id) + (if log[|log| - 1].serial == id then 1 else 0)
  }

  lemma {:induction false} AllPassesDeliver(log: seq<Delivery>, passes: set<nat>, id: nat)
    requires forall d <- log :: d.pass in passes
    ensures TimesDelivered(log, id) == Deliveries(log, passes, id)
  {
    if log != [] {
      assert log[|log| - 1] in log;
      AllPassesDeliver(log[..|log| - 1], passes, id);
    }
  }

  /** The passes that have sent an event. */
  function Senders(passes: map<nat, Pass>, id: nat): set<nat> {
    set p | p in passes && id in passes[p].sent
  }

  /** Each pass counts once for each event it has sent. */
  predicate CountedOnce(log: seq<Delivery>, passes: map<nat, Pass>, id: nat) {
    forall p <- passes :: Deliveries(log, {p}, id) == if id in passes[p].sent then 1 else 0
  }

  lemma SendersSplit(passes: map<nat, Pass>, p: nat, id: nat)
    requires p in passes
    ensures |Senders(passes, id)| == |Senders(passes - {p}, id)| + (if id in passes[p].sent then 1 else 0)
  {
    var others := passes - {p};
    if id in passes[p].sent {
      assert Senders(passes, id) == Senders(others, id) + {p} && p !in Senders(others, id);
    } else {
      assert Senders(passes, id) == Senders(others, id);
    }
  }

  lemma {:induction false} SendersDeliver(log: seq<Delivery>, passes: map<nat, Pass>, id: nat)
    requires CountedOnce(log, passes, id)
    ensures Deliveries(log, passes.Keys, id) == |Senders(passes, id)|
    decreases |passes|
  {
    hide Deliveries;
    if p :| p in passes {
      var others := passes - {p};
      assert others.Keys == passes.Keys - {p};
      SendersDeliver(log, others, id);
      SendersSplit(passes, p, id);
      hide Senders;
      DeliveriesSplit(log, {p}, others.Keys, id);
      assert {p} + others.Keys == passes.Keys;
    } else {
      NoDeliveries(log, {}, id);
    }
  }

  /** The passes with a transaction delivered an event at most once among them, and
      did so exactly when one of them has sent it, which is none once it is published. */
  lemma LivePassesDeliver(events: map<nat, EventRow>, clock: Instant, r: Relays, id: nat)
    requires RelaysOk(events, clock, r)
    ensures Deliveries(r.log, r.passes.Keys, id) == |Senders(r.passes, id)| <= 1
    ensures id in events && events[id].publishedAt.Some? ==> Senders(r.passes, id) == {}
  {
    hide TriesOk, LogOk, PassOk, Deliveries;
    SendersDeliver(r.log, r.passes, id);
    forall p <- r.passes
      ensures id in r.passes[p].sent ==> id in r.passes[p].claimed
      ensures id in r.passes[p].sent ==> id in events && events[id].publishedAt.None?
    {
      SentIsClaimed(r.options, events, clock, r.passes[p]);
    }
    hide PassesOk, CountsOk;
    if p :| p in Senders(r.passes, id) {
      assert Senders(r.passes, id) == {p};
    }
  }

  lemma SentIsClaimed(o: RelayOptions, events: map<nat, EventRow>, clock: Instant, pass: Pass)
    requires Usable(o) && PassOk(o, events, clock, pass)
    ensures forall id <- pass.sent :: id in pass.claimed && id in events && events[id].publishedAt.None?
  {
    hide WritesOk, RepliesKept;
  }

  lemma DeliveriesAddUp(events: map<nat, EventRow>, clock: Instant, r: Relays, id: nat)
    requires RelaysOk(events, clock, r) && id in events
    ensures TimesDelivered(r.log, id)
         == (if events[id].publishedAt.Some? then 1 else 0)
          + |Senders(r.gone, id)| + Deliveries(r.log, r.passes.Keys, id)
  {
    hide TriesOk, LiveOk, AllGoneOk, ClaimsExclude, Deliveries;
    var open, gone := r.passes.Keys, r.gone.Keys;
    SendersDeliver(r.log, r.gone, id);
    DeliveriesSplit(r.log, r.committed, gone, id);
    DeliveriesSplit(r.log, r.committed + gone, open, id);
    assert forall d <- r.log :: d.pass in r.committed + gone + open;
    AllPassesDeliver(r.log, r.committed + gone + open, id);
  }

  /** In every state of every run an event has been delivered once if its row is
      published, plus once for each pass without its transaction that has sent it,
      plus once if a pass with its transaction has; at most one of the latter has, and
      none once the row is published. */
  lemma DeliveryIsConserved(states: seq<System>, actions: seq<Action>, n: nat, id: nat)
    requires IsRun(states, actions) && n < |states| && id in states[n].db.events
    ensures var (r, row) := (states[n].relays, states[n].db.events[id]);
      && TimesDelivered(r.log, id)
           == (if row.publishedAt.Some? then 1 else 0) + |Senders(r.gone, id)| + |Senders(r.passes, id)|
      && |Senders(r.passes, id)| <= 1
      && (row.publishedAt.Some? ==> Senders(r.passes, id) == {})
  {
    hide IsRun, CallsOk, RelaysOk, Deliveries, TimesDelivered, Senders;
    EveryStateKeeps(states, actions, n);
    DeliveriesAddUp(states[n].db.events, states[n].clock, states[n].relays, id);
    LivePassesDeliver(states[n].db.events, states[n].clock, states[n].relays, id);
  }

  /** A published event was delivered. It was delivered once if published and never
      otherwise, exactly when no pass has sent it but the one that committed it. */
  lemma ExactlyOnceIffNoneLost(states: seq<System>, actions: seq<Action>, n: nat, id: nat)
    requires IsRun(states, actions) && n < |states| && id in states[n].db.events
    ensures var (r, row) := (states[n].relays, states[n].db.events[id]);
      && (row.publishedAt.Some? ==> TimesDelivered(r.log, id) >= 1)
      && (Senders(r.gone, id) == {} && Senders(r.passes, id) == {} <==>
            TimesDelivered(r.log, id) == if row.publishedAt.Some? then 1 else 0)
  {
    hide IsRun, TimesDelivered, Senders;
    DeliveryIsConserved(states, actions, n, id);
  }

  // ---- which runs deliver exactly once ----

  /** The action neither takes the transaction of a pass that has sent something, nor
      lets the publisher take an event from a pass without one. */
  predicate Harmless(s: System, a: Action) {
    && (a.LosePass? && a.pass in s.relays.passes ==> s.relays.passes[a.pass].sent == {})
    && (a.PublishLate? ==> !a.delivered)
  }

  predicate NothingSentIsGone(r: Relays) {
    forall p <- r.gone :: r.gone[p].sent == {}
  }

  lemma StepKeepsNothingSent(s: System, a: Action)
    requires Enabled(s, a) && NothingSentIsGone(s.relays)
    ensures NothingSentIsGone(Step(s, a).relays) <==> Harmless(s, a)
  {
    hide CommitCall, QueueEvent, InsertRow, SelectExisting, Finish, BeginCall, ClaimRows, MarkCurrent;
    hide NewTransactionReceived, Acceptable, Fits, EncodeRow, Delay, KeyOfTransaction;
    if a.LosePass? {
      assert a.pass in Step(s, a).relays.gone;
    } else if a.PublishLate? {
      assert a.pass in Step(s, a).relays.gone;
    }
  }

  /** What has been sent without a transaction stays so. */
  predicate GoneGrows(gone: map<nat, Pass>, after: map<nat, Pass>) {
    forall p <- gone :: p in after && gone[p].sent <= after[p].sent
  }

  lemma StepKeepsGone(s: System, a: Action)
    requires Enabled(s, a) && Inv(s)
    ensures GoneGrows(s.relays.gone, Step(s, a).relays.gone)
  {
    hide CallsOk, LogOk, CountsOk, TriesOk, LiveOk, AllGoneOk, ClaimsExclude;
    hide CommitCall, QueueEvent, InsertRow, SelectExisting, Finish, BeginCall, ClaimRows, MarkCurrent;
    hide NewTransactionReceived, Acceptable, Fits, EncodeRow, Delay, KeyOfTransaction;
  }

  lemma {:induction false} RunKeepsGone(states: seq<System>, actions: seq<Action>, m: nat, n: nat)
    requires IsRun(states, actions) && m <= n < |states|
    ensures GoneGrows(states[m].relays.gone, states[n].relays.gone)
    decreases n - m
  {
    hide Enabled, Step, Inv, Init;
    if m < n {
      RunKeepsGone(states, actions, m, n - 1);
      EveryStateKeeps(states, actions, n - 1);
      StepKeepsGone(states[n - 1], actions[n - 1]);
    }
  }

  /** Nothing sent is without its transaction exactly when every action so far was
      harmless. */
  lemma {:induction false} NothingSentIsGoneIffHarmless(states: seq<System>, actions: seq<Action>, n: nat)
    requires IsRun(states, actions) && n < |states|
    ensures NothingSentIsGone(states[n].relays) <==> forall i :: 0 <= i < n ==> Harmless(states[i], actions[i])
  {
    hide Enabled, Step, Inv, Harmless;
    if n == 0 {
      assert states[0].relays.gone == map[];
    } else {
      hide Init;
      NothingSentIsGoneIffHarmless(states, actions, n - 1);
      if NothingSentIsGone(states[n - 1].relays) {
        StepKeepsNothingSent(states[n - 1], actions[n - 1]);
      } else {
        RunKeepsGone(states, actions, n - 1, n);
      }
    }
  }

  /** Delivered once if published or sent by a pass with its transaction, and never
      otherwise. */
  predicate DeliveredOnce(db: Database, r: Relays, id: nat)
    requires id in db.events
  {
    TimesDelivered(r.log, id) == if db.events[id].publishedAt.Some? || Senders(r.passes, id) != {} then 1 else 0
  }

  /** A run delivers every event exactly once, as soon as it is published or sent and
      never otherwise, exactly when it takes no transaction from a pass that has sent
      something and no pass without one gets an event taken. Passes may lose their
      transaction before they send, and relays may find nothing to do. */
  lemma ExactlyOnceIffHarmless(states: seq<System>, actions: seq<Action>, n: nat)
    requires IsRun(states, actions) && n < |states|
    ensures (forall id <- states[n].db.events :: DeliveredOnce(states[n].db, states[n].relays, id))
      <==> forall i :: 0 <= i < n ==> Harmless(states[i], actions[i])
  {
    hide IsRun, TimesDelivered, Harmless;
    var (db, r) := (states[n].db, states[n].relays);
    NothingSentIsGoneIffHarmless(states, actions, n);
    forall id <- db.events
      ensures DeliveredOnce(db, r, id) <==> Senders(r.gone, id) == {}
    {
      DeliveryIsConserved(states, actions, n, id);
      hide Senders;
      assert |Senders(r.passes, id)| == if Senders(r.passes, id) != {} then 1 else 0;
    }
    EveryStateKeeps(states, actions, n);
    GoneSentIsQueued(states[n]);
    hide Inv, DeliveredOnce;
    if p :| p in r.gone && r.gone[p].sent != {} {
      var id :| id in r.gone[p].sent;
      assert p in Senders(r.gone, id);
    }
  }

  lemma GoneSentIsQueued(s: System)
    requires Inv(s)
    ensures forall p <- s.relays.gone :: s.relays.gone[p].sent <= s.db.events.Keys
  {
    hide CallsOk, LogOk, CountsOk, TriesOk, LiveOk, ClaimsExclude;
    forall p <- s.relays.gone
      ensures s.relays.gone[p].sent <= s.db.events.Keys
    {
      assert GoneOk(s.relays.options, s.db.events, s.relays.gone[p]);
    }
  }

  // ---- the retry schedule ----

  /** In every state a row's attempts are its committed tries, each of which began
      only after the delay owed for every try before it; and a pass that holds the
      row under its transaction now began after all of those delays too. The row keeps
      the publisher's error from its last try, and none when that was taken. */
  lemma RetriesWaitTheirDelay(states: seq<System>, actions: seq<Action>, n: nat, id: nat)
    requires IsRun(states, actions) && n < |states| && id in states[n].db.events
    ensures var (r, row) := (states[n].relays, states[n].db.events[id]);
      var tries := TriesOf(r, id);
      && row.attempts == |tries| && Usable(r.options) && Spaced(r.options, tries)
      && (forall i :: 0 <= i < |tries| && tries[i].reply.None? ==> i == |tries| - 1)
      && (row.publishedAt.Some? <==> |tries| > 0 && tries[|tries| - 1].reply.None?)
      && row.lastError == (if tries == [] then None else tries[|tries| - 1].reply)
      && (forall p <- r.passes :: id in r.passes[p].claimed ==>
            forall i :: 0 <= i < |tries| ==> r.passes[p].start >= tries[i].start + Delay(r.options, i + 1))
  {
    hide IsRun, CallsOk, RelaysOk, Delay, Spaced, TriesFit;
    EveryStateKeeps(states, actions, n);
    TriesOfRow(states[n].db.events, states[n].clock, states[n].relays, id);
    var (r, row) := (states[n].relays, states[n].db.events[id]);
    forall p <- r.passes | id in r.passes[p].claimed
      ensures forall i :: 0 <= i < |TriesOf(r, id)| ==>
        r.passes[p].start >= TriesOf(r, id)[i].start + Delay(r.options, i + 1)
    {
      ClaimsAreExclusive(states, actions, n, p);
      DueIsSpaced(r.options, row, TriesOf(r, id), r.passes[p].start);
    }
  }

  lemma TriesOfRow(events: map<nat, EventRow>, clock: Instant, r: Relays, id: nat)
    requires RelaysOk(events, clock, r) && id in events
    ensures var row, tries := events[id], TriesOf(r, id);
      && Usable(r.options) && TriesFit(r.options, row, tries) && row.attempts == |tries| && Spaced(r.options, tries)
      && (forall i :: 0 <= i < |tries| && tries[i].reply.None? ==> i == |tries| - 1)
      && (row.publishedAt.Some? <==> |tries| > 0 && tries[|tries| - 1].reply.None?)
      && row.lastError == (if tries == [] then None else tries[|tries| - 1].reply)
  {
    hide PassesOk, LogOk, CountsOk, ClaimsExclude, Delay;
  }

  // ---- end to end ----

  /** Once a caller has been answered, from then on its record is committed, its
      event row exists, and the event is either still unpublished in the table or
      has been delivered. */
  lemma AcknowledgedIsDeliveredOrPending(states: seq<System>, actions: seq<Action>, m: nat, n: nat, c: nat)
    requires IsRun(states, actions) && m <= n < |states|
    requires c in states[m].calls.replies && states[m].calls.replies[c].answer.Answered?
    ensures c < |states[m].calls.submitted|
    ensures var (db, log) := (states[n].db, states[n].relays.log);
      var key := KeyOfTransaction(states[m].calls.submitted[c].tx);
      && key in db.transactions
      && exists id :: Announces(db.events, id, key) && (db.events[id].publishedAt.None? || TimesDelivered(log, id) >= 1)
  {
    hide IsRun, Keeps, Matches, TimesDelivered, KeyOfEvent, Deliveries, Senders, KeyOfTransaction, AsStored;
    hide SameBilling;
    AnswersAreRight(states, actions, m, c);
    NothingIsLost(states, actions, m, n);
    var key := KeyOfTransaction(states[m].calls.submitted[c].tx);
    RecordStays(states[m].db, states[n].db, key);
    OneEventPerTransaction(states, actions, n);
    var id :| Announces(states[n].db.events, id, key);
    ExactlyOnceIffNoneLost(states, actions, n, id);
  }

  lemma RecordStays(db: Database, db': Database, key: Key)
    requires Keeps(db, db') && key in db.transactions
    ensures key in db'.transactions
  {
  }

  /** Every delivered event says what its committed row says, to the amount. */
  lemma DeliveredIsStored(states: seq<System>, actions: seq<Action>, n: nat, d: Delivery)
    requires IsRun(states, actions) && n < |states| && d in states[n].relays.log
    ensures KeyOfEvent(d.event) in states[n].db.transactions
    ensures Agrees(d.event, states[n].db.transactions[KeyOfEvent(d.event)])
  {
    hide IsRun, KeyOfEvent, Acceptable, EncodeRow, NewTransactionReceived, Agrees;
    LogIsOneToOne(states, actions, n);
    var row := states[n].db.transactions[KeyOfEvent(d.event)];
    var tx :| Acceptable(tx) && row == EncodeRow(tx) && NewTransactionReceived(tx, d.event.id) == Some(d.event);
    EventAgreesWithRow(tx, d.event.id);
  }
}
