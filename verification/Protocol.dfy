/** The database, the ingest calls and the relay passes as one transition system.
    Any number of calls and passes run at once; between any two statements a
    caller may be gone and a database transaction may be lost. Statements see the
    latest committed state, as under READ COMMITTED. */
module Protocol {
  import opened Text
  import opened Calendar
  import opened Transactions
  import opened Fingerprints
  import opened Rows
  import opened MemoryStore
  import opened Outbox

  /** The committed tables. Transactions are unique on their key; events are
      listed by serial id. A serial is drawn from a sequence that never goes back. */
  datatype Database = Database(
    transactions: map<Key, TransactionRow>,
    events: map<nat, EventRow>,
    nextSerial: nat)

  // ---- ingest calls ----

  /** How far an open ingest transaction has come. Rows it has written are still
      invisible to others, but its key is locked. */
  datatype Phase =
    | Begun
    | Inserted(row: TransactionRow)
    | Queued(row: TransactionRow, serial: nat, event: EventRow)
    | Conflicted
    | Found(outcome: IngestOutcome)

  datatype Open = Open(startedAt: Instant, phase: Phase)

  datatype Cause = NotFound | Unreadable | Refused

  datatype Answer = Answered(outcome: IngestOutcome) | Errored(cause: Cause)

  /** A submitted transaction, and how much history there was when it came. */
  datatype Submitted = Submitted(tx: Transaction, after: nat)

  /** What a caller was told, and how much history there was by then. */
  datatype Reply = Reply(answer: Answer, upTo: nat)

  /** One step of the sequential run that the calls amount to. */
  datatype Linearized = Linearized(call: nat, tx: Transaction, outcome: IngestOutcome)

  /** Calls are numbered as they come. The history and the memory are a record
      kept for the proof: which in-memory call each call stands for, in order. */
  datatype Calls = Calls(
    submitted: seq<Submitted>,
    open: map<nat, Open>,
    replies: map<nat, Reply>,
    transactionIds: set<Uuid>,
    eventIds: set<Uuid>,
    history: seq<Linearized>,
    memory: Memory)

  // ---- relay passes ----

  /** Where a pass is: before its claim, between events, or with the publisher's
      answer for the current event not yet written down. What the publisher took and
      what it refused, with its errors, is kept. */
  datatype Stage = Opened | Ready | Told(delivered: bool, error: string)

  datatype Pass = Pass(
    start: Instant,
    stage: Stage,
    claimed: seq<nat>,
    seen: map<nat, EventRow>,
    done: nat,
    sent: set<nat>,
    writes: map<nat, EventRow>,
    refused: map<nat, string>)

  /** A publish that succeeded. */
  datatype Delivery = Delivery(pass: nat, serial: nat, event: Event)

  /** A committed try at an event: the publisher's error, or none when it took it. */
  datatype Try = Try(pass: nat, start: Instant, reply: Option<string>)

  /** Passes are numbered as they begin. Those in passes have their transaction, and
      with it the locks on what they claimed. Those in gone have lost it, by a failed
      statement or with their session, and the locks with it, though their loop may go
      on publishing. A pass that found nothing to claim ends idle. The log and the
      tries are a record kept for the proof. */
  datatype Relays = Relays(
    options: RelayOptions,
    passes: map<nat, Pass>,
    gone: map<nat, Pass>,
    nextPass: nat,
    committed: set<nat>,
    idle: set<nat>,
    log: seq<Delivery>,
    tries: map<nat, seq<Try>>)

  datatype System = System(db: Database, clock: Instant, calls: Calls, relays: Relays)

  datatype Action =
    | Tick(to: Instant)
    | Begin(tx: Transaction)
    | Insert(call: nat)
    | Queue(call: nat, eventId: Uuid)
    | Select(call: nat)
    | Commit(call: nat)
    | Abandon(call: nat)
    | Rollback(call: nat)
    | BeginPass
    | Claim(pass: nat)
    | Publish(pass: nat, delivered: bool, error: string)
    | Mark(pass: nat)
    | CommitPass(pass: nat)
    | EndPass(pass: nat)
    | LosePass(pass: nat)
    | PublishLate(pass: nat, delivered: bool)

  predicate Init(s: System) {
    && s.db == Database(map[], map[], 0)
    && s.calls == Calls([], map[], map[], {}, {}, [], EMPTY)
    && s.relays == Relays(s.relays.options, map[], map[], 0, {}, {}, [], map[])
    && Usable(s.relays.options)
  }

  // ---- steps of a call ----

  /** An uncommitted insert holds its key. */
  predicate Holds(g: Calls, c: nat, key: Key)
    requires c in g.open && c < |g.submitted|
  {
    (g.open[c].phase.Inserted? || g.open[c].phase.Queued?) && KeyOfTransaction(g.submitted[c].tx) == key
  }

  predicate KeyIsFree(g: Calls, key: Key)
    requires forall c <- g.open :: c < |g.submitted|
  {
    forall c <- g.open :: !Holds(g, c, key)
  }

  predicate CallsNumbered(g: Calls) {
    forall c <- g.open :: c < |g.submitted|
  }

  /** The call is open, at the given point, and its caller has not gone. */
  predicate Live(g: Calls, c: nat) {
    c in g.open && c !in g.replies
  }

  /** The transaction ends; the caller is answered unless it has gone already. */
  function Finish(g: Calls, c: nat, answer: Answer): Calls {
    g.(open := g.open - {c},
       replies := if c in g.replies then g.replies else g.replies[c := Reply(answer, |g.history|)])
  }

  function At(g: Calls, c: nat, phase: Phase): Calls
    requires c in g.open
  {
    g.(open := g.open[c := g.open[c].(phase := phase)])
  }

  /** The next in-memory call of the sequential run. */
  function Linearize(g: Calls, c: nat): Calls
    requires c < |g.submitted| && g.memory.byKey.Keys == g.memory.fingerprints.Keys
  {
    var tx := g.submitted[c].tx;
    var (memory, outcome) := Ingest(g.memory, tx);
    g.(history := g.history + [Linearized(c, tx, outcome)], memory := memory)
  }

  function BeginCall(s: System, tx: Transaction): Calls {
    var g := s.calls;
    g.(submitted := g.submitted + [Submitted(tx, |g.history|)],
       open := g.open[|g.submitted| := Open(s.clock, Begun)],
       transactionIds := g.transactionIds + {tx.id})
  }

  /** A row that breaks a constraint fails its statement. An insert on a locked key
      waits, so it has no step. A committed key yields no row; otherwise the row is
      ours until the transaction ends. */
  function InsertRow(s: System, c: nat): Calls
    requires c in s.calls.open && c < |s.calls.submitted|
  {
    var tx := s.calls.submitted[c].tx;
    var row := EncodeRow(tx);
    if !Fits(row) then Finish(s.calls, c, Errored(Refused))
    else if KeyOfTransaction(tx) in s.db.transactions then At(s.calls, c, Conflicted)
    else At(s.calls, c, Inserted(row))
  }

  /** Writes the event in the same transaction; failing to build it ends the call. */
  function QueueEvent(s: System, c: nat, eventId: Uuid): (Database, Calls)
    requires c in s.calls.open && c < |s.calls.submitted| && s.calls.open[c].phase.Inserted?
  {
    var event := NewTransactionReceived(s.calls.submitted[c].tx, eventId);
    if event.None? then (s.db, Finish(s.calls, c, Errored(Refused)))
    else
      var row := EventRow(event.value, None, 0, None, s.calls.open[c].startedAt);
      var g := At(s.calls, c, Queued(s.calls.open[c].phase.row, s.db.nextSerial, row));
      (s.db.(nextSerial := s.db.nextSerial + 1), g.(eventIds := g.eventIds + {eventId}))
  }

  /** Reads back the record a conflict ran into. This is where a duplicate counts. */
  function SelectExisting(s: System, c: nat): Calls
    requires c in s.calls.open && c < |s.calls.submitted|
    requires s.calls.memory.byKey.Keys == s.calls.memory.fingerprints.Keys
  {
    var tx := s.calls.submitted[c].tx;
    var key := KeyOfTransaction(tx);
    if key !in s.db.transactions then Finish(s.calls, c, Errored(NotFound))
    else match DecodeRow(s.db.transactions[key])
      case Err(_) => Finish(s.calls, c, Errored(Unreadable))
      case Ok((existing, stored)) =>
        At(Linearize(s.calls, c), c, Found(IngestOutcome(existing, true, stored != Fingerprint(tx))))
  }

  /** Both rows become visible at once, or the read-only transaction just ends. */
  function CommitCall(s: System, c: nat): (Database, Calls)
    requires c in s.calls.open && c < |s.calls.submitted|
    requires s.calls.memory.byKey.Keys == s.calls.memory.fingerprints.Keys
    requires s.calls.open[c].phase.Queued? || s.calls.open[c].phase.Found?
  {
    var tx := s.calls.submitted[c].tx;
    match s.calls.open[c].phase
    case Queued(row, serial, event) =>
      (s.db.(transactions := s.db.transactions[KeyOfTransaction(tx) := row], events := s.db.events[serial := event]),
       Finish(Linearize(s.calls, c), c, Answered(IngestOutcome(tx, false, false))))
    case Found(outcome) =>
      (s.db, Finish(s.calls, c, Answered(outcome)))
  }

  // ---- steps of a pass ----

  /** The pass has an event in hand. */
  predicate AtEvent(passes: map<nat, Pass>, p: nat) {
    && p in passes
    && passes[p].done < |passes[p].claimed|
    && passes[p].claimed[passes[p].done] in passes[p].seen
  }

  function Locked(r: Relays): set<nat> {
    set p, id | p in r.passes && id in r.passes[p].claimed :: id
  }

  function ClaimRows(s: System, p: nat): Pass
    requires p in s.relays.passes && Usable(s.relays.options)
  {
    var pass := s.relays.passes[p];
    var ids := ClaimFrom(s.db.events, Locked(s.relays), pass.start, 0, s.db.nextSerial, s.relays.options.batchSize);
    pass.(stage := Ready, claimed := ids, seen := map id | id in ids && id in s.db.events :: s.db.events[id])
  }

  /** The publisher takes the current event or refuses it. */
  function PublishNext(r: Relays, p: nat, delivered: bool, error: string): Relays
    requires AtEvent(r.passes, p)
  {
    var pass := r.passes[p];
    var id := pass.claimed[pass.done];
    var told := pass.(stage := Told(delivered, error),
                      sent := if delivered then pass.sent + {id} else pass.sent,
                      refused := if delivered then pass.refused else pass.refused[id := error]);
    r.(passes := r.passes[p := told],
       log := if delivered then r.log + [Delivery(p, id, pass.seen[id].event)] else r.log)
  }

  /** Writes down the answer. */
  function MarkCurrent(s: System, p: nat): Pass
    requires p in s.relays.passes && Usable(s.relays.options)
    requires var pass := s.relays.passes[p];
      && pass.stage.Told? && pass.done < |pass.claimed|
      && pass.claimed[pass.done] in pass.seen && pass.claimed[pass.done] in s.db.events
  {
    var pass := s.relays.passes[p];
    var id := pass.claimed[pass.done];
    var row := s.db.events[id];
    var written := if pass.stage.delivered then MarkPublished(row, pass.start)
      else MarkFailed(row, pass.start, pass.stage.error, Delay(s.relays.options, pass.seen[id].attempts + 1));
    pass.(stage := Ready, done := pass.done + 1, writes := pass.writes[id := written])
  }

  /** A pass without its transaction: nothing it wrote is left, the mark it was about
      to make fails, and its loop stands at the next event. */
  function WithoutTransaction(pass: Pass): Pass {
    pass.(stage := Ready, done := if pass.stage.Told? then pass.done + 1 else pass.done, writes := map[])
  }

  /** The transaction ends uncommitted, at any point: a statement or the commit has
      failed, or the session has ended. Its locks are free from here on. */
  function LoseTransaction(r: Relays, p: nat): Relays
    requires p in r.passes
  {
    r.(passes := r.passes - {p}, gone := r.gone[p := WithoutTransaction(r.passes[p])])
  }

  /** The loop of a pass without its transaction publishes its next event all the
      same; the mark that follows fails and touches nothing. */
  function PublishWithout(r: Relays, p: nat, delivered: bool): Relays
    requires AtEvent(r.gone, p)
  {
    var pass := r.gone[p];
    var id := pass.claimed[pass.done];
    var next := pass.(done := pass.done + 1, sent := if delivered then pass.sent + {id} else pass.sent);
    r.(gone := r.gone[p := next],
       log := if delivered then r.log + [Delivery(p, id, pass.seen[id].event)] else r.log)
  }

  /** What the publisher said of an event. */
  function ReplyOf(pass: Pass, id: nat): Option<string> {
    if id in pass.refused then Some(pass.refused[id]) else None
  }

  function TriesOf(r: Relays, id: nat): seq<Try> {
    if id in r.tries then r.tries[id] else []
  }

  function CommitWrites(s: System, p: nat): System
    requires p in s.relays.passes
  {
    var r, pass := s.relays, s.relays.passes[p];
    s.(db := s.db.(events := s.db.events + pass.writes),
       relays := r.(passes := r.passes - {p}, committed := r.committed + {p},
                    tries := r.tries + (map id | id in pass.writes ::
                      TriesOf(r, id) + [Try(p, pass.start, ReplyOf(pass, id))])))
  }

  // ---- the transition system ----

  predicate Enabled(s: System, a: Action) {
    && CallsNumbered(s.calls)
    && s.calls.memory.byKey.Keys == s.calls.memory.fingerprints.Keys
    && Usable(s.relays.options)
    && match a
       case Tick(to) => s.clock <= to
       case Begin(tx) => Acceptable(tx) && tx.id !in s.calls.transactionIds
       case Insert(c) => Live(s.calls, c) && s.calls.open[c].phase.Begun?
                         && (Fits(EncodeRow(s.calls.submitted[c].tx)) ==>
                               KeyIsFree(s.calls, KeyOfTransaction(s.calls.submitted[c].tx)))
       case Queue(c, eventId) => Live(s.calls, c) && s.calls.open[c].phase.Inserted? && eventId !in s.calls.eventIds
       case Select(c) => Live(s.calls, c) && s.calls.open[c].phase.Conflicted?
       case Commit(c) => c in s.calls.open
                         && (s.calls.open[c].phase.Queued? || (s.calls.open[c].phase.Found? && c !in s.calls.replies))
       case Abandon(c) => Live(s.calls, c)
       case Rollback(c) => c in s.calls.open
       case BeginPass => true
       case Claim(p) => p in s.relays.passes && s.relays.passes[p].stage.Opened?
       case Publish(p, _, _) => AtEvent(s.relays.passes, p) && s.relays.passes[p].stage.Ready?
       case Mark(p) => AtEvent(s.relays.passes, p) && s.relays.passes[p].stage.Told?
                       && s.relays.passes[p].claimed[s.relays.passes[p].done] in s.db.events
       case CommitPass(p) => p in s.relays.passes && s.relays.passes[p].stage.Ready?
                             && s.relays.passes[p].done == |s.relays.passes[p].claimed| != 0
       case EndPass(p) => p in s.relays.passes && s.relays.passes[p].stage.Ready? && s.relays.passes[p].claimed == []
       case LosePass(p) => p in s.relays.passes
       case PublishLate(p, _) => AtEvent(s.relays.gone, p)
  }

  function Step(s: System, a: Action): System
    requires Enabled(s, a)
  {
    var g, r := s.calls, s.relays;
    match a
    case Tick(to) => s.(clock := to)
    case Begin(tx) => s.(calls := BeginCall(s, tx))
    case Insert(c) => s.(calls := InsertRow(s, c))
    case Queue(c, eventId) => var (db, after) := QueueEvent(s, c, eventId); s.(db := db, calls := after)
    case Select(c) => s.(calls := SelectExisting(s, c))
    case Commit(c) => var (db, after) := CommitCall(s, c); s.(db := db, calls := after)
    case Abandon(c) => s.(calls := g.(replies := g.replies[c := Reply(Errored(Refused), |g.history|)]))
    case Rollback(c) => s.(calls := Finish(g, c, Errored(Refused)))
    case BeginPass =>
      var pass := Pass(s.clock, Opened, [], map[], 0, {}, map[], map[]);
      s.(relays := r.(passes := r.passes[r.nextPass := pass], nextPass := r.nextPass + 1))
    case Claim(p) => s.(relays := r.(passes := r.passes[p := ClaimRows(s, p)]))
    case Publish(p, delivered, error) => s.(relays := PublishNext(r, p, delivered, error))
    case Mark(p) => s.(relays := r.(passes := r.passes[p := MarkCurrent(s, p)]))
    case CommitPass(p) => CommitWrites(s, p)
    case EndPass(p) => s.(relays := r.(passes := r.passes - {p}, idle := r.idle + {p}))
    case LosePass(p) => s.(relays := LoseTransaction(r, p))
    case PublishLate(p, delivered) => s.(relays := PublishWithout(r, p, delivered))
  }

  /** A run: an initial state, and then one enabled action after another. */
  ghost predicate IsRun(states: seq<System>, actions: seq<Action>) {
    && |states| == |actions| + 1 && Init(states[0])
    && forall i :: 0 <= i < |actions| ==> Enabled(states[i], actions[i]) && states[i + 1] == Step(states[i], actions[i])
  }
}
