/** What every step keeps about relay passes: exclusive claims, counted
    deliveries, and the retry schedule. */
module RelayProofs {
  import opened Text
  import opened Calendar
  import opened Outbox
  import opened Protocol

  // ---- counting deliveries ----

  /** How often the event was delivered by one of the given passes. */
  function Deliveries(log: seq<Delivery>, passes: set<nat>, id: nat): nat {
    if log == [] then 0
    else Deliveries(log[..|log| - 1], passes, id)
         + (if log[|log| - 1].pass in passes && log[|log| - 1].serial == id then 1 else 0)
  }

  lemma DeliveriesAppend(log: seq<Delivery>, d: Delivery, passes: set<nat>, id: nat)
    ensures Deliveries(log + [d], passes, id)
         == Deliveries(log, passes, id) + (if d.pass in passes && d.serial == id then 1 else 0)
  {
    assert (log + [d])[..|log|] == log;
  }

  lemma {:induction false} DeliveriesSplit(log: seq<Delivery>, a: set<nat>, b: set<nat>, id: nat)
    requires a !! b
    ensures Deliveries(log, a + b, id) == Deliveries(log, a, id) + Deliveries(log, b, id)
  {
    if log != [] {
      DeliveriesSplit(log[..|log| - 1], a, b, id);
    }
  }

  lemma {:induction false} NoDeliveries(log: seq<Delivery>, passes: set<nat>, id: nat)
    requires forall d <- log :: d.pass !in passes || d.serial != id
    ensures Deliveries(log, passes, id) == 0
  {
    if log != [] {
      assert log[|log| - 1] in log;
      NoDeliveries(log[..|log| - 1], passes, id);
    }
  }

  lemma {:induction false} LoggedIsCounted(log: seq<Delivery>, d: Delivery)
    requires d in log
    ensures Deliveries(log, {d.pass}, d.serial) >= 1
  {
    if d != log[|log| - 1] {
      assert d in log[..|log| - 1];
      LoggedIsCounted(log[..|log| - 1], d);
    }
  }

  // ---- invariants ----

  /** The ids a pass is through with. */
  function Processed(pass: Pass): set<nat> {
    set i | 0 <= i < pass.done && i < |pass.claimed| :: pass.claimed[i]
  }

  /** The ids a pass may have delivered so far. */
  function Handled(pass: Pass): set<nat> {
    if pass.stage.Told? && pass.stage.delivered && pass.done < |pass.claimed|
    then Processed(pass) + {pass.claimed[pass.done]} else Processed(pass)
  }

  /** A claimed row is as it was when it was claimed: unpublished and due. */
  predicate ClaimOk(events: map<nat, EventRow>, pass: Pass) {
    && Increasing(pass.claimed)
    && forall i :: 0 <= i < |pass.claimed| ==>
      && pass.claimed[i] in events && pass.claimed[i] in pass.seen
      && pass.seen[pass.claimed[i]] == events[pass.claimed[i]] && Due(events[pass.claimed[i]], pass.start)
  }

  /** Each event the pass is through with was taken or refused, never both. */
  predicate RepliesKept(pass: Pass) {
    && (forall id <- pass.refused :: id !in pass.sent)
    && (forall id <- pass.refused :: id in Processed(pass) || (pass.stage.Told? && id == Current(pass)))
    && (forall id <- Processed(pass) :: id in pass.sent || id in pass.refused)
    && (pass.stage.Told? && !pass.stage.delivered ==>
          Current(pass) in pass.refused && pass.refused[Current(pass)] == pass.stage.error)
  }

  function Current(pass: Pass): nat {
    if pass.done < |pass.claimed| then pass.claimed[pass.done] else 0
  }

  predicate ProgressOk(pass: Pass) {
    && (pass.stage.Opened? ==> pass.claimed == [] && pass.done == 0)
    && (pass.stage.Told? ==> pass.done < |pass.claimed|) && pass.done <= |pass.claimed|
    && pass.sent <= Handled(pass)
    && (pass.stage.Told? && pass.stage.delivered ==> pass.claimed[pass.done] in pass.sent)
    && pass.writes.Keys == Processed(pass)
    && RepliesKept(pass)
  }

  predicate WritesOk(o: RelayOptions, events: map<nat, EventRow>, pass: Pass)
    requires Usable(o)
  {
    forall id <- pass.writes :: id in events && Marked(o, events[id], pass.writes[id], pass.start, ReplyOf(pass, id))
  }

  predicate PassOk(o: RelayOptions, events: map<nat, EventRow>, clock: Instant, pass: Pass)
    requires Usable(o)
  {
    && pass.start <= clock && |pass.claimed| <= o.batchSize
    && ClaimOk(events, pass) && ProgressOk(pass) && WritesOk(o, events, pass)
  }

  /** A pass without its transaction knows the events it claimed, whatever has become
      of their rows since, and has delivered only those it is through with. */
  predicate GoneOk(o: RelayOptions, events: map<nat, EventRow>, pass: Pass) {
    && Increasing(pass.claimed) && |pass.claimed| <= o.batchSize && pass.done <= |pass.claimed|
    && pass.sent <= Processed(pass)
    && forall i :: 0 <= i < |pass.claimed| ==>
      && pass.claimed[i] in events && pass.claimed[i] in pass.seen
      && pass.seen[pass.claimed[i]].event == events[pass.claimed[i]].event
  }

  predicate LiveOk(o: RelayOptions, events: map<nat, EventRow>, clock: Instant, passes: map<nat, Pass>)
    requires Usable(o)
  {
    forall p <- passes :: PassOk(o, events, clock, passes[p])
  }

  predicate AllGoneOk(o: RelayOptions, events: map<nat, EventRow>, gone: map<nat, Pass>) {
    forall p <- gone :: GoneOk(o, events, gone[p])
  }

  /** Every pass is in one place. */
  predicate NumbersOk(nextPass: nat, passes: set<nat>, gone: set<nat>, committed: set<nat>, idle: set<nat>) {
    && (forall p <- passes :: p < nextPass && p !in committed && p !in gone)
    && (forall p <- gone :: p < nextPass && p !in committed)
    && (forall p <- committed :: p < nextPass)
    && (forall p <- idle :: p < nextPass && p !in passes && p !in gone && p !in committed)
  }

  predicate PassesOk(events: map<nat, EventRow>, clock: Instant, r: Relays)
    requires Usable(r.options)
  {
    && LiveOk(r.options, events, clock, r.passes) && AllGoneOk(r.options, events, r.gone)
    && NumbersOk(r.nextPass, r.passes.Keys, r.gone.Keys, r.committed, r.idle)
  }

  /** No event is claimed by two open passes. */
  predicate ClaimsExclude(passes: map<nat, Pass>) {
    forall p <- passes, q <- passes :: p != q ==> forall id <- passes[p].claimed :: id !in passes[q].claimed
  }

  /** Only rows of the table are delivered, each with its own event. */
  predicate LogOk(events: map<nat, EventRow>, nextPass: nat, log: seq<Delivery>) {
    forall d <- log :: d.pass < nextPass && d.serial in events && d.event == events[d.serial].event
  }

  /** A pass, with its transaction or without, delivers each event at most once, and
      exactly those in sent; the committed passes delivered exactly the published
      events, once each; the idle passes delivered none. */
  ghost predicate CountsOk(events: map<nat, EventRow>, r: Relays) {
    && (forall p: nat, id: nat :: p in r.passes ==>
          Deliveries(r.log, {p}, id) == if id in r.passes[p].sent then 1 else 0)
    && (forall p: nat, id: nat :: p in r.gone ==>
          Deliveries(r.log, {p}, id) == if id in r.gone[p].sent then 1 else 0)
    && (forall id <- events ::
          Deliveries(r.log, r.committed, id) == if events[id].publishedAt.Some? then 1 else 0)
    && (forall d <- r.log :: d.pass in r.passes || d.pass in r.gone || d.pass in r.committed)
  }

  /** Each try waits out the delay after every try before it. */
  predicate Spaced(o: RelayOptions, tries: seq<Try>)
    requires Usable(o)
  {
    forall i, j :: 0 <= i < j < |tries| ==> tries[j].start >= tries[i].start + Delay(o, i + 1)
  }

  predicate TriesFit(o: RelayOptions, row: EventRow, tries: seq<Try>)
    requires Usable(o)
  {
    var n := |tries|;
    && n == row.attempts && Spaced(o, tries)
    && (forall i :: 0 <= i < n - 1 ==> tries[i].reply.Some?)
    && (n == 0 ==> row.publishedAt.None? && row.lastError.None?)
    && (n > 0 ==> row.lastError == tries[n - 1].reply)
    && (n > 0 ==> row.publishedAt == if tries[n - 1].reply.None? then Some(tries[n - 1].start) else None)
    && (n > 0 && tries[n - 1].reply.Some? ==> row.nextAttemptAt == tries[n - 1].start + Delay(o, n))
  }

  predicate TriesOk(events: map<nat, EventRow>, r: Relays)
    requires Usable(r.options)
  {
    && r.tries.Keys <= events.Keys
    && forall id <- events :: TriesFit(r.options, events[id], TriesOf(r, id))
  }

  ghost predicate RelaysOk(events: map<nat, EventRow>, clock: Instant, r: Relays) {
    && Usable(r.options)
    && PassesOk(events, clock, r) && ClaimsExclude(r.passes)
    && LogOk(events, r.nextPass, r.log) && CountsOk(events, r) && TriesOk(events, r)
  }

  // ---- steps outside the relay ----

  lemma TickKeeps(events: map<nat, EventRow>, clock: Instant, r: Relays, to: Instant)
    requires RelaysOk(events, clock, r) && clock <= to
    ensures RelaysOk(events, to, r)
  {
    hide ClaimOk, ProgressOk, WritesOk, CountsOk, TriesOk, LogOk, ClaimsExclude;
  }

  /** A newly committed event is unpublished, untried and unclaimed. */
  lemma NewEventKeeps(events: map<nat, EventRow>, clock: Instant, r: Relays, serial: nat, row: EventRow)
    requires RelaysOk(events, clock, r) && serial !in events
    requires row.publishedAt.None? && row.attempts == 0 && row.lastError.None?
    ensures RelaysOk(events[serial := row], clock, r)
  {
    hide ProgressOk, ClaimsExclude, Marked, TriesFit, RepliesKept, Increasing;
    var after := events[serial := row];
    assert serial !in r.tries;
    assert TriesFit(r.options, row, []) by {
      NoTriesFit(r.options, row);
    }
    NoDeliveries(r.log, r.committed, serial);
    forall p <- r.passes
      ensures PassOk(r.options, after, clock, r.passes[p])
    {
      assert PassOk(r.options, events, clock, r.passes[p]);
    }
  }

  lemma NoTriesFit(o: RelayOptions, row: EventRow)
    requires Usable(o) && row.publishedAt.None? && row.attempts == 0 && row.lastError.None?
    ensures TriesFit(o, row, [])
  {
  }

  // ---- steps of a pass ----

  function FreshPass(start: Instant): Pass {
    Pass.Pass(start, Opened, [], map[], 0, {}, map[], map[])
  }

  lemma FreshPassOk(o: RelayOptions, events: map<nat, EventRow>, clock: Instant)
    requires Usable(o)
    ensures PassOk(o, events, clock, FreshPass(clock))
  {
    hide Due, Marked;
    assert Processed(FreshPass(clock)) == {};
  }

  function WithFreshPass(r: Relays, clock: Instant): Relays {
    r.(passes := r.passes[r.nextPass := FreshPass(clock)], nextPass := r.nextPass + 1)
  }

  lemma BeginPassKeepsCounts(events: map<nat, EventRow>, clock: Instant, r: Relays)
    requires LogOk(events, r.nextPass, r.log) && CountsOk(events, r)
    ensures CountsOk(events, WithFreshPass(r, clock)) && LogOk(events, r.nextPass + 1, r.log)
  {
    hide Deliveries;
    forall id: nat
      ensures Deliveries(r.log, {r.nextPass}, id) == 0
    {
      NoDeliveries(r.log, {r.nextPass}, id);
    }
  }

  lemma BeginPassKeepsTries(events: map<nat, EventRow>, clock: Instant, r: Relays)
    requires Usable(r.options) && TriesOk(events, r)
    ensures TriesOk(events, WithFreshPass(r, clock))
  {
    hide TriesFit;
    assert forall id <- events :: TriesOf(WithFreshPass(r, clock), id) == TriesOf(r, id);
  }

  lemma BeginPassExcludes(passes: map<nat, Pass>, p: nat, clock: Instant)
    requires ClaimsExclude(passes) && p !in passes
    ensures ClaimsExclude(passes[p := FreshPass(clock)])
  {
  }

  lemma BeginPassKeepsNumbers(r: Relays, clock: Instant)
    requires NumbersOk(r.nextPass, r.passes.Keys, r.gone.Keys, r.committed, r.idle)
    ensures var after := WithFreshPass(r, clock);
      NumbersOk(after.nextPass, after.passes.Keys, after.gone.Keys, after.committed, after.idle)
    ensures r.nextPass !in r.passes
  {
  }

  lemma BeginPassKeepsPasses(events: map<nat, EventRow>, clock: Instant, r: Relays)
    requires Usable(r.options) && PassesOk(events, clock, r) && ClaimsExclude(r.passes)
    ensures PassesOk(events, clock, WithFreshPass(r, clock)) && ClaimsExclude(WithFreshPass(r, clock).passes)
  {
    hide PassOk, AllGoneOk, NumbersOk, ClaimsExclude;
    FreshPassOk(r.options, events, clock);
    BeginPassKeepsNumbers(r, clock);
    BeginPassExcludes(r.passes, r.nextPass, clock);
    hide FreshPass;
  }

  lemma BeginPassKeeps(events: map<nat, EventRow>, clock: Instant, r: Relays)
    requires RelaysOk(events, clock, r)
    ensures RelaysOk(events, clock, WithFreshPass(r, clock))
  {
    hide PassesOk, ClaimsExclude, CountsOk, LogOk, TriesOk;
    BeginPassKeepsPasses(events, clock, r);
    BeginPassKeepsCounts(events, clock, r);
    BeginPassKeepsTries(events, clock, r);
  }

  /** A pass that claimed nothing has delivered nothing. */
  lemma IdleDeliversNothing(events: map<nat, EventRow>, clock: Instant, r: Relays, p: nat)
    requires RelaysOk(events, clock, r) && p in r.passes && r.passes[p].claimed == []
    ensures r.passes[p].sent == {} && forall d <- r.log :: d.pass != p
  {
    hide ClaimOk, WritesOk, LogOk, TriesOk, ClaimsExclude, Deliveries;
    assert PassOk(r.options, events, clock, r.passes[p]);
    assert Handled(r.passes[p]) == {};
    forall d <- r.log
      ensures d.pass != p
    {
      LoggedIsCounted(r.log, d);
    }
  }

  function Ended(r: Relays, p: nat): Relays {
    r.(passes := r.passes - {p}, idle := r.idle + {p})
  }

  lemma EndKeepsPasses(events: map<nat, EventRow>, clock: Instant, r: Relays, p: nat)
    requires Usable(r.options) && PassesOk(events, clock, r) && ClaimsExclude(r.passes) && p in r.passes
    ensures PassesOk(events, clock, Ended(r, p)) && ClaimsExclude(Ended(r, p).passes)
  {
    hide PassOk, GoneOk, ClaimsExclude;
    FewerExclude(r.passes, p);
  }

  lemma EndKeepsCounts(events: map<nat, EventRow>, r: Relays, p: nat)
    requires CountsOk(events, r) && forall d <- r.log :: d.pass != p
    ensures CountsOk(events, Ended(r, p))
  {
    hide Deliveries;
  }

  /** The tries are those of the committed passes only. */
  lemma TriesStay(events: map<nat, EventRow>, r: Relays, after: Relays)
    requires Usable(r.options) && TriesOk(events, r) && after.options == r.options && after.tries == r.tries
    ensures TriesOk(events, after)
  {
    hide TriesFit;
    assert forall id <- events :: TriesOf(after, id) == TriesOf(r, id);
  }

  lemma EndPassKeeps(s: System, p: nat)
    requires Enabled(s, EndPass(p)) && RelaysOk(s.db.events, s.clock, s.relays)
    ensures var after := Step(s, EndPass(p));
      && RelaysOk(s.db.events, s.clock, after.relays) && after.db == s.db
      && forall d <- after.relays.log :: d.pass != p
  {
    IdleDeliversNothing(s.db.events, s.clock, s.relays, p);
    hide PassesOk, ClaimsExclude, CountsOk, LogOk, TriesOk;
    EndKeepsPasses(s.db.events, s.clock, s.relays, p);
    EndKeepsCounts(s.db.events, s.relays, p);
    TriesStay(s.db.events, s.relays, Ended(s.relays, p));
  }

  // ---- without a transaction ----

  lemma GoneFromPass(o: RelayOptions, events: map<nat, EventRow>, clock: Instant, pass: Pass)
    requires Usable(o) && PassOk(o, events, clock, pass)
    ensures GoneOk(o, events, WithoutTransaction(pass))
  {
    hide Due, WritesOk;
    if pass.stage.Told? {
      ProcessedGrows(pass, WithoutTransaction(pass));
    } else {
      assert Processed(WithoutTransaction(pass)) == Processed(pass);
    }
  }

  lemma LoseKeepsPasses(events: map<nat, EventRow>, clock: Instant, r: Relays, p: nat)
    requires Usable(r.options) && PassesOk(events, clock, r) && ClaimsExclude(r.passes) && p in r.passes
    ensures PassesOk(events, clock, LoseTransaction(r, p)) && ClaimsExclude(LoseTransaction(r, p).passes)
  {
    hide PassOk, GoneOk, WithoutTransaction, NumbersOk, ClaimsExclude;
    GoneFromPass(r.options, events, clock, r.passes[p]);
    FewerExclude(r.passes, p);
    LoseKeepsNumbers(r, p);
  }

  lemma FewerExclude(passes: map<nat, Pass>, p: nat)
    requires ClaimsExclude(passes)
    ensures ClaimsExclude(passes - {p})
  {
  }

  lemma LoseKeepsNumbers(r: Relays, p: nat)
    requires NumbersOk(r.nextPass, r.passes.Keys, r.gone.Keys, r.committed, r.idle) && p in r.passes
    ensures var after := LoseTransaction(r, p);
      NumbersOk(after.nextPass, after.passes.Keys, after.gone.Keys, after.committed, after.idle)
  {
  }

  lemma LoseKeepsCounts(events: map<nat, EventRow>, r: Relays, p: nat)
    requires CountsOk(events, r) && p in r.passes
    ensures CountsOk(events, LoseTransaction(r, p))
  {
    hide Deliveries;
  }

  /** Losing a transaction at any point leaves the table and the log as they are, and
      the pass with the events it has not published yet. */
  lemma LosePassKeeps(s: System, p: nat)
    requires Enabled(s, LosePass(p)) && RelaysOk(s.db.events, s.clock, s.relays)
    ensures var after := Step(s, LosePass(p));
      && RelaysOk(s.db.events, s.clock, after.relays) && after.db == s.db && after.relays.log == s.relays.log
      && p !in after.relays.passes && p in after.relays.gone
      && after.relays.gone[p].claimed == s.relays.passes[p].claimed
      && after.relays.gone[p].sent == s.relays.passes[p].sent
  {
    hide PassesOk, ClaimsExclude, CountsOk, LogOk, TriesOk;
    LoseKeepsPasses(s.db.events, s.clock, s.relays, p);
    LoseKeepsCounts(s.db.events, s.relays, p);
    TriesStay(s.db.events, s.relays, LoseTransaction(s.relays, p));
  }

  lemma LateKeepsPass(o: RelayOptions, events: map<nat, EventRow>, r: Relays, p: nat, delivered: bool)
    requires AtEvent(r.gone, p) && GoneOk(o, events, r.gone[p])
    ensures GoneOk(o, events, PublishWithout(r, p, delivered).gone[p])
  {
    ProcessedGrows(r.gone[p], PublishWithout(r, p, delivered).gone[p]);
    hide Processed, Increasing;
  }

  lemma LateKeepsPasses(events: map<nat, EventRow>, clock: Instant, r: Relays, p: nat, delivered: bool)
    requires Usable(r.options) && PassesOk(events, clock, r) && AtEvent(r.gone, p)
    ensures PassesOk(events, clock, PublishWithout(r, p, delivered))
  {
    LateKeepsPass(r.options, events, r, p, delivered);
    hide PassOk, GoneOk;
  }

  lemma LateKeepsCounts(events: map<nat, EventRow>, r: Relays, p: nat, delivered: bool)
    requires AtEvent(r.gone, p) && GoneOk(r.options, events, r.gone[p])
    requires p < r.nextPass && p !in r.passes && p !in r.committed
    requires CountsOk(events, r) && LogOk(events, r.nextPass, r.log)
    ensures var after := PublishWithout(r, p, delivered);
      CountsOk(events, after) && LogOk(events, after.nextPass, after.log)
  {
    hide Deliveries;
    var pass := r.gone[p];
    var id := pass.claimed[pass.done];
    CurrentIsNew(pass);
    assert id !in pass.sent;
    if delivered {
      LogAppends(r.log, Delivery(p, id, pass.seen[id].event), r.committed);
    }
  }

  lemma LogAppends(log: seq<Delivery>, d: Delivery, others: set<nat>)
    requires d.pass !in others
    ensures forall q: nat, x: nat ::
      Deliveries(log + [d], {q}, x) == Deliveries(log, {q}, x) + (if d.pass == q && d.serial == x then 1 else 0)
    ensures forall x: nat :: Deliveries(log + [d], others, x) == Deliveries(log, others, x)
  {
    hide Deliveries;
    forall q: nat, x: nat
      ensures Deliveries(log + [d], {q}, x) == Deliveries(log, {q}, x) + (if d.pass == q && d.serial == x then 1 else 0)
    {
      DeliveriesAppend(log, d, {q}, x);
    }
    forall x: nat
      ensures Deliveries(log + [d], others, x) == Deliveries(log, others, x)
    {
      DeliveriesAppend(log, d, others, x);
    }
  }

  /** A publish without a transaction adds at most one delivery, of an event its pass
      has not delivered, and touches no row. */
  lemma PublishLateKeeps(s: System, p: nat, delivered: bool)
    requires Enabled(s, PublishLate(p, delivered)) && RelaysOk(s.db.events, s.clock, s.relays)
    ensures var after := Step(s, PublishLate(p, delivered));
      && RelaysOk(s.db.events, s.clock, after.relays) && after.db == s.db && after.relays.passes == s.relays.passes
  {
    hide LiveOk, CountsOk, LogOk, TriesOk, ClaimsExclude;
    assert GoneOk(s.relays.options, s.db.events, s.relays.gone[p]);
    LateKeepsPasses(s.db.events, s.clock, s.relays, p, delivered);
    LateKeepsCounts(s.db.events, s.relays, p, delivered);
    hide PassesOk, NumbersOk, GoneOk;
    TriesStay(s.db.events, s.relays, PublishWithout(s.relays, p, delivered));
  }

  /** Replacing one pass needs the pass to be right, its claim to be its own and
      its deliveries to be counted. */
  lemma PassReplaced(events: map<nat, EventRow>, clock: Instant, r: Relays, p: nat, pass: Pass)
    requires RelaysOk(events, clock, r) && p in r.passes
    requires PassOk(r.options, events, clock, pass) && pass.sent == r.passes[p].sent
    requires forall q <- r.passes :: q != p ==> forall id <- pass.claimed :: id !in r.passes[q].claimed
    ensures RelaysOk(events, clock, r.(passes := r.passes[p := pass]))
  {
    hide PassOk, Deliveries, TriesFit;
    var after := r.(passes := r.passes[p := pass]);
    assert CountsOk(events, after);
    assert TriesOk(events, after);
  }

  lemma ClaimKeepsPass(s: System, p: nat)
    requires Usable(s.relays.options) && p in s.relays.passes && s.relays.passes[p].stage.Opened?
    requires PassOk(s.relays.options, s.db.events, s.clock, s.relays.passes[p])
    ensures PassOk(s.relays.options, s.db.events, s.clock, ClaimRows(s, p))
    ensures ClaimRows(s, p).sent == s.relays.passes[p].sent
    ensures forall id <- ClaimRows(s, p).claimed :: id !in Locked(s.relays)
  {
    hide Locked, ClaimFrom, Marked;
    var pass, claimed := s.relays.passes[p], ClaimRows(s, p);
    ClaimTakesTheOldest(s.db.events, Locked(s.relays), pass.start, 0, s.db.nextSerial, s.relays.options.batchSize);
    assert Processed(claimed) == {} && Processed(pass) == {};
    assert forall i :: 0 <= i < |claimed.claimed| ==> claimed.claimed[i] in claimed.claimed;
    assert forall id <- claimed.claimed ::
      id in Claimable(s.db.events, Locked(s.relays), pass.start, 0, s.db.nextSerial);
  }

  lemma LockedHoldsEveryClaim(r: Relays, p: nat)
    requires p in r.passes
    ensures forall id <- r.passes[p].claimed :: id in Locked(r)
  {
  }

  lemma ClaimKeeps(s: System, p: nat)
    requires Enabled(s, Claim(p)) && RelaysOk(s.db.events, s.clock, s.relays)
    ensures RelaysOk(s.db.events, s.clock, Step(s, Claim(p)).relays)
  {
    hide PassOk, CountsOk, LogOk, TriesOk, ClaimRows, Locked;
    ClaimKeepsPass(s, p);
    forall q <- s.relays.passes | q != p
      ensures forall id <- ClaimRows(s, p).claimed :: id !in s.relays.passes[q].claimed
    {
      LockedHoldsEveryClaim(s.relays, q);
    }
    PassReplaced(s.db.events, s.clock, s.relays, p, ClaimRows(s, p));
  }

  /** The id in hand is not among those already processed. */
  lemma CurrentIsNew(pass: Pass)
    requires Increasing(pass.claimed) && pass.done < |pass.claimed|
    ensures pass.claimed[pass.done] !in Processed(pass)
  {
  }

  lemma ProcessedGrows(pass: Pass, next: Pass)
    requires pass.done < |pass.claimed| && next.claimed == pass.claimed && next.done == pass.done + 1
    ensures Processed(next) == Processed(pass) + {pass.claimed[pass.done]}
  {
    forall id | id in Processed(next)
      ensures id in Processed(pass) + {pass.claimed[pass.done]}
    {
      var i :| 0 <= i < next.done && next.claimed[i] == id;
    }
  }

  lemma PublishKeeps(s: System, p: nat, delivered: bool, error: string)
    requires Enabled(s, Publish(p, delivered, error)) && RelaysOk(s.db.events, s.clock, s.relays)
    ensures RelaysOk(s.db.events, s.clock, Step(s, Publish(p, delivered, error)).relays)
  {
    hide PassOk, ClaimOk, CountsOk, LogOk, TriesFit, PublishNext;
    hide BeginCall, InsertRow, QueueEvent, SelectExisting, CommitCall, Finish, ClaimRows, MarkCurrent, CommitWrites;
    var r := s.relays;
    var after := PublishNext(r, p, delivered, error);
    PublishKeepsPass(s.db.events, s.clock, r, p, delivered, error);
    PublishKeepsCounts(s.db.events, s.clock, r, p, delivered, error);
    PublishShape(r, p, delivered, error);
    assert forall id <- s.db.events :: TriesOf(after, id) == TriesOf(r, id);
  }

  /** A publish adds at most one delivery, of an event its pass has not delivered. */
  lemma PublishAddsOne(events: map<nat, EventRow>, clock: Instant, r: Relays, p: nat, delivered: bool, error: string)
    requires RelaysOk(events, clock, r) && AtEvent(r.passes, p) && r.passes[p].stage.Ready?
    ensures var id := r.passes[p].claimed[r.passes[p].done];
      && id in events && (forall d <- r.log :: d.pass == p ==> d.serial != id)
      && PublishNext(r, p, delivered, error).log
           == r.log + (if delivered then [Delivery(p, id, events[id].event)] else [])
  {
    hide LogOk, TriesOk, ClaimsExclude, WritesOk, Due, Deliveries;
    var pass := r.passes[p];
    assert PassOk(r.options, events, clock, pass);
    CurrentIsNew(pass);
    forall d <- r.log | d.pass == p
      ensures d.serial != pass.claimed[pass.done]
    {
      LoggedIsCounted(r.log, d);
    }
  }

  lemma PublishShape(r: Relays, p: nat, delivered: bool, error: string)
    requires AtEvent(r.passes, p)
    ensures var after := PublishNext(r, p, delivered, error);
      && after.options == r.options && after.nextPass == r.nextPass && after.committed == r.committed
      && after.idle == r.idle && after.gone == r.gone && after.tries == r.tries && after.passes.Keys == r.passes.Keys
      && (forall q <- r.passes :: after.passes[q].claimed == r.passes[q].claimed)
      && (forall q <- r.passes :: q != p ==> after.passes[q] == r.passes[q])
  {
  }

  lemma PublishKeepsReplies(r: Relays, p: nat, delivered: bool, error: string)
    requires AtEvent(r.passes, p) && r.passes[p].stage.Ready?
    requires Increasing(r.passes[p].claimed) && ProgressOk(r.passes[p])
    ensures var pass, told := r.passes[p], PublishNext(r, p, delivered, error).passes[p];
      RepliesKept(told) && Processed(told) == Processed(pass)
      && forall id <- Processed(pass) ::
           (id in told.sent <==> id in pass.sent) && ReplyOf(told, id) == ReplyOf(pass, id)
  {
    CurrentIsNew(r.passes[p]);
    assert Processed(PublishNext(r, p, delivered, error).passes[p]) == Processed(r.passes[p]);
    hide Processed, Increasing;
  }

  lemma PublishKeepsPass(events: map<nat, EventRow>, clock: Instant, r: Relays, p: nat, delivered: bool, error: string)
    requires Usable(r.options) && AtEvent(r.passes, p) && r.passes[p].stage.Ready?
    requires PassOk(r.options, events, clock, r.passes[p])
    ensures PassOk(r.options, events, clock, PublishNext(r, p, delivered, error).passes[p])
  {
    hide Marked, Due, RepliesKept, Processed, ReplyOf, Increasing;
    PublishKeepsReplies(r, p, delivered, error);
  }

  lemma PublishKeepsCounts(
    events: map<nat, EventRow>, clock: Instant, r: Relays, p: nat, delivered: bool, error: string)
    requires Usable(r.options) && AtEvent(r.passes, p) && r.passes[p].stage.Ready?
    requires PassOk(r.options, events, clock, r.passes[p]) && p < r.nextPass && p !in r.committed && p !in r.gone
    requires CountsOk(events, r) && LogOk(events, r.nextPass, r.log)
    ensures var after := PublishNext(r, p, delivered, error);
      CountsOk(events, after) && LogOk(events, after.nextPass, after.log)
  {
    hide WritesOk, Due, Deliveries;
    var pass := r.passes[p];
    var id := pass.claimed[pass.done];
    CurrentIsNew(pass);
    assert id !in pass.sent;
    if delivered {
      LogAppends(r.log, Delivery(p, id, pass.seen[id].event), r.committed);
    }
  }

  lemma MarkKeeps(s: System, p: nat)
    requires Enabled(s, Mark(p)) && RelaysOk(s.db.events, s.clock, s.relays)
    ensures RelaysOk(s.db.events, s.clock, Step(s, Mark(p)).relays)
  {
    hide PassOk, ClaimOk, CountsOk, LogOk, TriesOk, MarkCurrent;
    MarkKeepsPass(s, p);
    PassReplaced(s.db.events, s.clock, s.relays, p, MarkCurrent(s, p));
  }

  predicate Marking(s: System, p: nat) {
    && Usable(s.relays.options) && AtEvent(s.relays.passes, p) && s.relays.passes[p].stage.Told?
    && s.relays.passes[p].claimed[s.relays.passes[p].done] in s.db.events
    && PassOk(s.relays.options, s.db.events, s.clock, s.relays.passes[p])
  }

  /** A mark is of the claimed row, by its outcome, and of no other. */
  lemma MarkWritesTheOutcome(s: System, p: nat)
    requires Marking(s, p)
    ensures var (pass, marked) := (s.relays.passes[p], MarkCurrent(s, p));
      var id := pass.claimed[pass.done];
      && marked.stage == Ready && marked.done == pass.done + 1 && id !in pass.writes
      && id in marked.writes && marked.writes == pass.writes[id := marked.writes[id]]
      && Marked(
           s.relays.options, s.db.events[id], marked.writes[id], pass.start,
           if pass.stage.delivered then None else Some(pass.stage.error))
  {
    hide Due, Delay;
    CurrentIsNew(s.relays.passes[p]);
  }

  lemma MarkKeepsPass(s: System, p: nat)
    requires Marking(s, p)
    ensures var after := MarkCurrent(s, p);
      && PassOk(s.relays.options, s.db.events, s.clock, after)
      && after.sent == s.relays.passes[p].sent && after.claimed == s.relays.passes[p].claimed
  {
    hide Delay, Due, Processed;
    var pass, after := s.relays.passes[p], MarkCurrent(s, p);
    var id := pass.claimed[pass.done];
    CurrentIsNew(pass);
    ProcessedGrows(pass, after);
    assert id in pass.sent <==> pass.stage.delivered;
    assert pass.seen[id] == s.db.events[id];
  }

  // ---- a committed pass ----

  /** A row that is due has waited out the delay after every try before. */
  lemma DueIsSpaced(o: RelayOptions, row: EventRow, tries: seq<Try>, start: Instant)
    requires Usable(o) && TriesFit(o, row, tries) && Due(row, start)
    ensures forall i :: 0 <= i < |tries| ==> start >= tries[i].start + Delay(o, i + 1)
  {
    hide Delay;
    var n := |tries|;
    if n > 0 {
      assert tries[n - 1].reply.Some?;
      assert start >= tries[n - 1].start + Delay(o, n);
      assert forall i :: 0 <= i < n - 1 ==> tries[n - 1].start >= tries[i].start + Delay(o, i + 1);
    }
  }

  lemma TryAppends(o: RelayOptions, row: EventRow, written: EventRow, tries: seq<Try>, t: Try)
    requires Usable(o) && TriesFit(o, row, tries) && Due(row, t.start) && Marked(o, row, written, t.start, t.reply)
    ensures TriesFit(o, written, tries + [t])
  {
    hide Delay;
    DueIsSpaced(o, row, tries, t.start);
  }

  lemma CommitPassKeeps(s: System, p: nat)
    requires Enabled(s, CommitPass(p)) && RelaysOk(s.db.events, s.clock, s.relays)
    ensures var after := Step(s, CommitPass(p));
      && RelaysOk(after.db.events, after.clock, after.relays)
  {
    hide PassOk, LogOk, CountsOk, TriesOk, CommitWrites;
    CommitShape(s, p);
    CommitKeepsPasses(s, p);
    CommitKeepsLog(s, p);
    CommitKeepsCounts(s, p);
    CommitKeepsTries(s, p);
  }

  predicate Committable(s: System, p: nat) {
    && Usable(s.relays.options) && p in s.relays.passes
    && s.relays.passes[p].stage.Ready?
    && PassOk(s.relays.options, s.db.events, s.clock, s.relays.passes[p])
  }

  lemma CommitShape(s: System, p: nat)
    requires p in s.relays.passes
    ensures var after := CommitWrites(s, p);
      && after.clock == s.clock && after.relays.options == s.relays.options
      && after.relays.passes == s.relays.passes - {p} && after.relays.nextPass == s.relays.nextPass
      && after.relays.committed == s.relays.committed + {p} && after.relays.idle == s.relays.idle
      && after.relays.gone == s.relays.gone
      && after.relays.log == s.relays.log
      && after.db.events == s.db.events + s.relays.passes[p].writes
      && after.db.transactions == s.db.transactions && after.db.nextSerial == s.db.nextSerial
      && after.calls == s.calls
  {
  }

  /** A commit publishes exactly what the pass has sent, adds one try to each row of
      its claim, and leaves every other row alone. */
  lemma CommitWritesItsTries(s: System, p: nat, id: nat)
    requires Committable(s, p) && s.relays.passes[p].done == |s.relays.passes[p].claimed| && id in s.db.events
    ensures var (r, pass, after) := (s.relays, s.relays.passes[p], CommitWrites(s, p));
      && id in after.db.events
      && (id in pass.claimed ==>
            && s.db.events[id].publishedAt.None? && (ReplyOf(pass, id).None? <==> id in pass.sent)
            && Marked(r.options, s.db.events[id], after.db.events[id], pass.start, ReplyOf(pass, id))
            && TriesOf(after.relays, id) == TriesOf(r, id) + [Try(p, pass.start, ReplyOf(pass, id))])
      && (id !in pass.claimed ==>
            after.db.events[id] == s.db.events[id] && TriesOf(after.relays, id) == TriesOf(r, id))
  {
    hide Marked, Delay;
    var pass := s.relays.passes[p];
    assert id in pass.claimed ==> id in Processed(pass);
    if id in pass.writes {
      WrittenWasUnpublished(s, p, id);
    }
  }

  lemma CommitKeepsPasses(s: System, p: nat)
    requires Committable(s, p) && PassesOk(s.db.events, s.clock, s.relays) && ClaimsExclude(s.relays.passes)
    ensures var after := CommitWrites(s, p);
      PassesOk(after.db.events, after.clock, after.relays) && ClaimsExclude(after.relays.passes)
  {
    hide LiveOk, AllGoneOk, NumbersOk, ClaimsExclude, PassOk, CommitWrites;
    CommitShape(s, p);
    CommitKeepsLive(s, p);
    CommitKeepsGone(s, p);
    CommitKeepsNumbers(s.relays, p);
    FewerExclude(s.relays.passes, p);
  }

  lemma CommitKeepsNumbers(r: Relays, p: nat)
    requires NumbersOk(r.nextPass, r.passes.Keys, r.gone.Keys, r.committed, r.idle) && p in r.passes
    ensures NumbersOk(r.nextPass, (r.passes - {p}).Keys, r.gone.Keys, r.committed + {p}, r.idle)
  {
  }

  lemma CommitKeepsLive(s: System, p: nat)
    requires Committable(s, p) && LiveOk(s.relays.options, s.db.events, s.clock, s.relays.passes)
    requires ClaimsExclude(s.relays.passes)
    ensures LiveOk(s.relays.options, s.db.events + s.relays.passes[p].writes, s.clock, s.relays.passes - {p})
  {
    hide PassOk, ClaimsExclude;
    forall q <- s.relays.passes | q != p {
      OthersUntouched(s, p, q);
    }
  }

  lemma CommitKeepsGone(s: System, p: nat)
    requires Committable(s, p) && AllGoneOk(s.relays.options, s.db.events, s.relays.gone)
    ensures AllGoneOk(s.relays.options, s.db.events + s.relays.passes[p].writes, s.relays.gone)
  {
    hide PassOk, GoneOk;
    forall q <- s.relays.gone {
      GoneUntouched(s, p, s.relays.gone[q]);
    }
  }

  lemma OthersUntouched(s: System, p: nat, q: nat)
    requires Committable(s, p) && q in s.relays.passes && q != p && ClaimsExclude(s.relays.passes)
    requires PassOk(s.relays.options, s.db.events, s.clock, s.relays.passes[q])
    ensures PassOk(s.relays.options, s.db.events + s.relays.passes[p].writes, s.clock, s.relays.passes[q])
  {
    hide Due, Marked, RepliesKept, Increasing;
    var pass, other := s.relays.passes[p], s.relays.passes[q];
    assert forall id <- pass.writes :: id in pass.claimed;
    assert forall id <- other.claimed :: id !in pass.writes;
    assert forall id <- other.writes :: id in other.claimed;
  }

  lemma GoneUntouched(s: System, p: nat, pass: Pass)
    requires Committable(s, p) && GoneOk(s.relays.options, s.db.events, pass)
    ensures GoneOk(s.relays.options, s.db.events + s.relays.passes[p].writes, pass)
  {
    hide Due, Increasing, Processed, ClaimOk, ProgressOk, Delay;
  }

  lemma CommitKeepsLog(s: System, p: nat)
    requires Committable(s, p) && LogOk(s.db.events, s.relays.nextPass, s.relays.log)
    ensures var after := CommitWrites(s, p);
      LogOk(after.db.events, after.relays.nextPass, after.relays.log)
  {
    hide Due, Delay;
  }

  lemma CommitPublishes(s: System, p: nat, id: nat)
    requires Committable(s, p) && id in CommitWrites(s, p).db.events
    ensures var row := CommitWrites(s, p).db.events[id];
      && id in s.db.events && (id in s.relays.passes[p].sent ==> s.db.events[id].publishedAt.None?)
      && (row.publishedAt.Some? <==> s.db.events[id].publishedAt.Some? || id in s.relays.passes[p].sent)
  {
    hide Delay;
    var pass := s.relays.passes[p];
    assert id in pass.sent ==> id in pass.writes;
    if id in pass.writes {
      WrittenWasUnpublished(s, p, id);
    }
  }

  lemma CommitKeepsCounts(s: System, p: nat)
    requires Committable(s, p) && p !in s.relays.committed && CountsOk(s.db.events, s.relays)
    ensures var after := CommitWrites(s, p);
      CountsOk(after.db.events, after.relays)
  {
    hide PassOk, Deliveries;
    var r, after := s.relays, CommitWrites(s, p);
    forall id <- after.db.events
      ensures Deliveries(r.log, r.committed + {p}, id) == if after.db.events[id].publishedAt.Some? then 1 else 0
    {
      DeliveriesSplit(r.log, r.committed, {p}, id);
      CommitPublishes(s, p, id);
    }
  }

  lemma WrittenWasUnpublished(s: System, p: nat, id: nat)
    requires Committable(s, p) && id in s.relays.passes[p].writes
    ensures var pass := s.relays.passes[p];
      && id in s.db.events && Due(s.db.events[id], pass.start)
      && Marked(s.relays.options, s.db.events[id], pass.writes[id], pass.start, ReplyOf(pass, id))
  {
    hide Marked;
    assert id in Processed(s.relays.passes[p]);
  }

  lemma CommitKeepsTries(s: System, p: nat)
    requires Committable(s, p) && TriesOk(s.db.events, s.relays)
    ensures var after := CommitWrites(s, p);
      TriesOk(after.db.events, after.relays)
  {
    hide PassOk, Due, Delay, Marked, TriesFit;
    var r, after, pass := s.relays, CommitWrites(s, p), s.relays.passes[p];
    forall id <- pass.writes
      ensures id in s.db.events && TriesFit(r.options, pass.writes[id], TriesOf(after.relays, id))
    {
      WrittenWasUnpublished(s, p, id);
      TryAppends(r.options, s.db.events[id], pass.writes[id], TriesOf(r, id), Try(p, pass.start, ReplyOf(pass, id)));
    }
    assert forall id <- s.db.events :: id !in pass.writes ==> TriesOf(after.relays, id) == TriesOf(r, id);
  }
}
