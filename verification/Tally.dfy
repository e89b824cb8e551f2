/** How many passes any number of relays can commit over a stretch of a run. */
module Tally {
  import opened Calendar
  import opened Transactions
  import opened Rows
  import opened Outbox
  import opened Protocol
  import opened IngestProofs
  import opened RelayProofs
  import opened Guarantees
  import opened Delivery

  // ---- sums over the table ----

  function Sum(events: map<nat, EventRow>, upTo: nat, f: EventRow -> int): int {
    if upTo == 0 then 0
    else Sum(events, upTo - 1, f) + if upTo - 1 in events then f(events[upTo - 1]) else 0
  }

  /** No row counts for less than it did, and a new one not below zero. */
  predicate Grows(events: map<nat, EventRow>, after: map<nat, EventRow>, f: EventRow -> int) {
    && (forall id <- events :: id in after && f(events[id]) <= f(after[id]))
    && (forall id <- after :: id !in events ==> f(after[id]) >= 0)
  }

  lemma {:induction false} SumGrows(
    events: map<nat, EventRow>, after: map<nat, EventRow>, upTo: nat, f: EventRow -> int)
    requires Grows(events, after, f)
    ensures Sum(events, upTo, f) <= Sum(after, upTo, f)
  {
    if upTo > 0 {
      SumGrows(events, after, upTo - 1, f);
    }
  }

  lemma {:induction false} SumGrowsAt(
    events: map<nat, EventRow>, after: map<nat, EventRow>, upTo: nat, f: EventRow -> int, id: nat)
    requires Grows(events, after, f) && id < upTo && id in events && f(events[id]) < f(after[id])
    ensures Sum(events, upTo, f) < Sum(after, upTo, f)
  {
    if id < upTo - 1 {
      SumGrowsAt(events, after, upTo - 1, f, id);
    } else {
      SumGrows(events, after, upTo - 1, f);
    }
  }

  lemma {:induction false} SumAdds(
    events: map<nat, EventRow>, upTo: nat, f: EventRow -> int, g: EventRow -> int, h: EventRow -> int)
    requires forall row :: f(row) == g(row) + h(row)
    ensures Sum(events, upTo, f) == Sum(events, upTo, g) + Sum(events, upTo, h)
  {
    if upTo > 0 {
      SumAdds(events, upTo - 1, f, g, h);
    }
  }

  // ---- what is counted ----

  function Tried(row: EventRow): int {
    row.attempts
  }

  function Published(row: EventRow): int {
    if row.publishedAt.Some? then 1 else 0
  }

  function Pending(row: EventRow): int {
    1 - Published(row)
  }

  /** The tries of a row that were refused: all of them, but for the last one of a
      published row. */
  function Refused(row: EventRow): int {
    Tried(row) - Published(row)
  }

  function One(row: EventRow): int {
    1
  }

  /** In every state the refused tries of a row are the failures among its committed
      tries. */
  lemma RefusedAreTheFailures(states: seq<System>, actions: seq<Action>, n: nat, id: nat)
    requires IsRun(states, actions) && n < |states| && id in states[n].db.events
    ensures var tries := TriesOf(states[n].relays, id);
      Refused(states[n].db.events[id]) == |tries| - (if tries != [] && tries[|tries| - 1].reply.None? then 1 else 0)
  {
    hide IsRun, Spaced;
    RetriesWaitTheirDelay(states, actions, n, id);
  }

  // ---- each committed pass tries something ----

  lemma CommitAddsATry(s: System, p: nat, upTo: nat)
    requires Committable(s, p) && s.relays.passes[p].done == |s.relays.passes[p].claimed| != 0
    requires forall id <- s.db.events :: id < upTo
    ensures Sum(s.db.events, upTo, Tried) < Sum(CommitWrites(s, p).db.events, upTo, Tried)
  {
    var id := s.relays.passes[p].claimed[0];
    var after := CommitWrites(s, p).db.events;
    assert id in s.db.events && id in s.relays.passes[p].claimed;
    CommitWritesItsTries(s, p, id);
    PassKeepsRows(s, p);
    hide PassOk, CommitWrites;
    WritesAreRows(s, p);
    CommitShape(s, p);
    SumGrowsAt(s.db.events, after, upTo, Tried, id);
  }

  lemma WritesAreRows(s: System, p: nat)
    requires Committable(s, p)
    ensures s.relays.passes[p].writes.Keys <= s.db.events.Keys
  {
    hide ClaimOk, ProgressOk, Marked;
  }

  lemma CommitPassCounts(s: System, p: nat, upTo: nat)
    requires Enabled(s, CommitPass(p)) && RelaysOk(s.db.events, s.clock, s.relays)
    requires forall id <- s.db.events :: id < upTo
    ensures var after := Step(s, CommitPass(p));
      && |after.relays.committed| == |s.relays.committed| + 1
      && Sum(s.db.events, upTo, Tried) < Sum(after.db.events, upTo, Tried)
  {
    hide RelaysOk, PassOk, CommitWrites, Sum;
    hide BeginCall, InsertRow, QueueEvent, SelectExisting, CommitCall, Finish, ClaimRows, PublishNext, MarkCurrent;
    LivePass(s.db.events, s.clock, s.relays, p);
    CommitAddsATry(s, p, upTo);
    CommitShape(s, p);
  }

  lemma LivePass(events: map<nat, EventRow>, clock: Instant, r: Relays, p: nat)
    requires RelaysOk(events, clock, r) && p in r.passes
    ensures Usable(r.options) && p !in r.committed && PassOk(r.options, events, clock, r.passes[p])
  {
    hide LogOk, CountsOk, TriesOk, ClaimsExclude, PassOk, AllGoneOk;
  }

  /** Everything else leaves the committed passes alone, and no row tried less. */
  lemma OthersCount(s: System, a: Action, upTo: nat)
    requires Enabled(s, a) && Inv(s) && !a.CommitPass?
    ensures Step(s, a).relays.committed == s.relays.committed
    ensures Sum(s.db.events, upTo, Tried) <= Sum(Step(s, a).db.events, upTo, Tried)
  {
    OthersLeaveCommitted(s, a);
    StepKeepsRows(s, a);
    hide Enabled, Step, Inv;
    SumGrows(s.db.events, Step(s, a).db.events, upTo, Tried);
  }

  lemma OthersLeaveCommitted(s: System, a: Action)
    requires Enabled(s, a) && !a.CommitPass?
    ensures Step(s, a).relays.committed == s.relays.committed
  {
    hide BeginCall, InsertRow, QueueEvent, SelectExisting, CommitCall, Finish, ClaimRows, MarkCurrent;
    hide Acceptable, Fits, EncodeRow, KeyOfTransaction;
  }

  /** The committed passes so far, and what they may have grown by since. */
  lemma {:induction false} CommittedPassesTry(states: seq<System>, actions: seq<Action>, m: nat, n: nat, upTo: nat)
    requires IsRun(states, actions) && m <= n < |states|
    requires states[n].db.nextSerial <= upTo
    ensures |states[n].relays.committed| + Sum(states[m].db.events, upTo, Tried)
         <= |states[m].relays.committed| + Sum(states[n].db.events, upTo, Tried)
    decreases n - m
  {
    hide Enabled, Step, Inv, Init, Sum;
    if m < n {
      var s, a := states[n - 1], actions[n - 1];
      EveryStateKeeps(states, actions, n - 1);
      SerialsStay(s, a);
      CommittedPassesTry(states, actions, m, n - 1, upTo);
      if a.CommitPass? {
        InvRelays(s);
        CommitPassCounts(s, a.pass, upTo);
      } else {
        OthersCount(s, a, upTo);
      }
    }
  }

  lemma SerialsStay(s: System, a: Action)
    requires Enabled(s, a) && Inv(s)
    ensures s.db.nextSerial <= Step(s, a).db.nextSerial
  {
    hide Inv, BeginCall, InsertRow, SelectExisting, Finish, ClaimRows, MarkCurrent, NewTransactionReceived;
    hide Acceptable, Fits, EncodeRow, KeyOfTransaction;
  }

  /** Over any stretch of a run without new events, whatever number of relays is at
      work, the passes committed are at most the events published, which is by how much
      the pending ones are fewer, plus the publishes refused. */
  lemma PassesAreBounded(states: seq<System>, actions: seq<Action>, m: nat, n: nat)
    requires IsRun(states, actions) && m <= n < |states|
    requires states[m].db.events.Keys == states[n].db.events.Keys
    ensures var (before, after, upTo) := (states[m].db.events, states[n].db.events, states[n].db.nextSerial);
      |states[n].relays.committed| - |states[m].relays.committed|
        <= Sum(before, upTo, Pending) - Sum(after, upTo, Pending)
         + Sum(after, upTo, Refused) - Sum(before, upTo, Refused)
  {
    hide IsRun, Sum;
    var (before, after, upTo) := (states[m].db.events, states[n].db.events, states[n].db.nextSerial);
    CommittedPassesTry(states, actions, m, n, upTo);
    SumAdds(before, upTo, Tried, Refused, Published);
    SumAdds(after, upTo, Tried, Refused, Published);
    SumAdds(before, upTo, One, Pending, Published);
    SumAdds(after, upTo, One, Pending, Published);
    SameRowsSameSum(before, after, upTo);
  }

  lemma {:induction false} SameRowsSameSum(before: map<nat, EventRow>, after: map<nat, EventRow>, upTo: nat)
    requires before.Keys == after.Keys
    ensures Sum(before, upTo, One) == Sum(after, upTo, One)
  {
    if upTo > 0 {
      SameRowsSameSum(before, after, upTo - 1);
    }
  }

  lemma InvRelays(s: System)
    requires Inv(s)
    ensures RelaysOk(s.db.events, s.clock, s.relays) && forall id <- s.db.events :: id < s.db.nextSerial
  {
    hide Mirrors, HistoryOk, SubmittedOk, IdsOk, PhasesOk, LocksOk, RepliesOk, OneEventEach, QueuedAreFresh;
    hide RelaysOk, NewTransactionReceived, KeyOfEvent;
  }
}
