/** The relay's loop against its table and its publisher: how many passes empty the
    outbox, and what they deliver. */
module Draining {
  import opened Text
  import opened Calendar
  import opened Rows
  import opened Outbox

  // ---- what is still to be delivered ----

  /** The unpublished rows, oldest first. */
  function Pending(rows: map<nat, EventRow>, from: nat, upTo: nat): seq<nat>
    decreases upTo - from
  {
    if from >= upTo then []
    else if from in rows && rows[from].publishedAt.None? then [from] + Pending(rows, from + 1, upTo)
    else Pending(rows, from + 1, upTo)
  }

  lemma {:induction false} QueueHolds(rows: map<nat, EventRow>, from: nat, upTo: nat)
    ensures forall id :: id in Pending(rows, from, upTo) <==>
      from <= id < upTo && id in rows && rows[id].publishedAt.None?
    decreases upTo - from
  {
    if from < upTo {
      QueueHolds(rows, from + 1, upTo);
    }
  }

  lemma {:induction false} QueueIsIncreasing(rows: map<nat, EventRow>, from: nat, upTo: nat)
    ensures Increasing(Pending(rows, from, upTo))
    decreases upTo - from
  {
    hide Increasing;
    if from < upTo {
      QueueIsIncreasing(rows, from + 1, upTo);
      QueueHolds(rows, from + 1, upTo);
      IncreasingAfter(from, Pending(rows, from + 1, upTo));
    } else {
      NothingClaimed(rows, {}, 0, from, upTo, 0);
    }
  }

  /** When every row is due and no other relay is at work, a claim is the front of
      the queue. */
  lemma {:induction false} ClaimIsTheFront(rows: map<nat, EventRow>, now: Instant, from: nat, upTo: nat, limit: nat)
    requires forall id <- rows :: rows[id].nextAttemptAt <= now
    ensures var queue := Pending(rows, from, upTo);
      ClaimFrom(rows, {}, now, from, upTo, limit) == queue[..Min(limit, |queue|)]
    decreases upTo - from
  {
    if from < upTo && limit > 0 {
      if from in rows && rows[from].publishedAt.None? {
        ClaimIsTheFront(rows, now, from + 1, upTo, limit - 1);
        var rest := Pending(rows, from + 1, upTo);
        assert ([from] + rest)[..1 + Min(limit - 1, |rest|)] == [from] + rest[..Min(limit - 1, |rest|)];
      } else {
        ClaimIsTheFront(rows, now, from + 1, upTo, limit);
      }
    } else {
      assert Pending(rows, from, upTo)[..0] == [];
    }
  }

  /** The rows in done, and no others, got published. */
  predicate Published(rows: map<nat, EventRow>, after: map<nat, EventRow>, done: set<nat>) {
    && after.Keys == rows.Keys
    && forall id <- rows :: after[id].publishedAt.None? <==> rows[id].publishedAt.None? && id !in done
  }

  lemma {:induction false} QueueShrinks(
    rows: map<nat, EventRow>, after: map<nat, EventRow>, done: set<nat>, from: nat, upTo: nat)
    requires Published(rows, after, done)
    ensures |Pending(after, from, upTo)| <= |Pending(rows, from, upTo)|
    decreases upTo - from
  {
    if from < upTo {
      QueueShrinks(rows, after, done, from + 1, upTo);
    }
  }

  /** Publishing the front of the queue leaves the rest of it. */
  lemma {:induction false} QueueLosesItsFront(
    rows: map<nat, EventRow>, after: map<nat, EventRow>, done: set<nat>, from: nat, upTo: nat, k: nat)
    requires Published(rows, after, done) && k <= |Pending(rows, from, upTo)|
    requires forall id :: id >= from ==> (id in done <==> id in Pending(rows, from, upTo)[..k])
    ensures Pending(after, from, upTo) == Pending(rows, from, upTo)[k..]
    decreases upTo - from
  {
    if from < upTo {
      var queue, rest := Pending(rows, from, upTo), Pending(rows, from + 1, upTo);
      QueueHolds(rows, from + 1, upTo);
      if from in rows && rows[from].publishedAt.None? {
        if k == 0 {
          QueueLosesItsFront(rows, after, done, from + 1, upTo, 0);
        } else {
          assert queue[..k] == [from] + rest[..k - 1];
          QueueLosesItsFront(rows, after, done, from + 1, upTo, k - 1);
          assert from in queue[..k];
        }
      } else {
        QueueLosesItsFront(rows, after, done, from + 1, upTo, k);
      }
    }
  }

  /** How many passes take n events in batches. */
  function Passes(n: nat, batch: nat): nat
    requires batch > 0
  {
    if n == 0 then 0 else 1 + Passes(n - Min(batch, n), batch)
  }

  /** That is the quotient rounded up: so many batches hold n, and one fewer does not. */
  lemma {:induction false} PassesRoundUp(n: nat, batch: nat)
    requires batch > 0
    ensures n <= Passes(n, batch) * batch
    ensures n > 0 ==> (Passes(n, batch) - 1) * batch < n
  {
    if n > 0 {
      var k := Passes(n - Min(batch, n), batch);
      PassesRoundUp(n - Min(batch, n), batch);
      assert (k + 1) * batch == k * batch + batch;
      assert n <= batch ==> k == 0;
      assert (k - 1) * batch == k * batch - batch;
    }
  }

  lemma {:induction false} PassesGrow(m: nat, n: nat, batch: nat)
    requires batch > 0 && m <= n
    ensures Passes(m, batch) <= Passes(n, batch)
  {
    if m > 0 {
      PassesGrow(m - Min(batch, m), n - Min(batch, n), batch);
    }
  }

  // ---- the publisher and the connection ----

  /** What the publisher will say to the coming publishes: nothing, or an error.
      After the last one listed it takes everything. */
  type Replies = seq<Option<string>>

  function Next(replies: Replies): Option<string> {
    if replies == [] then None else replies[0]
  }

  function Later(replies: Replies, k: nat): Replies {
    if k <= |replies| then replies[k..] else []
  }

  function Refusals(replies: Replies): nat {
    if replies == [] then 0 else (if replies[0].Some? then 1 else 0) + Refusals(replies[1..])
  }

  /** Whether the coming statements succeed; after the last one listed they all do. */
  function Breaks(statements: seq<bool>): nat {
    if statements == [] then 0 else (if statements[0] then 0 else 1) + Breaks(statements[1..])
  }

  // ---- what a pass does ----

  function Written(o: RelayOptions, row: EventRow, start: Instant, reply: Option<string>): EventRow
    requires Usable(o)
  {
    match reply
    case None => MarkPublished(row, start)
    case Some(error) => MarkFailed(row, start, error, Delay(o, row.attempts + 1))
  }

  lemma WrittenIsMarked(o: RelayOptions, row: EventRow, start: Instant, reply: Option<string>)
    requires Usable(o)
    ensures Marked(o, row, Written(o, row, start, reply), start, reply)
  {
    hide Delay;
  }

  /** The table after a pass that took the given ids in turn. */
  function Applied(
    o: RelayOptions, rows: map<nat, EventRow>, ids: seq<nat>, start: Instant,
    replies: Replies): (after: map<nat, EventRow>)
    requires Usable(o) && forall id <- ids :: id in rows
    ensures after.Keys == rows.Keys
  {
    if ids == [] then rows
    else Applied(o, rows[ids[0] := Written(o, rows[ids[0]], start, Next(replies))], ids[1..], start, Later(replies, 1))
  }

  /** The ids among them that were delivered. */
  function Taken(ids: seq<nat>, replies: Replies): (taken: seq<nat>)
    ensures |taken| <= |ids| && forall id <- taken :: id in ids
  {
    if ids == [] then []
    else (if Next(replies).None? then [ids[0]] else []) + Taken(ids[1..], Later(replies, 1))
  }

  function EventsOf(rows: map<nat, EventRow>, ids: seq<nat>): (events: seq<Event>)
    requires forall id <- ids :: id in rows
    ensures |events| == |ids| && forall i :: 0 <= i < |ids| ==> events[i] == rows[ids[i]].event
  {
    seq(|ids|, i requires 0 <= i < |ids| => rows[ids[i]].event)
  }

  lemma LaterAdds(replies: Replies, j: nat, k: nat)
    ensures Later(Later(replies, j), k) == Later(replies, j + k) && Later(replies, 0) == replies
  {
  }

  lemma EmptyPass(o: RelayOptions, rows: map<nat, EventRow>, start: Instant, replies: Replies)
    requires Usable(o)
    ensures Applied(o, rows, [], start, replies) == rows && Taken([], replies) == [] && Later(replies, 0) == replies
  {
  }

  /** Taking one more id after the others. */
  lemma {:induction false} TakenStep(ids: seq<nat>, id: nat, replies: Replies)
    ensures Taken(ids + [id], replies) == Taken(ids, replies) + (if Next(Later(replies, |ids|)).None? then [id] else [])
  {
    hide Later, Next;
    LaterAdds(replies, 1, 0);
    if ids == [] {
      assert [id][1..] == [];
    } else {
      var tail := ids[1..];
      assert (ids + [id])[1..] == tail + [id];
      LaterAdds(replies, 1, |tail|);
      TakenStep(tail, id, Later(replies, 1));
    }
  }

  lemma {:induction false} AppliedStep(
    o: RelayOptions, rows: map<nat, EventRow>, ids: seq<nat>, id: nat, start: Instant, replies: Replies)
    requires Usable(o) && id in rows && forall x <- ids :: x in rows
    ensures var before := Applied(o, rows, ids, start, replies);
      && id in before
      && Applied(o, rows, ids + [id], start, replies)
           == before[id := Written(o, before[id], start, Next(Later(replies, |ids|)))]
  {
    hide Written, Later, Next;
    LaterAdds(replies, 1, 0);
    if ids == [] {
      assert [id][1..] == [];
    } else {
      var tail := ids[1..];
      assert (ids + [id])[1..] == tail + [id];
      LaterAdds(replies, 1, |tail|);
      var next := rows[ids[0] := Written(o, rows[ids[0]], start, Next(replies))];
      AppliedStep(o, next, tail, id, start, Later(replies, 1));
    }
  }

  lemma WrittenPublishes(o: RelayOptions, row: EventRow, start: Instant, reply: Option<string>)
    requires Usable(o)
    ensures Written(o, row, start, reply).event == row.event
    ensures Written(o, row, start, reply).publishedAt.None? <==> reply.Some? && row.publishedAt.None?
  {
  }

  /** What a pass does to one row: nothing unless it claimed it, and published exactly
      when it delivered it. */
  lemma {:induction false} AppliedAt(
    o: RelayOptions, rows: map<nat, EventRow>, ids: seq<nat>, start: Instant, replies: Replies, id: nat)
    requires Usable(o) && Increasing(ids) && id in rows && (id in ids ==> rows[id].publishedAt.None?)
    requires forall x <- ids :: x in rows
    ensures var row := Applied(o, rows, ids, start, replies)[id];
      && row.event == rows[id].event && (id !in ids ==> row == rows[id])
      && (row.publishedAt.None? <==> rows[id].publishedAt.None? && id !in Taken(ids, replies))
  {
    hide Written, Next, Later;
    if ids != [] {
      WrittenPublishes(o, rows[ids[0]], start, Next(replies));
      var next := rows[ids[0] := Written(o, rows[ids[0]], start, Next(replies))];
      assert ids == [ids[0]] + ids[1..];
      assert ids[0] !in ids[1..];
      AppliedAt(o, next, ids[1..], start, Later(replies, 1), id);
    }
  }

  /** A pass marks each row it claimed with what the publisher said to its event, which
      is the answer in its turn. */
  lemma {:induction false} AppliedMarks(
    o: RelayOptions, rows: map<nat, EventRow>, ids: seq<nat>, start: Instant, replies: Replies, i: nat)
    requires Usable(o) && Increasing(ids) && i < |ids| && forall x <- ids :: x in rows
    ensures Marked(
      o, rows[ids[i]], Applied(o, rows, ids, start, replies)[ids[i]], start, Next(Later(replies, i)))
  {
    hide Written, Next, Later, Marked, Increasing;
    var row := Written(o, rows[ids[0]], start, Next(replies));
    var next, rest, later := rows[ids[0] := row], ids[1..], Later(replies, 1);
    TailIsIncreasing(ids);
    if i == 0 {
      WrittenIsMarked(o, rows[ids[0]], start, Next(replies));
      AppliedKeeps(o, next, rest, start, later, ids[0]);
      LaterAdds(replies, 0, 0);
    } else {
      AppliedMarks(o, next, rest, start, later, i - 1);
      LaterAdds(replies, 1, i - 1);
    }
  }

  lemma TailIsIncreasing(ids: seq<nat>)
    requires ids != [] && Increasing(ids)
    ensures Increasing(ids[1..]) && ids[0] !in ids[1..]
  {
  }

  /** A pass leaves the rows alone that it did not claim. */
  lemma {:induction false} AppliedKeeps(
    o: RelayOptions, rows: map<nat, EventRow>, ids: seq<nat>, start: Instant, replies: Replies, id: nat)
    requires Usable(o) && id in rows && id !in ids && forall x <- ids :: x in rows
    ensures Applied(o, rows, ids, start, replies)[id] == rows[id]
  {
    hide Written, Next, Later;
    if ids != [] {
      AppliedKeeps(
        o, rows[ids[0] := Written(o, rows[ids[0]], start, Next(replies))], ids[1..], start, Later(replies, 1), id);
    }
  }

  /** A pass keeps every event and publishes exactly the rows it delivered. */
  lemma AppliedPublishes(o: RelayOptions, rows: map<nat, EventRow>, ids: seq<nat>, start: Instant, replies: Replies)
    requires Usable(o) && Increasing(ids)
    requires forall id <- ids :: id in rows && rows[id].publishedAt.None?
    ensures var after, taken := Applied(o, rows, ids, start, replies), set id | id in Taken(ids, replies);
      && Published(rows, after, taken)
      && (forall id <- rows :: after[id].event == rows[id].event)
      && (forall id <- rows :: id !in ids ==> after[id] == rows[id])
  {
    hide Applied, Taken, Increasing;
    forall id <- rows {
      AppliedAt(o, rows, ids, start, replies, id);
    }
  }

  /** Each refused publish uses up one of the refusals to come; with none among
      them everything was delivered. */
  lemma {:induction false} RefusalsRunOut(ids: seq<nat>, replies: Replies)
    ensures Refusals(Later(replies, |ids|)) <= Refusals(replies)
    ensures Refusals(Later(replies, |ids|)) == Refusals(replies) ==> Taken(ids, replies) == ids
  {
    if ids != [] {
      RefusalsRunOut(ids[1..], Later(replies, 1));
      assert Later(Later(replies, 1), |ids| - 1) == Later(replies, |ids|);
    } else {
      assert Later(replies, 0) == replies;
    }
  }

  // ---- what a pass achieves ----

  /** The passes still needed at most: one for each batch, each refusal and each
      failed statement to come. */
  function Needed(n: nat, batch: nat, replies: Replies, statements: seq<bool>): nat
    requires batch > 0
  {
    Passes(n, batch) + Refusals(replies) + Breaks(statements)
  }

  /** When every row is due, a pass that commits keeps every event, leaves nothing
      but undelivered rows in the queue, and without a refusal takes a whole batch
      off its front. */
  lemma PassShortens(o: RelayOptions, rows: map<nat, EventRow>, upTo: nat, now: Instant, replies: Replies)
    requires Usable(o) && forall id <- rows :: id < upTo && rows[id].nextAttemptAt <= now
    ensures var queue, ids := Pending(rows, 0, upTo), ClaimFrom(rows, {}, now, 0, upTo, o.batchSize);
      && ids == queue[..Min(o.batchSize, |queue|)] && (forall id <- ids :: id in rows)
      && var after := Applied(o, rows, ids, now, replies);
      && (forall id <- rows :: after[id].event == rows[id].event)
      && |Pending(after, 0, upTo)| <= |queue|
      && (forall id <- queue :: id in Pending(after, 0, upTo) || id in Taken(ids, replies))
      && (Refusals(Later(replies, |ids|)) == Refusals(replies) ==>
            Taken(ids, replies) == ids && Pending(after, 0, upTo) == queue[|ids|..])
  {
    hide Delay, Applied, Taken, Later, ClaimFrom, Refusals, Pending;
    var queue := Pending(rows, 0, upTo);
    QueueHolds(rows, 0, upTo);
    QueueIsIncreasing(rows, 0, upTo);
    ClaimIsTheFront(rows, now, 0, upTo, o.batchSize);
    var ids := queue[..Min(o.batchSize, |queue|)];
    assert forall id <- ids :: id in queue;
    AppliedPublishes(o, rows, ids, now, replies);
    var after, taken := Applied(o, rows, ids, now, replies), set id | id in Taken(ids, replies);
    QueueShrinks(rows, after, taken, 0, upTo);
    QueueHolds(after, 0, upTo);
    RefusalsRunOut(ids, replies);
    if Taken(ids, replies) == ids {
      QueueLosesItsFront(rows, after, taken, 0, upTo, |ids|);
    }
  }

  /** Rows and events stay, and what has left the queue is among the delivered. */
  predicate Progress(rows: map<nat, EventRow>, upTo: nat, after: map<nat, EventRow>, delivered: seq<Event>) {
    && after.Keys == rows.Keys && (forall id <- rows :: after[id].event == rows[id].event)
    && forall id <- Pending(rows, 0, upTo) ::
         id in after && (id in Pending(after, 0, upTo) || after[id].event in delivered)
  }

  /** What was delivered is the front of the queue, each event once and in order. */
  predicate InOrder(rows: map<nat, EventRow>, upTo: nat, after: map<nat, EventRow>, delivered: seq<Event>) {
    && (forall id <- Pending(rows, 0, upTo) :: id in rows) && (forall id <- Pending(after, 0, upTo) :: id in after)
    && delivered + EventsOf(after, Pending(after, 0, upTo)) == EventsOf(rows, Pending(rows, 0, upTo))
  }

  lemma NoProgress(rows: map<nat, EventRow>, upTo: nat)
    ensures Progress(rows, upTo, rows, []) && InOrder(rows, upTo, rows, [])
  {
    QueueHolds(rows, 0, upTo);
  }

  lemma ProgressAdds(
    a: map<nat, EventRow>, b: map<nat, EventRow>, c: map<nat, EventRow>, upTo: nat, first: seq<Event>,
    second: seq<Event>)
    requires Progress(a, upTo, b, first) && Progress(b, upTo, c, second)
    ensures Progress(a, upTo, c, first + second)
    ensures InOrder(a, upTo, b, first) && InOrder(b, upTo, c, second) ==> InOrder(a, upTo, c, first + second)
  {
    hide Pending, EventsOf;
  }

  lemma StillQueued(rows: map<nat, EventRow>, upTo: nat, delivered: seq<Event>)
    ensures Progress(rows, upTo, rows, delivered)
  {
    QueueHolds(rows, 0, upTo);
  }

  lemma FrontInOrder(rows: map<nat, EventRow>, upTo: nat, after: map<nat, EventRow>, taken: seq<nat>)
    requires after.Keys == rows.Keys && forall id <- rows :: after[id].event == rows[id].event
    requires forall id <- taken :: id in rows
    requires Pending(rows, 0, upTo) == taken + Pending(after, 0, upTo)
    ensures InOrder(rows, upTo, after, EventsOf(rows, taken))
  {
    QueueHolds(rows, 0, upTo);
    hide Pending, EventsOf;
    var left := Pending(after, 0, upTo);
    assert forall id <- left :: id in taken + left;
    assert |EventsOf(rows, taken + left)| == |EventsOf(rows, taken) + EventsOf(after, left)|;
  }

  lemma TakenProgress(rows: map<nat, EventRow>, upTo: nat, after: map<nat, EventRow>, taken: seq<nat>)
    requires after.Keys == rows.Keys && forall id <- rows :: after[id].event == rows[id].event
    requires forall id <- taken :: id in rows
    requires forall id <- Pending(rows, 0, upTo) :: id in Pending(after, 0, upTo) || id in taken
    ensures Progress(rows, upTo, after, EventsOf(rows, taken))
  {
    QueueHolds(rows, 0, upTo);
    hide Pending;
    forall id <- Pending(rows, 0, upTo) | id !in Pending(after, 0, upTo)
      ensures after[id].event in EventsOf(rows, taken)
    {
      var i :| 0 <= i < |taken| && taken[i] == id;
      assert EventsOf(rows, taken)[i] == after[id].event;
    }
  }

  /** A pass that commits needs one fewer pass after it, or it was refused some
      publish and has that refusal behind it. */
  lemma FewerNeeded(n: nat, left: nat, batch: nat, replies: Replies, k: nat, statements: seq<bool>)
    requires batch > 0 && 0 < n && left <= n && Refusals(Later(replies, k)) <= Refusals(replies)
    requires Refusals(Later(replies, k)) == Refusals(replies) ==> left == n - Min(batch, n)
    ensures Needed(left, batch, Later(replies, k), statements) < Needed(n, batch, replies, statements)
    ensures Refusals(Later(replies, k)) == Refusals(replies) ==> Passes(left, batch) + 1 == Passes(n, batch)
  {
    PassesGrow(left, n, batch);
  }

  lemma FewerAfterFailure(n: nat, batch: nat, replies: Replies, later: Replies, statements: seq<bool>, rest: seq<bool>)
    requires batch > 0 && Refusals(later) <= Refusals(replies) && Breaks(rest) < Breaks(statements)
    ensures Needed(n, batch, later, rest) < Needed(n, batch, replies, statements)
  {
  }

  lemma SameBreaks(n: nat, batch: nat, replies: Replies, statements: seq<bool>, rest: seq<bool>)
    requires batch > 0 && Breaks(rest) == Breaks(statements)
    ensures Needed(n, batch, replies, rest) == Needed(n, batch, replies, statements)
  {
  }

  /** A pass that commits, on a table whose rows are all due. */
  lemma PassAdvances(
    o: RelayOptions, rows: map<nat, EventRow>, upTo: nat, now: Instant, replies: Replies, statements: seq<bool>)
    requires Usable(o) && forall id <- rows :: id < upTo && rows[id].nextAttemptAt <= now
    requires Pending(rows, 0, upTo) != []
    ensures var queue, ids := Pending(rows, 0, upTo), ClaimFrom(rows, {}, now, 0, upTo, o.batchSize);
      && (forall id <- ids :: id in rows)
      && var (after, later) := (Applied(o, rows, ids, now, replies), Later(replies, |ids|));
      && var events := EventsOf(rows, Taken(ids, replies));
      && Refusals(later) <= Refusals(replies)
      && Needed(|Pending(after, 0, upTo)|, o.batchSize, later, statements)
           < Needed(|queue|, o.batchSize, replies, statements)
      && Progress(rows, upTo, after, events)
      && (Refusals(replies) == 0 ==>
            && Passes(|Pending(after, 0, upTo)|, o.batchSize) + 1 == Passes(|queue|, o.batchSize)
            && InOrder(rows, upTo, after, events))
  {
    hide Delay, Applied, Taken, Later, ClaimFrom, Refusals, Pending, Breaks, Passes, Needed, EventsOf, Progress;
    hide InOrder;
    var queue, ids := Pending(rows, 0, upTo), ClaimFrom(rows, {}, now, 0, upTo, o.batchSize);
    PassShortens(o, rows, upTo, now, replies);
    var after := Applied(o, rows, ids, now, replies);
    RefusalsRunOut(ids, replies);
    FewerNeeded(|queue|, |Pending(after, 0, upTo)|, o.batchSize, replies, |ids|, statements);
    TakenProgress(rows, upTo, after, Taken(ids, replies));
    if Refusals(replies) == 0 {
      assert queue == ids + queue[|ids|..];
      FrontInOrder(rows, upTo, after, ids);
    }
  }

  // ---- the loop ----

  /** An instant no earlier than now or than any row's next attempt. */
  function Horizon(rows: map<nat, EventRow>, now: Instant, upTo: nat): (t: Instant)
    ensures t >= now && forall id <- rows :: id < upTo ==> rows[id].nextAttemptAt <= t
  {
    if upTo == 0 then now
    else
      var t := Horizon(rows, now, upTo - 1);
      if upTo - 1 in rows && rows[upTo - 1].nextAttemptAt > t then rows[upTo - 1].nextAttemptAt else t
  }

  class Relay {
    const options: RelayOptions
    var rows: map<nat, EventRow>
    var upTo: nat
    var clock: Instant
    var log: seq<Event>
    var replies: Replies
    var statements: seq<bool>

    ghost predicate Valid()
      reads this
    {
      Usable(options) && forall id <- rows :: id < upTo
    }

    constructor (
      options: RelayOptions, rows: map<nat, EventRow>, upTo: nat, clock: Instant, replies: Replies,
      statements: seq<bool>)
      requires options.baseBackoff < 0x8000_0000_0000_0000 && options.maxBackoff < 0x8000_0000_0000_0000
      requires forall id <- rows :: id < upTo
      ensures Valid() && this.options == NewRelayOptions(options) && this.rows == rows && this.upTo == upTo
      ensures this.clock == clock && log == [] && this.replies == replies && this.statements == statements
    {
      this.options := NewRelayOptions(options);
      this.rows, this.upTo, this.clock, this.replies, this.statements := rows, upTo, clock, replies, statements;
      log := [];
    }

    /** Sends one statement. */
    method Execute() returns (ok: bool)
      modifies this`statements
      ensures Breaks(statements) == Breaks(old(statements)) - (if ok then 0 else 1)
      ensures old(Breaks(statements)) == 0 ==> ok
    {
      if statements == [] {
        return true;
      }
      ok := statements[0];
      statements := statements[1..];
    }

    method Publish(event: Event) returns (reply: Option<string>)
      modifies this`replies, this`log
      ensures reply == Next(old(replies)) && replies == Later(old(replies), 1)
      ensures log == old(log) + if reply.None? then [event] else []
    {
      reply := Next(replies);
      replies := Later(replies, 1);
      if reply.None? {
        log := log + [event];
      }
    }

    /** Reads the due rows in id order until the batch is full. */
    method Claim() returns (ids: seq<nat>)
      requires Valid()
      ensures ids == ClaimFrom(rows, {}, clock, 0, upTo, options.batchSize)
    {
      hide Due, ClaimFrom;
      ids := [];
      var id := 0;
      while id < upTo && |ids| < options.batchSize
        invariant 0 <= id <= upTo && |ids| <= options.batchSize
        invariant ids + ClaimFrom(rows, {}, clock, id, upTo, options.batchSize - |ids|)
               == ClaimFrom(rows, {}, clock, 0, upTo, options.batchSize)
      {
        ClaimSteps(rows, {}, clock, id, upTo, options.batchSize - |ids|);
        if id in rows && Due(rows[id], clock) {
          ids := ids + [id];
        }
        id := id + 1;
      }
      NothingClaimed(rows, {}, clock, id, upTo, options.batchSize - |ids|);
    }

    /** Publishes one event and writes the answer down in the pass's own view of the
        table; once a statement has failed no later one is taken. */
    method PublishOne(
      table: map<nat, EventRow>, aborted: bool, id: nat)
      returns (after: map<nat, EventRow>, nowAborted: bool, published: bool)
      requires Valid() && id in rows && id in table
      modifies this`log, this`replies, this`statements
      ensures var reply := Next(old(replies));
        && replies == Later(old(replies), 1) && log == old(log) + (if reply.None? then [rows[id].event] else [])
        && (aborted ==> nowAborted && statements == old(statements))
        && (!aborted ==> Breaks(statements) == Breaks(old(statements)) - (if nowAborted then 1 else 0))
        && after == (if nowAborted then table else table[id := Written(options, table[id], clock, reply)])
        && (!nowAborted ==> Marked(options, table[id], after[id], clock, reply))
        && published == (!nowAborted && reply.None?)
    {
      hide Written, Marked;
      var reply := Publish(rows[id].event);
      after, nowAborted := table, aborted;
      if !aborted {
        var ok := Execute();
        nowAborted := !ok;
      }
      if !nowAborted {
        WrittenIsMarked(options, table[id], clock, reply);
        after := table[id := Written(options, table[id], clock, reply)];
      }
      published := !nowAborted && reply.None?;
    }

    /** Works through a claim, going on whatever fails. */
    method PublishAll(ids: seq<nat>) returns (table: map<nat, EventRow>, aborted: bool, published: nat)
      requires Valid() && forall id <- ids :: id in rows
      modifies this`log, this`replies, this`statements
      ensures replies == Later(old(replies), |ids|) && log == old(log) + EventsOf(rows, Taken(ids, old(replies)))
      ensures Breaks(statements) == Breaks(old(statements)) - (if aborted then 1 else 0)
      ensures !aborted ==>
        table == Applied(options, rows, ids, clock, old(replies)) && published == |Taken(ids, old(replies))|
    {
      hide Delay, Applied, Taken, Written, Later, Next;
      EmptyPass(options, rows, clock, replies);
      table, aborted, published := rows, false, 0;
      assert ids[..0] == [];
      for i := 0 to |ids|
        invariant table.Keys == rows.Keys
        invariant replies == Later(old(replies), i)
        invariant log == old(log) + EventsOf(rows, Taken(ids[..i], old(replies)))
        invariant Breaks(statements) == Breaks(old(statements)) - (if aborted then 1 else 0)
        invariant !aborted ==> published == |Taken(ids[..i], old(replies))|
        invariant !aborted ==> table == Applied(options, rows, ids[..i], clock, old(replies))
      {
        TakenStep(ids[..i], ids[i], old(replies));
        AppliedStep(options, rows, ids[..i], ids[i], clock, old(replies));
        LaterAdds(old(replies), i, 1);
        assert ids[..i + 1] == ids[..i] + [ids[i]];
        var done: bool;
        table, aborted, done := PublishOne(table, aborted, ids[i]);
        if done {
          published := published + 1;
        }
      }
      assert ids[..|ids|] == ids;
    }

    /** One drain pass. A publish that fails is written against its row and the loop
        goes on; a statement that fails loses every mark of the pass, though what was
        published stays published. */
    method RunOnce() returns (published: nat, failed: bool)
      requires Valid()
      modifies this`log, this`replies, this`statements, this`rows
      ensures Valid()
      ensures var ids := ClaimFrom(old(rows), {}, clock, 0, upTo, options.batchSize);
        && (forall id <- ids :: id in old(rows))
        && ((replies == Later(old(replies), |ids|) && log == old(log) + EventsOf(old(rows), Taken(ids, old(replies))))
            || (failed && replies == old(replies) && log == old(log)))
        && (failed ==> published == 0 && rows == old(rows) && Breaks(statements) < Breaks(old(statements)))
        && (!failed ==>
              && published == |Taken(ids, old(replies))| && Breaks(statements) == Breaks(old(statements))
              && rows == Applied(options, old(rows), ids, clock, old(replies)))
    {
      hide Delay, Applied, Taken, Later, ClaimFrom, Breaks;
      ClaimTakesTheOldest(rows, {}, clock, 0, upTo, options.batchSize);
      var ok := Execute();
      if !ok {
        return 0, true;
      }
      ok := Execute();
      if !ok {
        return 0, true;
      }
      var ids := Claim();
      assert forall id <- ids :: id in Claimable(rows, {}, clock, 0, upTo);
      if ids == [] {
        EmptyPass(options, rows, clock, replies);
        return 0, false;
      }
      var table, aborted;
      table, aborted, published := PublishAll(ids);
      if !aborted {
        ok := Execute();
      }
      if aborted || !ok {
        return 0, true;
      }
      rows, failed := table, false;
    }

    /** Waits until every row is due and runs a pass. */
    method AwaitAndRun()
      requires Valid() && Pending(rows, 0, upTo) != []
      modifies this`log, this`replies, this`statements, this`rows, this`clock
      ensures Valid() && old(log) <= log && Progress(old(rows), upTo, rows, log[|old(log)|..])
      ensures Needed(|Pending(rows, 0, upTo)|, options.batchSize, replies, statements)
            < Needed(|Pending(old(rows), 0, upTo)|, options.batchSize, old(replies), old(statements))
      ensures Refusals(old(replies)) + Breaks(old(statements)) == 0 ==>
        && Refusals(replies) + Breaks(statements) == 0
        && Passes(|Pending(rows, 0, upTo)|, options.batchSize) + 1
             == Passes(|Pending(old(rows), 0, upTo)|, options.batchSize)
        && InOrder(old(rows), upTo, rows, log[|old(log)|..])
    {
      hide Delay, Applied, Taken, Later, ClaimFrom, Refusals, Pending, Breaks, Passes, Needed, EventsOf, Progress;
      hide InOrder;
      clock := Horizon(rows, clock, upTo);
      PassAdvances(options, rows, upTo, clock, replies, statements);
      ghost var n, before, planned := |Pending(rows, 0, upTo)|, replies, statements;
      var published, failed := RunOnce();
      if failed {
        StillQueued(rows, upTo, log[|old(log)|..]);
        FewerAfterFailure(n, options.batchSize, before, replies, planned, statements);
      } else {
        SameBreaks(|Pending(rows, 0, upTo)|, options.batchSize, replies, planned, statements);
      }
    }

    /** Runs pass after pass, each once every row is due, until nothing is pending.
        That takes one pass a batch when nothing fails, delivering each event once
        and in order; each failure costs at most one more pass. */
    method Drain() returns (passes: nat)
      requires Valid()
      modifies this`log, this`replies, this`statements, this`rows, this`clock
      ensures Valid() && Pending(rows, 0, upTo) == []
      ensures passes <= Needed(|Pending(old(rows), 0, upTo)|, options.batchSize, old(replies), old(statements))
      ensures old(log) <= log && Progress(old(rows), upTo, rows, log[|old(log)|..])
      ensures Refusals(old(replies)) + Breaks(old(statements)) == 0 ==>
        && passes == Passes(|Pending(old(rows), 0, upTo)|, options.batchSize)
        && InOrder(old(rows), upTo, rows, log[|old(log)|..])
    {
      hide Refusals, Pending, Breaks, Needed, Progress, InOrder;
      passes := 0;
      ghost var queue, clean := Pending(rows, 0, upTo), Refusals(replies) + Breaks(statements) == 0;
      NoProgress(rows, upTo);
      assert log[|log|..] == [];
      while Pending(rows, 0, upTo) != []
        invariant Valid()
        invariant passes + Needed(|Pending(rows, 0, upTo)|, options.batchSize, replies, statements)
               <= Needed(|queue|, options.batchSize, old(replies), old(statements))
        invariant old(log) <= log && Progress(old(rows), upTo, rows, log[|old(log)|..])
        invariant clean ==>
          && Refusals(replies) + Breaks(statements) == 0
          && passes + Passes(|Pending(rows, 0, upTo)|, options.batchSize) == Passes(|queue|, options.batchSize)
          && InOrder(old(rows), upTo, rows, log[|old(log)|..])
        decreases Needed(|Pending(rows, 0, upTo)|, options.batchSize, replies, statements)
      {
        ghost var was, said := rows, log;
        AwaitAndRun();
        ProgressAdds(old(rows), was, rows, upTo, said[|old(log)|..], log[|said|..]);
        assert said[|old(log)|..] + log[|said|..] == log[|old(log)|..];
        passes := passes + 1;
      }
    }
  }
}
