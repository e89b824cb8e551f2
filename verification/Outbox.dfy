/** The outbox table's rows and the relay's retry arithmetic. */
module Outbox {
  import opened Text
  import opened Calendar
  import opened Rows

  /** A queued event with its delivery bookkeeping. */
  datatype EventRow = EventRow(
    event: Event,
    publishedAt: Option<Instant>,
    attempts: nat,
    lastError: Option<string>,
    nextAttemptAt: Instant)

  // ---- options and backoff ----

  /** A duration is a signed 64-bit count of nanoseconds. */
  const MAX_DURATION := 0x7fff_ffff_ffff_ffff

  /** What converting an out-of-range product to a duration yields. */
  const OUT_OF_RANGE := -0x8000_0000_0000_0000

  datatype RelayOptions = RelayOptions(batchSize: int, baseBackoff: int, maxBackoff: int, maxAttempts: int)

  const PARKED_BACKOFF := 24 * HOUR

  function OrDefault(x: int, default: int): int {
    if x <= 0 then default else x
  }

  /** Options that are not positive fall back to the defaults. */
  function NewRelayOptions(o: RelayOptions): (r: RelayOptions)
    requires o.baseBackoff < 0x8000_0000_0000_0000 && o.maxBackoff < 0x8000_0000_0000_0000
    ensures Usable(r)
    ensures r.batchSize == o.batchSize || (o.batchSize <= 0 && r.batchSize == 100)
    ensures r.baseBackoff == o.baseBackoff || (o.baseBackoff <= 0 && r.baseBackoff == 1_000_000_000)
    ensures r.maxBackoff == o.maxBackoff || (o.maxBackoff <= 0 && r.maxBackoff == 300_000_000_000)
    ensures r.maxAttempts == o.maxAttempts || (o.maxAttempts <= 0 && r.maxAttempts == 10)
  {
    RelayOptions(
      OrDefault(o.batchSize, 100), OrDefault(o.baseBackoff, SECOND),
      OrDefault(o.maxBackoff, 5 * MINUTE), OrDefault(o.maxAttempts, 10))
  }

  predicate Usable(o: RelayOptions) {
    o.batchSize > 0 && 0 < o.baseBackoff <= MAX_DURATION && 0 < o.maxBackoff <= MAX_DURATION && o.maxAttempts > 0
  }

  function Pow2(n: nat): (p: nat)
    ensures p >= 1
  {
    if n == 0 then 1 else 2 * Pow2(n - 1)
  }

  function ToDuration(x: int): int {
    if x <= MAX_DURATION then x else OUT_OF_RANGE
  }

  /** Doubles the delay per attempt, capped. The product is taken exactly; one
      that no duration can hold comes out negative. */
  function BackoffFor(o: RelayOptions, attempts: int): int {
    if attempts <= 1 then o.baseBackoff
    else
      var backoff := ToDuration(o.baseBackoff * Pow2(attempts - 1));
      if backoff <= 0 || backoff > o.maxBackoff then o.maxBackoff else backoff
  }

  /** The delay after the given number of failed attempts; 24 hours once they are
      exhausted. */
  function Delay(o: RelayOptions, attempts: int): (d: int)
    requires Usable(o)
    ensures d > 0
  {
    if attempts >= o.maxAttempts then PARKED_BACKOFF
    else
      BackoffPositive(o, attempts);
      BackoffFor(o, attempts)
  }

  lemma BackoffPositive(o: RelayOptions, attempts: int)
    requires Usable(o)
    ensures BackoffFor(o, attempts) > 0
  {
  }

  /** The doubling written out: attempt n waits base * 2^(n-1), read from the
      first attempt, or the cap. */
  function Doubled(o: RelayOptions, attempts: int): int {
    o.baseBackoff * Pow2(if attempts <= 1 then 0 else attempts - 1)
  }

  lemma BackoffClosedForm(o: RelayOptions, attempts: int)
    requires Usable(o)
    ensures attempts > 1 || o.baseBackoff <= o.maxBackoff ==>
      BackoffFor(o, attempts) == Min(Doubled(o, attempts), o.maxBackoff)
  {
    assert Pow2(0) == 1;
    var p := Pow2(if attempts <= 1 then 0 else attempts - 1);
    assert o.baseBackoff * p >= 1;
  }

  /** The delay owed after any number of attempts: 24 hours once they are exhausted,
      the base after the first, and the capped doubling in between. */
  lemma DelayClosedForm(o: RelayOptions, attempts: int)
    requires Usable(o)
    ensures Delay(o, attempts) ==
      if attempts >= o.maxAttempts then 86_400_000_000_000
      else if attempts <= 1 then o.baseBackoff
      else Min(o.baseBackoff * Pow2(attempts - 1), o.maxBackoff)
  {
    BackoffClosedForm(o, attempts);
  }

  lemma Redoubled(f: int, p: int, q: int)
    requires q == 2 * p
    ensures f * q == 2 * (f * p)
  {
  }

  /** Each delay but the parked one is twice the one before, up to the cap. */
  lemma EachDelayDoubles(o: RelayOptions, attempts: nat)
    requires Usable(o) && 1 <= attempts && attempts + 1 < o.maxAttempts
    ensures Delay(o, 1) == o.baseBackoff && Delay(o, attempts + 1) == Min(2 * Delay(o, attempts), o.maxBackoff)
  {
    DelayClosedForm(o, attempts);
    DelayClosedForm(o, attempts + 1);
    Redoubled(o.baseBackoff, Pow2(attempts - 1), Pow2(attempts));
    assert Pow2(0) == 1;
    hide Delay, Pow2;
  }

  lemma {:induction false} Pow2Grows(m: nat, n: nat)
    requires m <= n
    ensures Pow2(m) <= Pow2(n)
  {
    if m < n {
      Pow2Grows(m, n - 1);
    }
  }

  lemma ProductGrows(f: nat, x: nat, y: nat)
    requires x <= y
    ensures f * x <= f * y
  {
  }

  lemma DoubledGrows(o: RelayOptions, m: int, n: int)
    requires Usable(o) && m <= n
    ensures Doubled(o, m) <= Doubled(o, n)
  {
    var x, y := if m <= 1 then 0 else m - 1, if n <= 1 then 0 else n - 1;
    Pow2Grows(x, y);
    ProductGrows(o.baseBackoff, Pow2(x), Pow2(y));
  }

  /** The cap holds for every attempt exactly when the first delay is within it,
      and so does growth: the first attempt is never capped. */
  lemma BackoffBoundedIffOrdered(o: RelayOptions)
    requires Usable(o)
    ensures (forall n :: BackoffFor(o, n) <= o.maxBackoff) <==> o.baseBackoff <= o.maxBackoff
    ensures (forall m, n :: m <= n ==> BackoffFor(o, m) <= BackoffFor(o, n)) <==> o.baseBackoff <= o.maxBackoff
  {
    if o.baseBackoff <= o.maxBackoff {
      forall m, n | m <= n
        ensures BackoffFor(o, m) <= BackoffFor(o, n) <= o.maxBackoff
      {
        BackoffClosedForm(o, m);
        BackoffClosedForm(o, n);
        DoubledGrows(o, m, n);
      }
      forall n
        ensures BackoffFor(o, n) <= o.maxBackoff
      {
        BackoffClosedForm(o, n);
      }
    } else {
      BackoffClosedForm(o, 2);
      assert BackoffFor(o, 1) > o.maxBackoff >= BackoffFor(o, 2);
    }
  }

  /** Options that are used as given, and yet exceed their maximum and then shrink. */
  lemma TheFirstDelayIsNotCapped()
    ensures var o := RelayOptions(100, 2 * SECOND, SECOND, 10);
      NewRelayOptions(o) == o && BackoffFor(o, 1) > o.maxBackoff && BackoffFor(o, 2) < BackoffFor(o, 1)
  {
    BackoffClosedForm(RelayOptions(100, 2 * SECOND, SECOND, 10), 2);
  }

  // ---- the statements on a row ----

  predicate Due(row: EventRow, now: Instant) {
    row.publishedAt.None? && row.nextAttemptAt <= now
  }

  function MarkPublished(row: EventRow, now: Instant): EventRow {
    row.(publishedAt := Some(now), attempts := row.attempts + 1, lastError := None)
  }

  function MarkFailed(row: EventRow, now: Instant, error: string, delay: int): EventRow {
    row.(attempts := row.attempts + 1, lastError := Some(error), nextAttemptAt := now + delay)
  }

  /** What a mark makes of a row, given what the publisher said: taken, it is published
      and its error cleared; refused, it keeps the publisher's error and waits out the
      delay; one more try either way, and nothing else. */
  predicate Marked(o: RelayOptions, row: EventRow, written: EventRow, start: Instant, reply: Option<string>)
    requires Usable(o)
  {
    && written.event == row.event && written.attempts == row.attempts + 1 && written.lastError == reply
    && (reply.None? ==> written.publishedAt == Some(start) && written.nextAttemptAt == row.nextAttemptAt)
    && (reply.Some? ==> written.publishedAt == row.publishedAt
                        && written.nextAttemptAt == start + Delay(o, row.attempts + 1))
  }

  /** A parked row is only delayed: it comes due again by itself after 24 hours. */
  lemma ParkedComesDueAgain(o: RelayOptions, row: EventRow, now: Instant, error: string, later: Instant)
    requires Usable(o) && row.publishedAt.None? && row.attempts + 1 >= o.maxAttempts
    ensures Due(MarkFailed(row, now, error, Delay(o, row.attempts + 1)), later) <==> later >= now + 86_400_000_000_000
  {
  }

  /** The claim: due rows no other pass has locked, in id order from the given id
      up, at most limit of them. */
  function ClaimFrom(
    rows: map<nat, EventRow>, locked: set<nat>, now: Instant, from: nat, upTo: nat, limit: nat): (ids: seq<nat>)
    decreases upTo - from
  {
    if from >= upTo || limit == 0 then []
    else if from in rows && from !in locked && Due(rows[from], now) then
      [from] + ClaimFrom(rows, locked, now, from + 1, upTo, limit - 1)
    else ClaimFrom(rows, locked, now, from + 1, upTo, limit)
  }

  predicate Increasing(ids: seq<nat>) {
    forall i, j :: 0 <= i < j < |ids| ==> ids[i] < ids[j]
  }

  /** The rows a claim may take. */
  function Claimable(rows: map<nat, EventRow>, locked: set<nat>, now: Instant, from: nat, upTo: nat): set<nat> {
    set id |
      && id in rows && from <= id < upTo && id !in locked
      && rows[id].publishedAt.None? && rows[id].nextAttemptAt <= now
  }

  /** One step of the claim, at the id in hand. */
  lemma ClaimSteps(rows: map<nat, EventRow>, locked: set<nat>, now: Instant, from: nat, upTo: nat, limit: nat)
    requires from < upTo && limit > 0
    ensures ClaimFrom(rows, locked, now, from, upTo, limit) ==
      if from in rows && from !in locked && Due(rows[from], now)
      then [from] + ClaimFrom(rows, locked, now, from + 1, upTo, limit - 1)
      else ClaimFrom(rows, locked, now, from + 1, upTo, limit)
  {
  }

  lemma {:induction false} ClaimIsClaimable(
    rows: map<nat, EventRow>, locked: set<nat>, now: Instant, from: nat, upTo: nat, limit: nat)
    ensures var ids := ClaimFrom(rows, locked, now, from, upTo, limit);
      && |ids| <= limit && forall id <- ids :: id in Claimable(rows, locked, now, from, upTo)
    decreases upTo - from
  {
    if from < upTo && limit > 0 {
      if from in rows && from !in locked && Due(rows[from], now) {
        ClaimIsClaimable(rows, locked, now, from + 1, upTo, limit - 1);
      } else {
        ClaimIsClaimable(rows, locked, now, from + 1, upTo, limit);
      }
    }
  }

  lemma {:induction false} ClaimIsIncreasing(
    rows: map<nat, EventRow>, locked: set<nat>, now: Instant, from: nat, upTo: nat, limit: nat)
    ensures Increasing(ClaimFrom(rows, locked, now, from, upTo, limit))
    decreases upTo - from
  {
    hide Due, ClaimFrom, Increasing;
    if from < upTo && limit > 0 {
      ClaimSteps(rows, locked, now, from, upTo, limit);
      if from in rows && from !in locked && Due(rows[from], now) {
        ClaimIsIncreasing(rows, locked, now, from + 1, upTo, limit - 1);
        ClaimIsClaimable(rows, locked, now, from + 1, upTo, limit - 1);
        IncreasingAfter(from, ClaimFrom(rows, locked, now, from + 1, upTo, limit - 1));
      } else {
        ClaimIsIncreasing(rows, locked, now, from + 1, upTo, limit);
      }
    } else {
      NothingClaimed(rows, locked, now, from, upTo, limit);
    }
  }

  lemma NothingClaimed(rows: map<nat, EventRow>, locked: set<nat>, now: Instant, from: nat, upTo: nat, limit: nat)
    requires from >= upTo || limit == 0
    ensures ClaimFrom(rows, locked, now, from, upTo, limit) == [] && Increasing([])
  {
  }

  lemma IncreasingAfter(first: nat, ids: seq<nat>)
    requires Increasing(ids) && forall id <- ids :: first < id
    ensures Increasing([first] + ids)
  {
    assert forall j :: 0 <= j < |ids| ==> ids[j] in ids;
  }

  /** A claimable row that was passed over is younger than a full claim. */
  lemma {:induction false} ClaimPassesOver(
    rows: map<nat, EventRow>, locked: set<nat>, now: Instant, from: nat, upTo: nat, limit: nat, id: nat)
    requires id in Claimable(rows, locked, now, from, upTo) && id !in ClaimFrom(rows, locked, now, from, upTo, limit)
    ensures |ClaimFrom(rows, locked, now, from, upTo, limit)| == limit
    ensures forall x <- ClaimFrom(rows, locked, now, from, upTo, limit) :: x < id
    decreases upTo - from
  {
    if limit > 0 {
      if from in rows && from !in locked && Due(rows[from], now) {
        assert id != from;
        ClaimPassesOver(rows, locked, now, from + 1, upTo, limit - 1, id);
      } else {
        ClaimPassesOver(rows, locked, now, from + 1, upTo, limit, id);
      }
    }
  }

  /** A claim is duplicate-free and in id order, holds only claimable rows, never
      more than its limit, and passes over a claimable row only when it is full
      of older ones. */
  lemma ClaimTakesTheOldest(rows: map<nat, EventRow>, locked: set<nat>, now: Instant, from: nat, upTo: nat, limit: nat)
    ensures var ids := ClaimFrom(rows, locked, now, from, upTo, limit);
      && Increasing(ids) && |ids| <= limit
      && (forall id <- ids :: id in Claimable(rows, locked, now, from, upTo))
      && (forall id <- Claimable(rows, locked, now, from, upTo) :: id !in ids ==>
            |ids| == limit && forall x <- ids :: x < id)
  {
    hide Due, ClaimFrom, Increasing, Claimable;
    ClaimIsIncreasing(rows, locked, now, from, upTo, limit);
    ClaimIsClaimable(rows, locked, now, from, upTo, limit);
    var ids := ClaimFrom(rows, locked, now, from, upTo, limit);
    forall id | id in Claimable(rows, locked, now, from, upTo) && id !in ids
      ensures |ids| == limit && forall x <- ids :: x < id
    {
      ClaimPassesOver(rows, locked, now, from, upTo, limit, id);
    }
  }
}
