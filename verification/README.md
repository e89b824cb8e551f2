# Ingest, outbox and relay: a verified model

The service accepts toll and parking transactions from roadside systems, keeps each one
once under the key its source gave it, and tells a downstream pipeline about each one
through a transactional outbox that relays drain. This project models that path in Dafny
and proves what it is for.

* **Concurrent ingest** (`Protocol`, `IngestProofs`, `Guarantees`). Any number of ingest
  calls and relay passes share one database as a transition system: an uncommitted insert
  locks its key, a statement sees the latest committed state, a failed statement ends its
  transaction, a caller may be gone while its commit still applies. Every run amounts to a
  sequential run of the in-memory store, in an order that respects real time.
* **Relay passes** (`Outbox`, `RelayProofs`, `Delivery`, `Draining`, `Tally`). Claims,
  publishes, marks, idle passes and retry delays. A pass whose statement fails or whose session
  ends loses its transaction and its locks at once, while its loop goes on publishing. In every
  state each transaction has exactly one event, each delivery is accounted for, claims backed by
  a transaction exclude one another, retries wait their delay; draining takes one pass a batch
  plus at most one a failure.
* **The code in the system** (`Continuation`, `CallContinuation`): passes and calls of the code
  are stretches of runs, whatever fails in them, and from any state of any run some way of going
  on publishes everything.
* **Durable and in-memory stores** (`PostgresStore`, `MemoryStore`): the statement-by-statement
  code of the durable store and the map-based code of the in-memory one, each proved against
  the same atomic specification.
* **Canonical forms** (`Decimals`, `Money`, `Calendar`, `Json`, `Identity`, `Fingerprints`,
  `Rows`): exact amounts, the fingerprint encoding and its injectivity, the columns and the
  event body.
* **Examples** (`Example`, `Counterexamples`): a whole run from a submission to its published
  event, a poll that finds nothing, and accepted submissions that miss the conditions below.
* **Acceptance** (`Validation`, `TypeSets`), **source labels** (`SourceLabels`) and the
  **error text** (`ErrorText`).

Where the properties one would expect fail, the lemmas say exactly when they hold, and a
witness shows an input that fails:

* The fingerprint tells billings apart exactly when the instant is in UTC years 0 to 9999,
  the first 3,652,425 days of the calendar.
  Outside them the encoder's error is discarded (`internal/transaction/fingerprint.go:86`)
  and every transaction hashes the same empty input. The durable store then refuses the
  transaction, because its event cannot be built either; the in-memory store accepts it.
  Witness: `Counterexamples.UnencodableYearsCollide`.
* A row gives back the very transaction exactly when both its instants are whole
  microseconds; what TIMESTAMPTZ drops also changes the recomputed fingerprint. The stored
  fingerprint is the one taken before, so replays are still recognised. Witness:
  `Counterexamples.NanosecondsAreLost`.
* An accepted transaction fits its row exactly when its amount is below 10^15. Witness:
  `Counterexamples.TooMuchIsAccepted`.
* The retry delay stays within its maximum, and grows with the attempts, exactly when the
  base delay is not above the maximum: the first delay is never capped. Witness:
  `Outbox.TheFirstDelayIsNotCapped`.
* A parked event is only delayed by 24 hours. `docs/flows.md` has an operator requeue it;
  in the code it becomes due again by itself (`Outbox.ParkedComesDueAgain`), and the model
  follows the code.
* A tracked source's counter is exactly its own calls, unless the source is itself named
  `other` or `unknown`, when it also counts those. Witness:
  `SourceLabels.ACatchAllNameMixesCounts`.
* A run delivers every event exactly once exactly when no pass that has sent something loses its
  transaction, and no pass without one gets an event taken. It is not enough that passes lose
  their transaction before they send: the loop goes on, and another pass may claim the same rows.
  Witness: `Example.LostBeforeSendingDeliversTwice`. Polls that find nothing do no harm.

Instants are nanoseconds since year 0, decimals a coefficient and a scale. Characters stand
for bytes where lengths are counted and for code points inside JSON strings; the two are the
same within ASCII. The memory, the history, the publish log and the committed tries in `Protocol`
are records kept for the proofs; what a step does to the tables does not depend on them.

## Model

| member | source | states |
|---|---|---|
| `Guarantees.IngestRefinesMemory` | internal/store/postgres/postgres.go:134-211 | In every run the committed rows are the rows of a sequential in-memory run; each answer is the outcome of one of its calls, made between submission and reply; no call counts twice, and a call that errs counts once or not at all; an error is never a missing or unreadable read-back |
| `Guarantees.OrderRespectsRealTime` | internal/store/postgres/postgres.go:134-153 | A call answered before another was submitted comes before it in that sequential run |
| `Guarantees.AnswersAreRight` | internal/transaction/store.go:27-51 | A fresh answer returns what was submitted; a duplicate returns the record kept under its key, as its columns keep it, and is flagged divergent exactly when the submission bills differently |
| `Guarantees.AnswersReturnTheFirst` | internal/store/postgres/postgres.go:121-133 | An answer is fresh exactly when its call is the first under its key in the sequential run, and a duplicate returns what that first call submitted |
| `Guarantees.OneFreshAnswerEach` | internal/store/postgres/postgres.go:76-82 | At most one call a key is ever answered fresh |
| `Guarantees.RowIdsAreUnique` | db/migrations/20260815000001_create_transactions.sql:12 | No two committed rows share an identifier |
| `Guarantees.EveryStateKeeps` | internal/store/postgres/postgres.go:134-238 | Every state of every run satisfies the joint invariant of calls and relay passes |
| `Guarantees.StepKeeps` | internal/store/postgres/postgres.go:134-238 | Each of the sixteen steps keeps that invariant |
| `IngestProofs.SelectFinds` | internal/store/postgres/postgres.go:190-206 | The read-back after a conflict finds a readable record and answers what the in-memory store answers |
| `IngestProofs.InsertKeeps` | internal/store/postgres/postgres.go:83-104 | Inserting keeps the calls' invariant: among others a key is held by at most one open transaction |
| `CallContinuation.InsertOutcome` | internal/store/postgres/postgres.go:155-206 | A row that breaks a constraint ends the call, a committed key is a conflict, and otherwise the call holds its key |
| `IngestProofs.QueueKeeps` | internal/store/postgres/postgres.go:220-238 | Queueing an event, or failing to build it, keeps the calls' invariant: open transactions have serials and event ids of their own, unused in the table |
| `IngestProofs.CommitKeeps` | internal/store/postgres/postgres.go:148-152 | A commit keeps the calls' invariant: tables that mirror a sequential run, with one event each |
| `CallContinuation.CommitsNew` | internal/store/postgres/postgres.go:148-152 | The commit of a new key shows row and event together, as the in-memory store's call, and its caller hears of a fresh outcome |
| `CallContinuation.RunGoesOnWithACall` | internal/store/postgres/postgres.go:134-211 | Whatever fails in it, a call of the code on a key no one holds is a stretch of the transition system: same answer, tables and memory as `IngestOne` |
| `IngestProofs.AbandonKeeps` | internal/store/postgres/postgres.go:148-150 | A caller told of an error while its transaction is still open, and may yet commit, leaves everything consistent |
| `IngestProofs.FinishKeeps` | internal/store/postgres/postgres.go:139-146 | Ending a transaction at any point with an error keeps the calls' invariant on the tables as they are |
| `PostgresStore.Store.IngestOne` | internal/store/postgres/postgres.go:134-153 | One call: answered exactly when no statement it reaches fails, its row meets the constraints and a new event can be built; it then does what the in-memory store does; otherwise the tables are unchanged, except after a commit that applied but was reported failed |
| `PostgresStore.Store.IngestInTx` | internal/store/postgres/postgres.go:155-211 | Inside the transaction: the outcome, and the row and event to write for a new key and nothing for an old one |
| `PostgresStore.Store.WriteOutboxEvent` | internal/store/postgres/postgres.go:220-238 | The event gets a serial of its own, unpublished and untried; it fails when the event cannot be built or the statement fails |
| `PostgresStore.BuildableIffInRange` | internal/outbox/outbox.go:147-150 | An event can be built exactly when both its instants are within the first 3,652,425 days |
| `PostgresStore.Store.Apply` | internal/store/postgres/postgres.go:148-152 | Both rows appear together and the tables keep mirroring the memory with one event each |
| `PostgresStore.Store.Get` | internal/store/postgres/postgres.go:241-256 | Returns the record under a key as its columns keep it, or not found |
| `PostgresStore.CommitKeepsTables` | internal/store/postgres/postgres.go:186-189 | Writing a new row with its event keeps exactly one event for each transaction |
| `MemoryStore.IngestKeepsTheFirst` | internal/store/memory/memory.go:48-67 | After a call its key holds the record returned; other keys and earlier records are unchanged; duplicate exactly when the key was there; divergent exactly when the kept fingerprint differs |
| `MemoryStore.FirstSubmissionWins` | internal/store/memory/memory.go:48-67 | After any sequence of calls the record and fingerprint under a key are those of the first call with it, and keys never sent are absent |
| `MemoryStore.ReplayIsHarmless` | internal/transaction/store.go:14-24 | Sending under a known key changes nothing and returns the stored record as a duplicate |
| `MemoryStore.Store.IngestOne` | internal/store/memory/memory.go:48-67 | The code on its two maps computes the specification's new contents and outcome |
| `Delivery.OneEventPerTransaction` | internal/store/postgres/postgres.go:180-189 | In every state each committed transaction has exactly one event, made from the same transaction as its row, and each event a committed transaction; event ids are unique |
| `Delivery.LogIsOneToOne` | internal/outbox/relay.go:241-248 | The publish log, read by event id, maps one to one into committed transactions: same event id exactly when same source and reference |
| `Delivery.NothingIsLost` | db/migrations/20260815000002_create_outbox_events.sql:36-46 | Over any stretch of any run rows and events stay with their content, attempts only grow, and a published row never changes |
| `Delivery.ClaimsAreExclusive` | internal/outbox/relay.go:141-154 | A pass that has its transaction holds at most a batch, in id order, of rows unpublished and due when it began, none held by another pass with a transaction |
| `Delivery.PublishedIsNeverClaimed` | internal/outbox/relay.go:147-159 | Once published, a row is in no claim made from then on, nor in one still backed by its transaction |
| `Delivery.DeliveryIsConserved` | internal/outbox/relay.go:184-198 | Deliveries of an event = one if published + the passes without their transaction that have sent it + the passes with theirs that have, at most one and none once published |
| `Delivery.ExactlyOnceIffNoneLost` | internal/outbox/relay.go:232-248 | A published event was delivered; an event was delivered once if published and never otherwise, exactly when no pass has sent it but the one that committed it |
| `Delivery.ExactlyOnceIffHarmless` | internal/outbox/relay.go:169-199 | A run delivers every event once, when published or sent under a transaction, and never otherwise, exactly when none of its actions takes the transaction of a pass that has sent something or lets a pass without one deliver |
| `Example.LostBeforeSendingDeliversTwice` | internal/outbox/relay.go:184-192 | A run in which no pass loses its transaction after sending, and which delivers a published event twice |
| `Delivery.RetriesWaitTheirDelay` | internal/outbox/relay.go:250-287 | Attempts are the committed tries; each try, and each pass holding the row under its transaction, began after the delay owed for every failed try before it; only the last try can have succeeded, and then the row is published; the row's last error is the one its last try was refused with, and none when it has no try or was published |
| `Delivery.AcknowledgedIsDeliveredOrPending` | internal/store/postgres/postgres.go:121-133 | From the moment a caller is answered its record is committed, its event exists, and the event is unpublished in the table or has been delivered |
| `Delivery.DeliveredIsStored` | internal/outbox/outbox.go:112-160 | Every delivered event says what its committed row says: identifiers, instants, and the exact amount written to all the places of its currency |
| `Delivery.LivePassesDeliver` | internal/outbox/relay.go:184-192 | Passes with a transaction have delivered an event at most once among them, as often as they have sent it, and never one that is published |
| `Tally.PassesAreBounded` | internal/outbox/relay.go:105-139 | Over any stretch of a run without new events, with any number of relays, the committed passes are at most the events published meanwhile plus the publishes refused |
| `Tally.RefusedAreTheFailures` | internal/outbox/relay.go:250-283 | What counts as refused are the failures among a row's committed tries |
| `Example.ARunDelivers` | internal/outbox/outbox.go:1-20 | Any accepted transaction that fits its row and can be announced has a run in which it is stored, its caller told so, and its event published once |
| `Example.AReadingIsDelivered` | internal/outbox/relay.go:169-199 | An actual reading, accepted under actual rules, has such a run |
| `Example.AnIdlePollLosesNothing` | internal/outbox/relay.go:176-182 | A poll of an empty table is a run whose pass ends idle, with nothing lost, open or logged |
| `Continuation.EveryEventCanBePublished` | internal/outbox/relay.go:105-139 | From every state of every run, whatever is open, some way of going on publishes every event, with no transaction or event lost |
| `Continuation.RunGoesOnWithAPass` | internal/outbox/relay.go:169-199 | Whatever the publisher answers, a pass of the code is a stretch of the transition system, whether it commits, fails before its claim, or loses its transaction at any mark or the commit and goes on publishing; it leaves table and log as `RunOnce` does |
| `Continuation.MarkedWorksOn` | internal/outbox/relay.go:184-192 | The marks a pass has made over the table are the table the code has reached, event by event |
| `RelayProofs.ClaimKeeps` | internal/outbox/relay.go:207-230 | A claim takes no row another open pass holds |
| `RelayProofs.PublishKeeps` | internal/outbox/relay.go:232-235 | Publishing keeps the relays' invariant: deliveries by open passes stay counted once each |
| `RelayProofs.PublishAddsOne` | internal/outbox/relay.go:232-235 | A publish adds at most one delivery, of the claimed row's own event, which its pass had not delivered before |
| `RelayProofs.MarkKeeps` | internal/outbox/relay.go:156-164 | Marking keeps the relays' invariant |
| `RelayProofs.MarkWritesTheOutcome` | internal/outbox/relay.go:232-283 | A mark writes the current row, and no other: published with its error cleared, or rescheduled with the publisher's error kept |
| `RelayProofs.CommitPassKeeps` | internal/outbox/relay.go:194-198 | A commit keeps the relays' invariant, of other passes too |
| `RelayProofs.CommitWritesItsTries` | internal/outbox/relay.go:194-198 | A commit publishes exactly the claimed rows its pass has sent, reschedules the others with the error each was refused with, adds one try to each, and leaves every other row alone |
| `RelayProofs.IdleDeliversNothing` | internal/outbox/relay.go:180-182 | A pass that claimed nothing has sent and delivered nothing |
| `RelayProofs.EndPassKeeps` | internal/outbox/relay.go:180-182 | Ending an idle pass keeps the relays' invariant and the tables, and no delivery is its own |
| `RelayProofs.LosePassKeeps` | internal/outbox/relay.go:170-197 | Losing a transaction at any point keeps the relays' invariant, the tables and the log, frees the claim, and leaves the pass with its claim and what it has sent |
| `RelayProofs.PublishLateKeeps` | internal/outbox/relay.go:184-192 | A pass that goes on publishing without its transaction keeps the relays' invariant, the tables and the other passes |
| `RelayProofs.DueIsSpaced` | internal/outbox/relay.go:147-154 | A row that is due has waited out the delay of every try so far |
| `Outbox.NewRelayOptions` | internal/outbox/relay.go:63-93 | Options that are positive are kept; each other one becomes its default, and the result is positive throughout |
| `Outbox.BackoffClosedForm` | internal/outbox/relay.go:290-303 | Attempt n waits min(base * 2^(n-1), max) exactly, whatever n, for n above 1 or base within max |
| `Outbox.BackoffBoundedIffOrdered` | internal/outbox/relay.go:290-303 | Delays stay within max, and never shrink, exactly when base is at most max |
| `Outbox.DelayClosedForm` | internal/outbox/relay.go:250-261 | The delay owed after any number of attempts is 24 hours once they are exhausted, the base after the first, and the capped doubling in between |
| `Outbox.EachDelayDoubles` | internal/outbox/relay.go:290-303 | Each delay but the parked one is twice the one before it, up to the maximum |
| `Outbox.ParkedComesDueAgain` | internal/outbox/relay.go:255-287 | A parked row is due again from 24 hours after its last try on, and not before |
| `Outbox.TheFirstDelayIsNotCapped` | internal/outbox/relay.go:291-293 | With a base of two seconds and a maximum of one the first delay is above the maximum and the second shorter |
| `Outbox.ClaimTakesTheOldest` | internal/outbox/relay.go:147-154 | A claim is duplicate-free, in id order, within its limit, only of due unlocked rows, and leaves one out only when full of older ones |
| `Draining.Relay.Drain` | internal/outbox/relay.go:105-139 | Empties the queue within one pass a batch plus one a refused publish or failed statement, delivering every queued event; with no failure in exactly the batches' number, each event once and in order |
| `Draining.Relay.AwaitAndRun` | internal/outbox/relay.go:169-199 | Each pass over due rows brings the bound down, and what leaves the queue has been delivered |
| `Draining.Relay.RunOnce` | internal/outbox/relay.go:169-199 | A pass publishes its whole claim whatever fails; it then either commits every mark, or fails with the table unchanged and nothing reported published |
| `Draining.Relay.PublishAll` | internal/outbox/relay.go:184-192 | The loop goes on after every failure, and after an aborted statement still publishes the rest |
| `Draining.Relay.PublishOne` | internal/outbox/relay.go:232-283 | A delivered event is marked published with its error cleared, a refused one rescheduled with the publisher's error, unless the transaction is aborted |
| `Draining.Relay.Claim` | internal/outbox/relay.go:207-230 | Collects the claim in id order up to the batch size |
| `Draining.PassesRoundUp` | internal/outbox/relay.go:45-48 | The number of batches is the quotient rounded up |
| `Draining.PassAdvances` | internal/outbox/relay.go:169-199 | A committing pass without refusals takes a whole batch off the front; with refusals it uses some of them up |
| `Draining.AppliedPublishes` | internal/outbox/relay.go:156-164 | A pass publishes exactly the rows it delivered and keeps every event |
| `Draining.AppliedMarks` | internal/outbox/relay.go:250-283 | A pass leaves each row it claimed with one more try and, by what the publisher said in that event's turn, published or rescheduled with the error |
| `Draining.ClaimIsTheFront` | internal/outbox/relay.go:147-154 | With every row due, a claim is the oldest part of the queue |
| `Decimals.CanonicalDecides` | internal/transaction/fingerprint.go:67-70 | The trimmed text of two decimals is equal exactly when their values are |
| `Decimals.FixedDecides` | internal/money/money.go:130-135 | At enough places the fixed text never rounds and is equal exactly when the values are |
| `Decimals.FixedWrites` | internal/outbox/outbox.go:125-128 | The fixed text writes the value, without superfluous leading zeros, with exactly the given places |
| `Decimals.CanonicalWrites` | internal/transaction/fingerprint.go:67-70 | The trimmed text writes the value, without superfluous leading zeros, and ends in no zero after the point |
| `Decimals.RoundsHalfAway` | internal/outbox/outbox.go:128 | Rounding loses at most half a unit of the last place, and a half goes away from zero |
| `Decimals.RenderReads` | internal/money/money.go:79-82 | Reading a rendering gives back the decimal rendered |
| `Decimals.DecimalTextIffSpelled` | internal/money/money.go:47 | A text is accepted exactly when an optional sign, digits and an optional fraction of digits spell it |
| `Money.DecimalPlaces` | internal/money/money.go:100-107 | The backward scan counts the characters after the last point |
| `Money.ParseAccepts` | internal/money/money.go:71-92 | Parse accepts exactly the spelled decimals with no more places than the currency, trailing zeros included |
| `Money.ParseTells` | internal/money/money.go:71-92 | Each text is refused as empty, as no decimal or for its places, or read as the decimal it spells, with the text kept |
| `Money.ParsedFits` | internal/money/money.go:86-91 | A parsed value has no more places than its currency, so rendering never rounds |
| `Money.PrintParseRoundTrip` | internal/money/money.go:71-135 | Parsing the rendered number gives an equal amount, and rendering that the same text |
| `Money.RenderedDecides` | internal/money/money.go:124-128 | Same-currency amounts render alike, fixed or trimmed, exactly when they are equal |
| `Money.RenderedWrites` | internal/outbox/outbox.go:125-128 | The announced text writes the amount with exactly its currency's places: 12.50 in dollars, never 12.5 |
| `Money.LookupIsKnown` | internal/money/currency.go:80-83 | Whatever the case and padding of a code, the currency found is of the table, has an exponent of at most 3 and is found again by its own code |
| `Money.KnownIffFound` | internal/money/currency.go:35-83 | The currencies of the table are exactly those found under their own code |
| `Money.KnownIffListed` | internal/money/currency.go:35-74 | The currencies of the table are those listed for the five markets, each with its places |
| `Identity.Canonicalize` | internal/transaction/identity.go:91-105 | The byte loop keeps letters, upper-cased, and digits, in order |
| `Identity.KeyOfOne` | internal/transaction/identity.go:95-102 | What a single character contributes to a key |
| `Identity.KeyEmptyIffUnusable` | internal/transaction/identity.go:47-50 | A key is empty exactly when the read has no letter or digit |
| `Identity.SeparatorsAndCaseAreIgnored` | internal/transaction/identity.go:60-75 | Separators anywhere and case make no difference to a key |
| `Identity.KeySettles` | internal/transaction/identity.go:91-105 | Canonicalizing a key changes nothing, so leading zeros survive |
| `Calendar.FormatDiffers` | internal/transaction/fingerprint.go:48 | Instants of the first 3,652,425 days have the same JSON text exactly when they are the same instant |
| `Calendar.EncodableIffInRange` | internal/transaction/fingerprint.go:84-86 | The encoder takes an instant exactly when it lies in the first 3,652,425 days, which are the Gregorian years 0 to 9999 |
| `Calendar.FormatSays` | internal/transaction/fingerprint.go:48 | The text of an instant spells its date, time of day and fraction as section 5.6 of RFC 3339 does, the fraction without needless zeros |
| `Calendar.DateIsGregorian` | internal/transaction/fingerprint.go:48 | The date of a day is the one the closed formula of the Gregorian calendar gives |
| `Json.EncodeDiffers` | internal/transaction/fingerprint.go:84-86 | JSON texts, escapes included (section 7 of RFC 8259), are equal exactly when the values are |
| `Json.EncodeIsPlain` | internal/transaction/fingerprint.go:84-86 | What the encoder writes in front of the rest of a text is the compact text of the value, brackets, commas and quotes included |
| `Json.EscapeMeans` | internal/transaction/fingerprint.go:84-86 | Each escape stands for its character under section 7 of RFC 8259, and none lets through what HTML or JavaScript would misread |
| `Fingerprints.FingerprintDecides` | internal/transaction/fingerprint.go:60-90 | Two accepted transactions, one within the first 3,652,425 days, have one pre-hash encoding exactly when they bill the same |
| `Fingerprints.FingerprintIdentifiesIffEncodable` | internal/transaction/fingerprint.go:84-86 | An accepted transaction's encoding singles out its billing exactly when its instant is within those days |
| `Fingerprints.ReplayDetected` | internal/transaction/fingerprint.go:14-43 | Two accepted submissions have one encoding exactly when source, reference, type up to case and blanks, instant, usable reads, numeric amount, documents and the currency they are in agree: the configured one when none is named, otherwise the one of the table with the submitted letters |
| `Validation.RejectsExactlyTheViolations` | internal/transaction/validate.go:82-141 | Refused exactly when a rule is broken; the problems are exactly the broken rules in order, each with its reason and its values, amount skipped when the currency is bad; otherwise accepted unless no id can be minted |
| `Validation.AcceptedIsAcceptable` | internal/transaction/validate.go:82-141 | What an accepted transaction satisfies: parsed non-negative amount, only usable identifiers and at least one, known currency, starting statuses, text kept verbatim, time within the skew |
| `Validation.AmountRuleDecides` | internal/transaction/validate.go:220-234 | An amount passes exactly when it is spelled within the currency's places and is not negative, negative zero included |
| `Validation.IdentityRuleDecides` | internal/transaction/validate.go:257-283 | The identity rule holds exactly when some read is usable |
| `Validation.TypeRuleDecides` | internal/transaction/validate.go:145-165 | A type passes exactly when it is configured up to case and blanks, and becomes the last configured spelling, trimmed; otherwise at most 64 characters of it are repeated back |
| `Validation.TimeRuleDecides` | internal/transaction/validate.go:173-194 | A time passes exactly when it is not the zero time and at most the configured allowance, or else five minutes, ahead of the clock |
| `Validation.ResolvesIffDenominates` | internal/transaction/validate.go:197-217 | The currency found is the configured one when none is named, and otherwise the one of the table whose code has the submitted letters, whatever their case and the blanks around them |
| `Validation.AmountRefused` | internal/transaction/validate.go:236-248 | An amount that is not billable is refused as missing, no decimal, too fine for its currency or negative, whichever it is |
| `Validation.ReadsAreKept` | internal/transaction/validate.go:257-283 | Each usable read is kept as read, with its jurisdiction and keys, and no unusable one |
| `Counterexamples.NegativeZeroIsAccepted` | internal/money/money_test.go:172 | A submission with the amount -0.00, and a type and currency in another case, is accepted |
| `Counterexamples.UnencodableYearsCollide` | internal/transaction/fingerprint.go:84-86 | Two accepted submissions of UTC year -1 with different keys share one fingerprint, though they bill differently, and cannot be announced |
| `Counterexamples.NanosecondsAreLost` | db/migrations/20260815000001_create_transactions.sql:24-28 | An accepted instant one nanosecond past the microsecond reads back changed, with another fingerprint |
| `Counterexamples.TooMuchIsAccepted` | db/migrations/20260815000001_create_transactions.sql:43 | An accepted amount of 10^15 has a row the table refuses |
| `Validation.AcceptedComesFrom` | internal/transaction/validate.go:118-140 | Each field of an accepted transaction comes from its field of the submission, the minted id and the time of receipt: type in the last configured spelling, usable reads with their keys, the currency the submission is in; both statuses are the starting ones |
| `Rows.RowRoundTrip` | internal/store/postgres/postgres.go:258-326 | Decoding the row of an accepted transaction gives it back as its columns keep it, with its fingerprint |
| `Rows.MicrosAreTheLast` | db/migrations/20260815000001_create_transactions.sql:24-28 | The instant a column keeps is the last whole microsecond not after it |
| `Rows.ReadableIffCurrencyAndAmount` | internal/store/postgres/postgres.go:258-326 | A row is readable exactly when its currency is known and its text an amount in it, and is never repaired |
| `Rows.StoredExactlyIffWholeMicros` | db/migrations/20260815000001_create_transactions.sql:24-28 | Nothing is lost exactly when both instants are whole microseconds, and the fingerprint is recomputed exactly when the covered one is, or has no encoding |
| `Rows.IdentifiersSurviveIffNotEmpty` | internal/store/postgres/postgres.go:370-385 | An identifier survives its nullable column exactly when its number is not empty |
| `Rows.AcceptedFitsIffBelowLimit` | db/migrations/20260815000001_create_transactions.sql:43-76 | The row of every accepted transaction meets the identifier and non-negative CHECKs; it meets the column's precision too exactly when the amount is below 10^15, with no rounding |
| `Rows.FitsIffIdentifiedAndWithinLimit` | db/migrations/20260815000001_create_transactions.sql:43-76 | Of any transaction with at most four places, accepted or not, the row meets the constraints exactly when some identifier has a key and the amount is from zero to below 10^15 |
| `Rows.EventAgreesWithRow` | internal/outbox/outbox.go:112-160 | The event body agrees with the row field by field, and its amount writes the exact amount of the row to all the places of its currency |
| `SourceLabels.LabelsNeverDisagree` | internal/platform/metrics/labels.go:52-88 | Over any interleaving all calls for sources that agree on their first 64 characters get one label: those characters once tracked, or the overflow when the set is full without them |
| `SourceLabels.TrackedOnlyGrows` | internal/platform/metrics/labels.go:74-87 | The tracked set only grows, never past the limit, and a label once given stays |
| `SourceLabels.CountersAddUp` | internal/platform/metrics/metrics.go:153-156 | Counters add up to the recorded calls, there are at most limit + 2, and each is known exactly: a tracked source's own calls, the overflow's and those without a source |
| `SourceLabels.ACatchAllNameMixesCounts` | internal/platform/metrics/labels.go:32-39 | A run in which a tracked source named `other` counts a call of another source as well |
| `SourceLabels.StepKeeps` | internal/platform/metrics/labels.go:62-88 | Each lock region keeps every label given so far right |
| `SourceLabels.Labels.Label` | internal/platform/metrics/labels.go:52-88 | Whatever others track between the two locks, the label is right for the resulting set |
| `SourceLabels.Labels.Track` | internal/platform/metrics/labels.go:74-87 | The second look adds at most this source, and none when full |
| `ErrorText.FormatFieldErrors` | internal/httpapi/apierror.go:59-78 | The text joins the one strictly increasing listing of the errors: field, colon and reason, or the reason alone; errors that say nothing are left out |
| `ErrorText.TextIsOfTheSet` | internal/httpapi/apierror.go:56-58 | Two inputs with the same errors, in any order and number, give the same text |
| `ErrorText.TwoTexts` | internal/httpapi/apierror.go:56-78 | Two errors, in whatever order and number, give the smaller text, a semicolon and a space, and the greater |
| `ErrorText.JoinedSplits` | internal/httpapi/apierror.go:77 | Joining two lists puts a semicolon and a space between what each gives |
| `ErrorText.OnlyOneListing` | internal/httpapi/apierror.go:76-77 | A set of texts has only one strictly increasing listing |
| `Text.ByteOrder` | internal/httpapi/apierror.go:76 | The order of the texts is that of the first place where they differ, a text coming before its continuations |
| `ErrorText.Sort` | internal/httpapi/apierror.go:76 | Sorted, and a permutation of the parts |
| `ErrorText.Compact` | internal/httpapi/apierror.go:77 | Strictly increasing, with the same texts |
| `TypeSets.AnswersComeFromOneGeneration` | internal/transaction/types.go:38-68 | In any interleaving of replacing and asking each answer comes whole from one generation, and generations never go back |
| `TypeSets.SpellingsSettle` | internal/transaction/types.go:51-68 | Asking for a spelling that was given gives it back in the same generation |
| `TypeSets.LastSpellingWins` | internal/transaction/types.go:38-49 | A type is accepted exactly when it is not blank and a name with its letters, in any case and with any blanks around it, is configured; the answer is the last such name, trimmed |
| `TypeSets.KeyDecides` | internal/transaction/types.go:86-88 | Two names have one key exactly when, blanks at the ends left out, they have the same letters in whatever case |
| `Text.TrimCuts` | internal/transaction/types.go:86-88 | Trimming takes the blanks off both ends and nothing else |
| `TypeSets.TypeSet.Replace` | internal/transaction/types.go:38-49 | The loop builds the set of the given names and swaps it in whole |
| `TypeSets.TypeSet.Canonical` | internal/transaction/types.go:57-68 | The answer is that of the generation in force |

## Left out

- SHA-256: a fingerprint is identified with the text that is hashed, so comparing hashes is taken to be comparing texts (no collisions); the width of the CHAR(64) column goes with it.
- HTTP routing, middleware, generated code and the walk over schema errors: only the formatting of field errors is modelled.
- Connection pools, migrations, signals, configuration, logging, health and backlog gauges: no protocol state.
- Errors a statement can raise are one cause, refused; only a missing and an unreadable read-back are kept apart, to prove that neither happens.
- Reply to a failed commit: a call whose connection is lost is told of an error and its transaction then commits or not. For a relay pass whose commit applied unheard, the pass counts as committed, since it only reports less.
- Fresh ids: transaction and event ids are assumed not to have been used before, which the unique constraints would otherwise enforce; serials come from a sequence.
- Operator edits of the outbox table: none, so a row changes only by relay passes.
- Relays: all of them share one set of options.
- Late marks: a pass without its transaction publishes and fails its mark in one step, as that mark touches nothing.
- Waiting: an insert on a key another call holds has no step until that call ends, so `CallContinuation.RunGoesOnWithACall` is stated for a free key.
- Options: durations are within a signed 64-bit count of nanoseconds; the poll interval only moves the clock.
- `math.Pow`: the product is taken exactly, and a product that no duration holds converts to the least one; floating-point rounding below that is not modelled.
- Claims read and lock in one step: rows that stop being due while a claim waits do not arise, because a claim skips locked rows.
- Interior of location and metadata: opaque JSON values; what JSONB does to numbers and key order is not modelled.
- The payload's bytes: an event carries its body as a record, whose encoding fails exactly outside years 0 to 9999. Its constant event type is dropped.
- Unicode: case and white space are ASCII; JSON strings escape as encoding/json does, for valid text.
- Wording of the rule errors: problems carry their field, their reason and its values, without the sentence made of them.
- Decimals: the decimal library is a coefficient and a scale with its two renderings.
- `slices.Sort` and `slices.Compact`: modelled as an insertion and a loop over sequences, where the library works in place.
- Concurrency inside one method: the classes are sequential (with `Labels.Label` letting others in between its locks); the interleavings are those of the transition systems.
- Metrics: a counter is kept per source label, over all results.
- PostgresStore.Store.IngestOne: is stated for one call at a time; concurrent calls are `Guarantees.IngestRefinesMemory`.
- Draining.Relay.Drain: is stated for a single relay with no new events arriving; several relays are the transition system of `Protocol`, in which `Continuation` places its passes.
- Outbox.Delay: states only that the delay is positive; its value is in `Outbox.DelayClosedForm`.
- MemoryStore.Ingest: states only that both maps keep the same keys; what one call does is `MemoryStore.IngestKeepsTheFirst` and what a sequence does `MemoryStore.FirstSubmissionWins`.
