/** The columns a transaction is stored in, the constraints on them, and the
    event announcing it. */
module Rows {
  import opened Text
  import opened Calendar
  import opened Decimals
  import opened Identity
  import opened Money
  import opened Transactions
  import opened Fingerprints

  datatype TransactionRow = TransactionRow(
    id: Uuid, source: string, sourceReference: string, kind: string,
    occurredAt: Instant, receivedAt: Instant,
    plateNumber: Option<string>, plateJurisdiction: Option<string>,
    plateNumberKey: Option<string>, plateJurisdictionKey: Option<string>,
    transponderNumber: Option<string>, transponderNumberKey: Option<string>,
    baseAmount: Decimal, baseAmountText: string, currency: string,
    location: Document, metadata: Document,
    association: AssociationStatus, settlement: SettlementStatus,
    fingerprint: string)

  const NUMERIC_SCALE := 4
  const NUMERIC_PRECISION := 19

  /** An absent value is stored as NULL, and so is an empty one. */
  function Nullable(s: string): Option<string> {
    if s == "" then None else Some(s)
  }

  function PlateNumberKey(tx: Transaction): string {
    if tx.plate.Some? then tx.plate.value.numberKey else ""
  }

  function PlateJurisdictionKey(tx: Transaction): string {
    if tx.plate.Some? then tx.plate.value.jurisdictionKey else ""
  }

  function TransponderNumberKey(tx: Transaction): string {
    if tx.transponder.Some? then tx.transponder.value.numberKey else ""
  }

  /** TIMESTAMPTZ keeps whole microseconds. */
  function ToMicros(t: Instant): Instant {
    t - t % MICROSECOND
  }

  /** The last whole microsecond at or before an instant. */
  lemma MicrosAreTheLast(t: Instant)
    ensures ToMicros(t) % 1_000 == 0 && ToMicros(t) <= t < ToMicros(t) + 1_000
  {
  }

  function EncodeRow(tx: Transaction): TransactionRow {
    TransactionRow(
      tx.id, tx.source, tx.sourceReference, tx.kind, ToMicros(tx.occurredAt), ToMicros(tx.receivedAt),
      Nullable(PlateNumber(tx)), Nullable(PlateJurisdiction(tx)),
      Nullable(PlateNumberKey(tx)), Nullable(PlateJurisdictionKey(tx)),
      Nullable(TransponderNumber(tx)), Nullable(TransponderNumberKey(tx)),
      RoundTo(tx.baseAmount.value, NUMERIC_SCALE), tx.baseAmount.asReceived, tx.baseAmount.currency.code,
      tx.location, tx.metadata, tx.association, tx.settlement, Fingerprint(tx))
  }

  /** The constraints an inserted row must meet: an identifier, a non-negative
      amount, and an amount within the precision of its column. */
  predicate Fits(row: TransactionRow) {
    && (row.plateNumberKey.Some? || row.transponderNumberKey.Some?)
    && row.baseAmount.coef >= 0
    && Abs(row.baseAmount.coef) < Pow10(NUMERIC_PRECISION)
  }

  datatype RowError = UnknownCurrency | BadAmount(cause: ParseError)

  /** Reads a row back, with the fingerprint stored beside it. The amount is
      rebuilt from the producer's text, not from the numeric column. */
  function DecodeRow(row: TransactionRow): Result<(Transaction, string), RowError> {
    match Lookup(row.currency)
    case None => Err(UnknownCurrency)
    case Some(currency) =>
      match Parse(row.baseAmountText, currency)
      case Err(e) => Err(BadAmount(e))
      case Ok(amount) =>
        var plate := if row.plateNumber.None? then None else Some(Plate(
          row.plateNumber.value, TextOf(row.plateJurisdiction),
          TextOf(row.plateNumberKey), TextOf(row.plateJurisdictionKey)));
        var transponder := if row.transponderNumber.None? then None else Some(Transponder(
          row.transponderNumber.value, TextOf(row.transponderNumberKey)));
        Ok((Transaction(
          row.id, row.source, row.sourceReference, row.kind, row.occurredAt, row.receivedAt,
          plate, transponder, amount, row.location, row.metadata, row.association, row.settlement),
          row.fingerprint))
  }

  /** A row can be read back exactly when its currency is of the table and its text is an
      amount in it; otherwise the reading fails, for want of the one or the other, and
      nothing is put in its place. */
  lemma ReadableIffCurrencyAndAmount(row: TransactionRow)
    ensures DecodeRow(row).Ok? <==>
      Lookup(row.currency).Some? && Parse(row.baseAmountText, Lookup(row.currency).value).Ok?
    ensures Lookup(row.currency).None? <==> DecodeRow(row) == Err(UnknownCurrency)
    ensures DecodeRow(row).Ok? ==>
      var (tx, fingerprint) := DecodeRow(row).value;
      Parse(row.baseAmountText, Lookup(row.currency).value) == Ok(tx.baseAmount) && fingerprint == row.fingerprint
  {
    hide Lookup, Parse;
  }

  /** The transaction as its columns hold it: instants in whole microseconds. */
  function AsStored(tx: Transaction): Transaction {
    tx.(occurredAt := ToMicros(tx.occurredAt), receivedAt := ToMicros(tx.receivedAt))
  }

  /** Reading back the row of any accepted transaction succeeds, and returns it as
      stored with the fingerprint it was ingested under. */
  lemma RowRoundTrip(tx: Transaction)
    requires Acceptable(tx)
    ensures DecodeRow(EncodeRow(tx)) == Ok((AsStored(tx), Fingerprint(tx)))
  {
    KnownIffFound(tx.baseAmount.currency);
    hide Known, Lookup, RoundTo, Fingerprint, ToMicros;
  }

  /** Nothing is lost exactly when both instants are whole microseconds, and the
      fingerprint can be recomputed from what was read back exactly when the
      instant it covers is, or lies where no instant is encoded at all. */
  lemma StoredExactlyIffWholeMicros(tx: Transaction)
    requires Acceptable(tx)
    ensures AsStored(tx) == tx <==> tx.occurredAt % 1_000 == 0 && tx.receivedAt % 1_000 == 0
    ensures Fingerprint(AsStored(tx)) == Fingerprint(tx) <==>
      tx.occurredAt % 1_000 == 0 || !InYearRange(tx.occurredAt)
  {
    hide Lookup, Parse, NewPlate, NewTransponder, Encodable, InYearRange;
    MicrosEncodable(tx.occurredAt);
    EncodableIffInRange(tx.occurredAt);
    if InYearRange(tx.occurredAt) {
      FingerprintDecides(AsStored(tx), tx);
      EqualAt(tx.baseAmount.value, tx.baseAmount.value, tx.baseAmount.value.scale);
    }
  }

  lemma MicrosEncodable(t: Instant)
    ensures Encodable(ToMicros(t)) <==> Encodable(t)
  {
    SameDay(t);
  }

  lemma SameDay(t: Instant)
    ensures ToMicros(t) / DAY == t / DAY && (ToMicros(t) >= 0 <==> t >= 0)
  {
    var q, r := t / DAY, t % DAY;
    assert t == q * DAY + r;
    assert DAY == 86_400_000_000 * MICROSECOND;
    assert t == (q * 86_400_000_000) * MICROSECOND + r;
    RemainderOf(q * 86_400_000_000, r);
    assert ToMicros(t) == q * DAY + (r - r % MICROSECOND);
    QuotientOf(q, r - r % MICROSECOND);
  }

  lemma RemainderOf(k: int, r: nat)
    ensures (k * MICROSECOND + r) % MICROSECOND == r % MICROSECOND
  {
  }

  lemma QuotientOf(q: int, r: nat)
    requires r < DAY
    ensures (q * DAY + r) / DAY == q
  {
  }

  /** Identifiers survive the columns exactly when they are not empty, which is
      what acceptance guarantees by dropping unusable reads. */
  lemma IdentifiersSurviveIffNotEmpty(tx: Transaction)
    requires Parsed(tx.baseAmount) && Known(tx.baseAmount.currency)
    ensures DecodeRow(EncodeRow(tx)).Ok?
    ensures DecodeRow(EncodeRow(tx)).value.0.plate == tx.plate <==>
      (tx.plate.Some? ==> tx.plate.value.number != "")
    ensures DecodeRow(EncodeRow(tx)).value.0.transponder == tx.transponder <==>
      (tx.transponder.Some? ==> tx.transponder.value.number != "")
  {
    KnownIffFound(tx.baseAmount.currency);
    hide Known, Lookup, RoundTo, Fingerprint, ToMicros;
  }

  /** Whatever the service makes of it, the database takes the row of a transaction
      exactly when it has an identifier with a key and an amount from zero to below
      10^15; four places are kept unrounded. */
  lemma FitsIffIdentifiedAndWithinLimit(tx: Transaction)
    requires tx.baseAmount.value.scale <= 4
    ensures Fits(EncodeRow(tx)) <==>
      && ((tx.plate.Some? && tx.plate.value.numberKey != "")
          || (tx.transponder.Some? && tx.transponder.value.numberKey != ""))
      && 0 <= tx.baseAmount.value.coef < Pow10(15 + tx.baseAmount.value.scale)
    ensures EncodeRow(tx).baseAmount.scale == 4 && Equal(EncodeRow(tx).baseAmount, tx.baseAmount.value)
    ensures EncodeRow(tx).baseAmount.coef >= 0 <==> tx.baseAmount.value.coef >= 0
  {
    hide Pow10, Fingerprint, RoundTo, Equal, ToMicros;
    var d := tx.baseAmount.value;
    FixedDecides(d, d, NUMERIC_SCALE);
    NumericLimit(d);
  }

  /** The semantic rules imply the database's: the row of an accepted transaction has
      an identifier and an amount not below zero, and meets every constraint exactly
      when its amount is below 10^15. The numeric column holds the amount unrounded. */
  lemma AcceptedFitsIffBelowLimit(tx: Transaction)
    requires Acceptable(tx)
    ensures EncodeRow(tx).plateNumberKey.Some? || EncodeRow(tx).transponderNumberKey.Some?
    ensures EncodeRow(tx).baseAmount.coef >= 0 && EncodeRow(tx).baseAmount.scale == 4
    ensures Fits(EncodeRow(tx)) <==> tx.baseAmount.value.coef < Pow10(15 + tx.baseAmount.value.scale)
    ensures Equal(EncodeRow(tx).baseAmount, tx.baseAmount.value)
  {
    hide Pow10, Fingerprint, Known, Lookup, Parsed, RoundTo, Equal, KeyOf, ToMicros, Fits;
    ParsedFits(tx.baseAmount);
    KnownExponent(tx.baseAmount.currency);
    FitsIffIdentifiedAndWithinLimit(tx);
  }

  lemma NumericLimit(d: Decimal)
    requires d.scale <= NUMERIC_SCALE
    ensures RoundTo(d, NUMERIC_SCALE).coef >= 0 <==> d.coef >= 0
    ensures d.coef >= 0 ==>
      (RoundTo(d, NUMERIC_SCALE).coef < Pow10(NUMERIC_PRECISION) <==> d.coef < Pow10(15 + d.scale))
  {
    hide Pow10;
    var unit, limit := Pow10(NUMERIC_SCALE - d.scale), Pow10(15 + d.scale);
    Pow10Adds(15 + d.scale, NUMERIC_SCALE - d.scale);
    assert (15 + d.scale) + (NUMERIC_SCALE - d.scale) == NUMERIC_PRECISION;
    if d.coef >= 0 {
      ScaleKeepsOrder(d.coef, limit, unit);
    } else {
      ScaleKeepsSign(d.coef, unit);
    }
  }

  lemma ScaleKeepsSign(x: int, f: nat)
    requires x < 0 && f >= 1
    ensures x * f < 0
  {
  }

  lemma ScaleKeepsOrder(x: nat, y: nat, f: nat)
    requires f >= 1
    ensures 0 <= x * f
    ensures x < y <==> x * f < y * f
  {
    if x < y {
      assert (y - x) * f == y * f - x * f;
    } else {
      assert (x - y) * f == x * f - y * f;
    }
  }

  // ---- the event ----

  /** The body published for a newly accepted transaction. */
  datatype TransactionReceived = TransactionReceived(
    eventId: Uuid, transactionId: Uuid, source: string, sourceReference: string, kind: string,
    occurredAt: Instant, receivedAt: Instant,
    plateNumber: string, plateJurisdiction: string, plateNumberKey: string,
    transponderNumber: string, transponderNumberKey: string,
    baseAmount: string, currency: string, location: Document, metadata: Document,
    association: AssociationStatus, settlement: SettlementStatus)

  datatype Event = Event(id: Uuid, aggregateId: Uuid, payload: TransactionReceived, createdAt: Instant)

  /** Building the event fails when an instant has no JSON text. */
  function NewTransactionReceived(tx: Transaction, eventId: Uuid): Option<Event> {
    if !Encodable(tx.occurredAt) || !Encodable(tx.receivedAt) then None
    else Some(Event(eventId, tx.id, TransactionReceived(
      eventId, tx.id, tx.source, tx.sourceReference, tx.kind, tx.occurredAt, tx.receivedAt,
      PlateNumber(tx), PlateJurisdiction(tx), PlateNumberKey(tx),
      TransponderNumber(tx), TransponderNumberKey(tx),
      Rendered(tx.baseAmount), tx.baseAmount.currency.code, tx.location, tx.metadata,
      tx.association, tx.settlement), tx.receivedAt))
  }

  function KeyOfEvent(e: Event): Key {
    Key(e.payload.source, e.payload.sourceReference)
  }

  /** The event says what the row says: the same transaction, its instants to the
      microsecond the row keeps, its identifiers with NULL read as empty, and an
      amount written out to the places of the row's currency, which parses to the exact
      amount of the row. */
  ghost predicate Agrees(e: Event, row: TransactionRow) {
    && e.id == e.payload.eventId && e.aggregateId == e.payload.transactionId == row.id
    && e.createdAt == e.payload.receivedAt
    && SameRecord(e.payload, row) && SameReads(e.payload, row)
    && e.payload.currency == row.currency && SaysAmount(e.payload.baseAmount, row.currency, row.baseAmount)
  }

  predicate SameRecord(body: TransactionReceived, row: TransactionRow) {
    && body.source == row.source && body.sourceReference == row.sourceReference && body.kind == row.kind
    && ToMicros(body.occurredAt) == row.occurredAt && ToMicros(body.receivedAt) == row.receivedAt
    && body.location == row.location && body.metadata == row.metadata
    && body.association == row.association && body.settlement == row.settlement
  }

  predicate SameReads(body: TransactionReceived, row: TransactionRow) {
    && body.plateNumber == TextOf(row.plateNumber) && body.plateJurisdiction == TextOf(row.plateJurisdiction)
    && body.plateNumberKey == TextOf(row.plateNumberKey)
    && body.transponderNumber == TextOf(row.transponderNumber)
    && body.transponderNumberKey == TextOf(row.transponderNumberKey)
  }

  /** All the places of the currency are written out, and the text is the value. */
  ghost predicate SaysAmount(text: string, code: string, value: Decimal) {
    match Lookup(code)
    case None => false
    case Some(c) =>
      && Writes(text, value, c.exponent)
      && Parse(text, c).Ok? && Equal(Parse(text, c).value.value, value)
  }

  /** What is announced is what is stored. */
  lemma EventAgreesWithRow(tx: Transaction, eventId: Uuid)
    requires Acceptable(tx) && NewTransactionReceived(tx, eventId).Some?
    ensures Agrees(NewTransactionReceived(tx, eventId).value, EncodeRow(tx))
  {
    AmountIsAnnounced(tx);
    RecordIsAnnounced(tx, eventId);
    ReadsAreAnnounced(tx, eventId);
    hide Fingerprint, Rendered, RoundTo, SaysAmount, Acceptable, Encodable, ToMicros, SameRecord, SameReads;
    hide PlateNumber, PlateJurisdiction, PlateNumberKey, PlateJurisdictionKey, TransponderNumber;
    hide TransponderNumberKey, Nullable;
  }

  lemma RecordIsAnnounced(tx: Transaction, eventId: Uuid)
    requires NewTransactionReceived(tx, eventId).Some?
    ensures SameRecord(NewTransactionReceived(tx, eventId).value.payload, EncodeRow(tx))
  {
    hide Fingerprint, Rendered, RoundTo, Encodable, ToMicros;
    hide PlateNumber, PlateJurisdiction, PlateNumberKey, PlateJurisdictionKey, TransponderNumber;
    hide TransponderNumberKey, Nullable;
  }

  lemma ReadsAreAnnounced(tx: Transaction, eventId: Uuid)
    requires NewTransactionReceived(tx, eventId).Some?
    ensures SameReads(NewTransactionReceived(tx, eventId).value.payload, EncodeRow(tx))
  {
    hide Fingerprint, Rendered, RoundTo, Encodable, ToMicros;
    hide PlateNumber, PlateJurisdiction, PlateNumberKey, PlateJurisdictionKey, TransponderNumber, TransponderNumberKey;
  }

  lemma AmountIsAnnounced(tx: Transaction)
    requires Acceptable(tx)
    ensures SaysAmount(
      Rendered(tx.baseAmount), tx.baseAmount.currency.code, RoundTo(tx.baseAmount.value, NUMERIC_SCALE))
  {
    hide Known, Lookup, Parse, StringFixed, RoundTo, Equal, KeyOf, Writes, Rendered, EqualAmounts, Parsed;
    var a := tx.baseAmount;
    var stored := RoundTo(a.value, NUMERIC_SCALE);
    KnownExponent(a.currency);
    KnownIffFound(a.currency);
    ParsedFits(a);
    StoredIsExact(a);
    RenderedWrites(a);
    WritesOf(Rendered(a), a.value, stored, a.currency.exponent);
    PrintParseRoundTrip(a);
    RenderedIsExact(a, stored);
  }

  lemma StoredIsExact(a: Amount)
    requires Parsed(a) && a.currency.exponent <= 3
    ensures Equal(a.value, RoundTo(a.value, NUMERIC_SCALE))
  {
    ParsedFits(a);
    FixedDecides(a.value, a.value, NUMERIC_SCALE);
    EqualIsSymmetric(RoundTo(a.value, NUMERIC_SCALE), a.value);
  }

  lemma RenderedIsExact(a: Amount, stored: Decimal)
    requires Parsed(a) && Equal(a.value, stored)
    ensures Parse(Rendered(a), a.currency).Ok? && Equal(Parse(Rendered(a), a.currency).value.value, stored)
  {
    PrintParseRoundTrip(a);
    var b := Parse(Rendered(a), a.currency).value;
    hide Parse, Rendered, Equal, Parsed;
    EqualIsSymmetric(a.value, b.value);
    EqualIsTransitive(b.value, a.value, stored);
  }
}
