/** What a producer submits and what the service accepts. */
module Transactions {
  import opened Text
  import opened Calendar
  import Json
  import opened Identity
  import opened Money

  /** Identifiers are opaque and only compared. */
  type Uuid = nat

  /** A free-form JSON object of the producer's, or none. Its members are listed
      in increasing key order, the order in which the encoder writes a map. */
  type Document = d: Option<seq<Json.Member>>
    | d.None? || (Json.WellFormed(Json.Obj(d.value)) && Json.Ordered(Json.Obj(d.value)))
    witness None

  datatype PlateRead = PlateRead(number: string, jurisdiction: string)

  /** A transaction as offered by a producer. */
  datatype Submission = Submission(
    source: string,
    sourceReference: string,
    kind: string,
    occurredAt: ZonedTime,
    plate: Option<PlateRead>,
    transponder: string,
    baseAmount: string,
    currency: string,
    location: Document,
    metadata: Document)

  datatype AssociationStatus = Received | Resolving | Associated | Exception

  datatype SettlementStatus = Unpriced | Priced | Payable | Paid

  datatype Transaction = Transaction(
    id: Uuid,
    source: string,
    sourceReference: string,
    kind: string,
    occurredAt: Instant,
    receivedAt: Instant,
    plate: Option<Plate>,
    transponder: Option<Transponder>,
    baseAmount: Amount,
    location: Document,
    metadata: Document,
    association: AssociationStatus,
    settlement: SettlementStatus)

  /** The idempotency key: the producer's reference, scoped to the producer. */
  datatype Key = Key(source: string, sourceReference: string)

  function KeyOfTransaction(tx: Transaction): Key {
    Key(tx.source, tx.sourceReference)
  }

  /** What every accepted transaction satisfies: usable identifiers only, at least
      one of them, a parsed non-negative amount in a known currency, and the two
      initial statuses. */
  predicate Acceptable(tx: Transaction) {
    && (tx.plate.Some? ==> tx.plate.value.numberKey != ""
                           && tx.plate.value == NewPlate(tx.plate.value.number, tx.plate.value.jurisdiction))
    && (tx.transponder.Some? ==> tx.transponder.value.numberKey != ""
                                 && tx.transponder.value == NewTransponder(tx.transponder.value.number))
    && (tx.plate.Some? || tx.transponder.Some?)
    && Parsed(tx.baseAmount) && Known(tx.baseAmount.currency) && !IsNegative(tx.baseAmount)
    && tx.association == Received && tx.settlement == Priced
  }
}
