/** The fingerprint of a transaction's billable content. The digest of the
    encoding is identified with the encoding itself, which is the assumption
    that the hash has no collisions. */
module Fingerprints {
  import opened Text
  import opened Calendar
  import opened Decimals
  import opened Identity
  import opened Json
  import opened Money
  import opened Transactions
  import TypeSets
  import opened Validation

  function TextOf(v: Option<string>): string {
    if v.Some? then v.value else ""
  }

  function PlateNumber(tx: Transaction): string {
    if tx.plate.Some? then tx.plate.value.number else ""
  }

  function PlateJurisdiction(tx: Transaction): string {
    if tx.plate.Some? then tx.plate.value.jurisdiction else ""
  }

  function TransponderNumber(tx: Transaction): string {
    if tx.transponder.Some? then tx.transponder.value.number else ""
  }

  /** A text field that is left out when empty. */
  function OptionalText(key: string, s: string): (m: seq<Member>) {
    if s == "" then [] else [Member(key, Str(s))]
  }

  /** A document field that is left out when absent or empty. */
  function OptionalDocument(key: string, d: Document): (m: seq<Member>) {
    if d.None? || d.value == [] then [] else [Member(key, Obj(d.value))]
  }

  /** The members from the amount on. */
  function MoneyMembers(tx: Transaction): seq<Member> {
    [Member("amount", Str(Canonical(tx.baseAmount.value))), Member("currency", Str(tx.baseAmount.currency.code))]
  }

  function DocumentMembers(tx: Transaction): seq<Member> {
    OptionalDocument("location", tx.location) + OptionalDocument("metadata", tx.metadata)
  }

  function ReadMembers(tx: Transaction, rest: seq<Member>): seq<Member> {
    OptionalText("plate_number", PlateNumber(tx))
    + (OptionalText("plate_jurisdiction", PlateJurisdiction(tx))
       + (OptionalText("transponder", TransponderNumber(tx)) + rest))
  }

  function HeadMembers(tx: Transaction): seq<Member>
    requires Encodable(tx.occurredAt)
  {
    [Member("source", Str(tx.source)), Member("source_reference", Str(tx.sourceReference)),
     Member("type", Str(tx.kind)), Member("occurred_at", Str(Format(tx.occurredAt)))]
  }

  /** The members of the hashed object, in the order of the struct's fields. */
  function Members(tx: Transaction): seq<Member>
    requires Encodable(tx.occurredAt)
  {
    HeadMembers(tx) + ReadMembers(tx, MoneyMembers(tx) + DocumentMembers(tx))
  }

  /** The encoder refuses an instant outside years 0 to 9999 and its error is
      dropped, so nothing at all is hashed then. */
  function Fingerprint(tx: Transaction): string {
    if Encodable(tx.occurredAt) then Encode(Obj(Members(tx))) else ""
  }

  // ---- billable equality ----

  function Present(d: Document): seq<Member> {
    if d.Some? then d.value else []
  }

  /** The same business event: key, type, instant, raw reads, money, documents. */
  predicate SameBilling(a: Transaction, b: Transaction) {
    && KeyOfTransaction(a) == KeyOfTransaction(b)
    && a.kind == b.kind && a.occurredAt == b.occurredAt
    && a.plate == b.plate && a.transponder == b.transponder
    && EqualAmounts(a.baseAmount, b.baseAmount)
    && Present(a.location) == Present(b.location) && Present(a.metadata) == Present(b.metadata)
  }

  // ---- the member list determines each field ----

  predicate StartsOtherwise(key: string, x: seq<Member>) {
    x == [] || x[0].key != key
  }

  lemma OptionalTextPeels(key: string, s: string, t: string, x: seq<Member>, y: seq<Member>)
    requires OptionalText(key, s) + x == OptionalText(key, t) + y
    requires StartsOtherwise(key, x) && StartsOtherwise(key, y)
    ensures s == t && x == y
  {
    var m, n := OptionalText(key, s), OptionalText(key, t);
    assert m + x != [] ==> ((m + x)[0].key == key <==> s != "");
    assert n + y != [] ==> ((n + y)[0].key == key <==> t != "");
    assert |m| == |n|;
    Pieces(m, x, n, y);
  }

  lemma OptionalDocumentPeels(key: string, s: Document, t: Document, x: seq<Member>, y: seq<Member>)
    requires OptionalDocument(key, s) + x == OptionalDocument(key, t) + y
    requires StartsOtherwise(key, x) && StartsOtherwise(key, y)
    ensures Present(s) == Present(t) && x == y
  {
    var m, n := OptionalDocument(key, s), OptionalDocument(key, t);
    assert m + x != [] ==> ((m + x)[0].key == key <==> Present(s) != []);
    assert n + y != [] ==> ((n + y)[0].key == key <==> Present(t) != []);
    assert |m| == |n|;
    Pieces(m, x, n, y);
  }

  lemma ReadsPeel(a: Transaction, b: Transaction, x: seq<Member>, y: seq<Member>)
    requires ReadMembers(a, x) == ReadMembers(b, y)
    requires x != [] && x[0].key == "amount" && y != [] && y[0].key == "amount"
    ensures PlateNumber(a) == PlateNumber(b) && PlateJurisdiction(a) == PlateJurisdiction(b)
    ensures TransponderNumber(a) == TransponderNumber(b) && x == y
  {
    var t := OptionalText("transponder", TransponderNumber(a)) + x;
    var u := OptionalText("transponder", TransponderNumber(b)) + y;
    var p := OptionalText("plate_jurisdiction", PlateJurisdiction(a)) + t;
    var q := OptionalText("plate_jurisdiction", PlateJurisdiction(b)) + u;
    OptionalTextPeels("plate_number", PlateNumber(a), PlateNumber(b), p, q);
    OptionalTextPeels("plate_jurisdiction", PlateJurisdiction(a), PlateJurisdiction(b), t, u);
    OptionalTextPeels("transponder", TransponderNumber(a), TransponderNumber(b), x, y);
  }

  lemma DocumentsPeel(a: Transaction, b: Transaction)
    requires DocumentMembers(a) == DocumentMembers(b)
    ensures Present(a.location) == Present(b.location) && Present(a.metadata) == Present(b.metadata)
  {
    var m, n := OptionalDocument("metadata", a.metadata), OptionalDocument("metadata", b.metadata);
    OptionalDocumentPeels("location", a.location, b.location, m, n);
    assert m + [] == m && n + [] == n;
    OptionalDocumentPeels("metadata", a.metadata, b.metadata, [], []);
  }

  lemma MembersDecide(a: Transaction, b: Transaction)
    requires Acceptable(a) && Acceptable(b) && Encodable(a.occurredAt) && Encodable(b.occurredAt)
    requires Members(a) == Members(b)
    ensures SameBilling(a, b)
  {
    hide Known, Lookup, Parsed, KeyOf, Canonical, Format, Encodable, Equal, ReadMembers, DocumentMembers;
    var h, k := HeadMembers(a), HeadMembers(b);
    var x, y := MoneyMembers(a) + DocumentMembers(a), MoneyMembers(b) + DocumentMembers(b);
    Pieces(h, ReadMembers(a, x), k, ReadMembers(b, y));
    assert h[0] == k[0] && h[1] == k[1] && h[2] == k[2] && h[3] == k[3];
    EncodableDiffers(a.occurredAt, b.occurredAt);
    ReadsPeel(a, b, x, y);
    Pieces(MoneyMembers(a), DocumentMembers(a), MoneyMembers(b), DocumentMembers(b));
    assert MoneyMembers(a)[0] == MoneyMembers(b)[0] && MoneyMembers(a)[1] == MoneyMembers(b)[1];
    DocumentsPeel(a, b);
    KnownByCode(a.baseAmount.currency, b.baseAmount.currency);
    RenderedDecides(a.baseAmount, b.baseAmount);
    ReadsDecide(a, b);
  }

  /** The keys of the reads follow from the raw reads, which are never empty. */
  lemma ReadsDecide(a: Transaction, b: Transaction)
    requires Acceptable(a) && Acceptable(b)
    ensures a.plate == b.plate && a.transponder == b.transponder <==>
      PlateNumber(a) == PlateNumber(b) && PlateJurisdiction(a) == PlateJurisdiction(b)
      && TransponderNumber(a) == TransponderNumber(b)
  {
  }

  lemma WellFormedAppends(a: seq<Member>, b: seq<Member>)
    requires Json.WellFormed(Obj(a)) && Json.WellFormed(Obj(b))
    ensures Json.WellFormed(Obj(a + b))
  {
  }

  lemma WellFormedReads(tx: Transaction, rest: seq<Member>)
    requires Json.WellFormed(Obj(rest))
    ensures Json.WellFormed(Obj(ReadMembers(tx, rest)))
  {
    hide OptionalText, Json.WellFormed;
    var t := OptionalText("transponder", TransponderNumber(tx)) + rest;
    WellFormedText("transponder", TransponderNumber(tx));
    WellFormedText("plate_jurisdiction", PlateJurisdiction(tx));
    WellFormedText("plate_number", PlateNumber(tx));
    WellFormedAppends(OptionalText("transponder", TransponderNumber(tx)), rest);
    WellFormedAppends(OptionalText("plate_jurisdiction", PlateJurisdiction(tx)), t);
    WellFormedAppends(
      OptionalText("plate_number", PlateNumber(tx)), OptionalText("plate_jurisdiction", PlateJurisdiction(tx)) + t);
  }

  lemma WellFormedText(key: string, s: string)
    ensures Json.WellFormed(Obj([Member(key, Str(s))])) && Json.WellFormed(Obj(OptionalText(key, s)))
  {
  }

  lemma WellFormedDocument(key: string, d: Document)
    ensures Json.WellFormed(Obj(OptionalDocument(key, d)))
  {
  }

  lemma WellFormedDocuments(tx: Transaction)
    ensures Json.WellFormed(Obj(DocumentMembers(tx)))
  {
    hide OptionalDocument, Json.WellFormed;
    WellFormedDocument("location", tx.location);
    WellFormedDocument("metadata", tx.metadata);
    WellFormedAppends(OptionalDocument("location", tx.location), OptionalDocument("metadata", tx.metadata));
  }

  lemma WellFormedParts(tx: Transaction)
    ensures Json.WellFormed(Obj(MoneyMembers(tx)))
    ensures Encodable(tx.occurredAt) ==> Json.WellFormed(Obj(HeadMembers(tx)))
  {
    hide Canonical, Format, Encodable;
  }

  lemma WellFormedMembers(tx: Transaction)
    requires Encodable(tx.occurredAt)
    ensures Json.WellFormed(Obj(Members(tx)))
  {
    hide HeadMembers, ReadMembers, MoneyMembers, DocumentMembers, Json.WellFormed;
    WellFormedParts(tx);
    WellFormedDocuments(tx);
    WellFormedAppends(MoneyMembers(tx), DocumentMembers(tx));
    WellFormedReads(tx, MoneyMembers(tx) + DocumentMembers(tx));
    WellFormedAppends(HeadMembers(tx), ReadMembers(tx, MoneyMembers(tx) + DocumentMembers(tx)));
  }

  lemma SameBillingSameMembers(a: Transaction, b: Transaction)
    requires Acceptable(a) && Acceptable(b) && Encodable(a.occurredAt) && SameBilling(a, b)
    ensures Members(a) == Members(b)
  {
    hide Known, Lookup, Parsed, KeyOf, Canonical, Format, Encodable, Equal;
    KnownByCode(a.baseAmount.currency, b.baseAmount.currency);
    RenderedDecides(a.baseAmount, b.baseAmount);
  }

  /** While one of the two instants is in the years 0 to 9999, two accepted
      transactions have one fingerprint exactly when they are the same billing. */
  lemma FingerprintDecides(a: Transaction, b: Transaction)
    requires Acceptable(a) && Acceptable(b)
    requires InYearRange(a.occurredAt) || InYearRange(b.occurredAt)
    ensures Fingerprint(a) == Fingerprint(b) <==> SameBilling(a, b)
  {
    EncodableIffInRange(a.occurredAt);
    EncodableIffInRange(b.occurredAt);
    if Encodable(a.occurredAt) && Encodable(b.occurredAt) {
      WellFormedMembers(a);
      WellFormedMembers(b);
      EncodeDiffers(Obj(Members(a)), Obj(Members(b)));
      if Fingerprint(a) == Fingerprint(b) {
        MembersDecide(a, b);
      }
      if SameBilling(a, b) {
        SameBillingSameMembers(a, b);
      }
    }
  }

  /** The fingerprint of an accepted transaction singles out its billing content
      exactly when its instant is in the years 0 to 9999: outside them every
      transaction has the same fingerprint. */
  lemma FingerprintIdentifiesIffEncodable(a: Transaction)
    requires Acceptable(a)
    ensures InYearRange(a.occurredAt) <==>
      forall b :: Acceptable(b) ==> (Fingerprint(a) == Fingerprint(b) <==> SameBilling(a, b))
  {
    EncodableIffInRange(a.occurredAt);
    if InYearRange(a.occurredAt) {
      forall b | Acceptable(b)
        ensures Fingerprint(a) == Fingerprint(b) <==> SameBilling(a, b)
      {
        FingerprintDecides(a, b);
      }
    } else {
      var other := a.(source := a.source + "'");
      assert Acceptable(other) && Fingerprint(other) == Fingerprint(a) && !SameBilling(a, other);
    }
  }

  // ---- in terms of what was submitted ----

  /** Two submissions say the same: one key, types that match, one instant whatever
      the zone it was written in, the same usable reads as written, equal money,
      and the same documents, an empty one counting as none. */
  ghost predicate SameSubmission(r: Rules, s: Submission, t: Submission) {
    && s.source == t.source && s.sourceReference == t.sourceReference
    && TypeSets.SameType(s.kind, t.kind)
    && s.occurredAt.utc == t.occurredAt.utc
    && UsablePlateRead(s) == UsablePlateRead(t)
    && UsableTransponderRead(s) == UsableTransponderRead(t)
    && (exists c :: Denominates(r, s.currency, c) && Denominates(r, t.currency, c))
    && IsDecimalText(s.baseAmount) && IsDecimalText(t.baseAmount)
    && Equal(FromString(s.baseAmount), FromString(t.baseAmount))
    && Present(s.location) == Present(t.location) && Present(s.metadata) == Present(t.metadata)
  }

  ghost function UsablePlateRead(s: Submission): Option<PlateRead> {
    if s.plate.Some? && Usable(s.plate.value.number) then s.plate else None
  }

  ghost function UsableTransponderRead(s: Submission): string {
    if Usable(s.transponder) then s.transponder else ""
  }

  lemma KnownByCode(c: Currency, d: Currency)
    requires Known(c) && Known(d)
    ensures c == d <==> c.code == d.code
  {
    KnownIffFound(c);
    KnownIffFound(d);
    hide Known, Lookup;
  }

  lemma AmountsAsRead(a: Amount)
    requires Parsed(a)
    ensures IsDecimalText(a.asReceived) && a.value == FromString(a.asReceived)
  {
  }

  /** The operator's spelling is the same exactly for names of one type. */
  lemma SpellingsAgree(types: seq<string>, s: string, t: string, a: string, b: string)
    requires OperatorsSpelling(types, s, a) && OperatorsSpelling(types, t, b)
    ensures a == b <==> TypeSets.SameType(s, t)
  {
    hide TypeSets.SameType, Trim;
    var i :| TypeSets.LastConfigured(types, s, i) && a == Trim(types[i]);
    var j :| TypeSets.LastConfigured(types, t, j) && b == Trim(types[j]);
    TypeSets.KeyDecides(s, t);
    TypeSets.KeyDecides(types[i], s);
    TypeSets.KeyDecides(types[j], t);
    TypeSets.KeyDecides(types[i], t);
    TypeSets.KeyDecides(types[j], s);
    TypeSets.KeyOfTrimmed(types[i]);
    TypeSets.KeyOfTrimmed(types[j]);
  }

  /** The identifiers kept are the same exactly for the same usable reads. */
  lemma ReadsAgree(r: Rules, s: Submission, t: Submission, a: Transaction, b: Transaction)
    requires ComesFrom(r, s, a) && ComesFrom(r, t, b)
    ensures a.plate == b.plate <==> UsablePlateRead(s) == UsablePlateRead(t)
    ensures a.transponder == b.transponder <==> UsableTransponderRead(s) == UsableTransponderRead(t)
  {
    NothingIsUnusable();
    hide OperatorsSpelling, Denominates, KeyOf, Usable;
  }

  lemma NothingIsUnusable()
    ensures !Usable("")
  {
  }

  lemma SameBillingIffSameSubmission(r: Rules, s: Submission, t: Submission, a: Transaction, b: Transaction)
    requires ComesFrom(r, s, a) && ComesFrom(r, t, b) && Acceptable(a) && Acceptable(b)
    ensures SameBilling(a, b) <==> SameSubmission(r, s, t)
  {
    AmountsAsRead(a.baseAmount);
    AmountsAsRead(b.baseAmount);
    ReadsAgree(r, s, t, a, b);
    SpellingsAgree(r.types.value, s.kind, t.kind, a.kind, b.kind);
    KnownByCode(a.baseAmount.currency, b.baseAmount.currency);
    CurrenciesAgree(r, s, t, a.baseAmount.currency, b.baseAmount.currency);
    hide OperatorsSpelling, Denominates, TypeSets.SameType, Known, Parsed, Usable, KeyOf, FromString, IsDecimalText;
    hide Equal;
    hide UsablePlateRead, UsableTransponderRead, NewPlate, NewTransponder, Present;
  }

  lemma CurrenciesAgree(r: Rules, s: Submission, t: Submission, c: Currency, d: Currency)
    requires Denominates(r, s.currency, c) && Denominates(r, t.currency, d)
    ensures c == d <==> exists e :: Denominates(r, s.currency, e) && Denominates(r, t.currency, e)
  {
    if e :| Denominates(r, s.currency, e) && Denominates(r, t.currency, e) {
      ResolvesIffDenominates(r, s.currency, c);
      ResolvesIffDenominates(r, s.currency, e);
      ResolvesIffDenominates(r, t.currency, d);
      ResolvesIffDenominates(r, t.currency, e);
      hide ResolveCurrency, Denominates;
    }
  }

  /** A replay is told from a different transaction: two accepted submissions get
      one fingerprint exactly when they say the same. */
  lemma ReplayDetected(
    r: Rules, s: Submission, t: Submission,
    now: Instant, later: Instant, id: Option<Uuid>, other: Option<Uuid>)
    requires Configured(r) && InYearRange(s.occurredAt.utc)
    requires Accept(r, s, now, id).Accepted? && Accept(r, t, later, other).Accepted?
    ensures Fingerprint(Accept(r, s, now, id).tx) == Fingerprint(Accept(r, t, later, other).tx)
      <==> SameSubmission(r, s, t)
  {
    var a, b := Accept(r, s, now, id).tx, Accept(r, t, later, other).tx;
    AcceptedIsAcceptable(r, s, now, id);
    AcceptedIsAcceptable(r, t, later, other);
    AcceptedComesFrom(r, s, now, id);
    AcceptedComesFrom(r, t, later, other);
    FingerprintDecides(a, b);
    SameBillingIffSameSubmission(r, s, t, a, b);
  }
}
