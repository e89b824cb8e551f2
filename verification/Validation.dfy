/** The semantic rules between a well-formed payload and a billable transaction. */
module Validation {
  import opened Text
  import opened Calendar
  import opened Decimals
  import opened Identity
  import opened Money
  import TypeSets
  import opened Transactions

  const DEFAULT_MAX_CLOCK_SKEW := 5 * MINUTE

  const MAX_ECHOED_VALUE_LENGTH := 64

  /** Why a rule failed, with the values the message is built from. */
  datatype Reason =
    | NoTypesConfigured
    | UnrecognizedType(echo: string)
    | Required
    | TooFarInFuture(skew: int)
    | NoDefaultCurrency
    | UnrecognizedCurrency(echo: string)
    | TooManyPlaces(currency: Currency)
    | NotADecimal
    | MustNotBeNegative
    | NoUsableIdentifier

  datatype RuleError = RuleError(field: string, reason: Reason)

  /** The operator's configuration; no set of types and no default are possible. */
  datatype Rules = Rules(types: Option<seq<string>>, defaultCurrency: Option<Currency>, maxClockSkew: int)

  /** A default currency is one of the table: start-up refuses any other. */
  predicate Configured(r: Rules) {
    r.defaultCurrency.Some? ==> Known(r.defaultCurrency.value)
  }

  datatype Outcome =
    | Accepted(tx: Transaction)
    | Rejected(problems: seq<RuleError>)
    | Failed

  function Truncate(s: string, limit: nat): string {
    if |s| <= limit then s else s[..limit] + "…"
  }

  function Skew(r: Rules): int {
    if r.maxClockSkew <= 0 then DEFAULT_MAX_CLOCK_SKEW else r.maxClockSkew
  }

  function ValidateType(r: Rules, raw: string): Result<string, RuleError> {
    if r.types.None? then Err(RuleError("transaction_type", NoTypesConfigured))
    else match TypeSets.Resolve(TypeSets.Build(r.types.value), raw)
      case Some(spelling) => Ok(spelling)
      case None => Err(RuleError("transaction_type", UnrecognizedType(Truncate(raw, MAX_ECHOED_VALUE_LENGTH))))
  }

  function ValidateTime(r: Rules, at: ZonedTime, now: Instant): Result<Instant, RuleError> {
    if at.utc == ZERO_TIME then Err(RuleError("transaction_time_utc", Required))
    else if at.utc > now + Skew(r) then Err(RuleError("transaction_time_utc", TooFarInFuture(Skew(r))))
    else Ok(at.utc)
  }

  function ResolveCurrency(r: Rules, raw: string): Result<Currency, RuleError> {
    if raw == "" then
      match r.defaultCurrency
      case Some(c) => Ok(c)
      case None => Err(RuleError("currency", NoDefaultCurrency))
    else
      match Lookup(raw)
      case Some(c) => Ok(c)
      case None => Err(RuleError("currency", UnrecognizedCurrency(raw)))
  }

  function ValidateAmount(raw: string, c: Currency): Result<Amount, RuleError> {
    match Parse(raw, c)
    case Ok(amount) =>
      if IsNegative(amount) then Err(RuleError("base_amount", MustNotBeNegative)) else Ok(amount)
    case Err(Empty) => Err(RuleError("base_amount", Required))
    case Err(Scale) => Err(RuleError("base_amount", TooManyPlaces(c)))
    case Err(Syntax) => Err(RuleError("base_amount", NotADecimal))
  }

  function UsablePlate(s: Submission): Option<Plate> {
    if s.plate.Some? && KeyOf(s.plate.value.number) != ""
    then Some(NewPlate(s.plate.value.number, s.plate.value.jurisdiction)) else None
  }

  function UsableTransponder(s: Submission): Option<Transponder> {
    if s.transponder != "" && KeyOf(s.transponder) != "" then Some(NewTransponder(s.transponder)) else None
  }

  function ValidateIdentity(s: Submission): Result<(Option<Plate>, Option<Transponder>), RuleError> {
    var plate, transponder := UsablePlate(s), UsableTransponder(s);
    if plate.None? && transponder.None? then Err(RuleError("", NoUsableIdentifier))
    else Ok((plate, transponder))
  }

  function ProblemOf<T>(r: Result<T, RuleError>): seq<RuleError> {
    if r.Err? then [r.error] else []
  }

  /** Every problem is collected, in rule order; the amount is not looked at when
      its currency is bad. */
  function Problems(r: Rules, s: Submission, now: Instant): seq<RuleError> {
    var currency := ResolveCurrency(r, s.currency);
    ProblemOf(ValidateType(r, s.kind)) + ProblemOf(ValidateTime(r, s.occurredAt, now)) + ProblemOf(currency)
    + (if currency.Ok? then ProblemOf(ValidateAmount(s.baseAmount, currency.value)) else [])
    + ProblemOf(ValidateIdentity(s))
  }

  /** An identifier is minted only for a clean submission, and minting may fail. */
  function Accept(r: Rules, s: Submission, now: Instant, minted: Option<Uuid>): Outcome {
    var problems := Problems(r, s, now);
    if problems != [] then Rejected(problems)
    else if minted.None? then Failed
    else
      var identity := ValidateIdentity(s).value;
      var currency := ResolveCurrency(r, s.currency).value;
      Accepted(Transaction(
        minted.value, s.source, s.sourceReference, ValidateType(r, s.kind).value,
        ValidateTime(r, s.occurredAt, now).value, now, identity.0, identity.1,
        ValidateAmount(s.baseAmount, currency).value, s.location, s.metadata, Received, Priced))
  }

  // ---- the rules, stated without the code that checks them ----

  ghost predicate TypeRule(r: Rules, s: Submission) {
    r.types.Some? && TypeSets.Named(s.kind)
    && exists i :: 0 <= i < |r.types.value| && TypeSets.SameType(r.types.value[i], s.kind)
  }

  /** How far ahead of the clock an instant may be: as configured, or five minutes. */
  function Allowance(r: Rules): int {
    if r.maxClockSkew > 0 then r.maxClockSkew else 300_000_000_000
  }

  /** Not the zero time, which is the start of year 1, and not too far in the future. */
  predicate TimeRule(r: Rules, s: Submission, now: Instant) {
    s.occurredAt.utc != 366 * 86_400_000_000_000 && s.occurredAt.utc <= now + Allowance(r)
  }

  /** A submission without a currency is in the configured one; otherwise it is in the
      one of the table with the given letters, whatever their case and the blanks around
      them. */
  predicate Denominates(r: Rules, raw: string, c: Currency) {
    if raw == "" then r.defaultCurrency == Some(c) else Known(c) && SameButCase(Trim(raw), c.code)
  }

  ghost predicate CurrencyRule(r: Rules, s: Submission) {
    exists c :: Denominates(r, s.currency, c)
  }

  /** The text spells a decimal that fits the currency and is not below zero. */
  ghost predicate BillableText(raw: string, c: Currency) {
    exists negative: bool, whole: string, fraction: string ::
      && SpellsDecimal(raw, negative, whole, fraction) && |fraction| <= c.exponent
      && (negative ==> ValueOf(whole + fraction) == 0)
  }

  ghost predicate AmountRule(r: Rules, s: Submission) {
    forall c :: Denominates(r, s.currency, c) ==> BillableText(s.baseAmount, c)
  }

  ghost predicate IdentityRule(s: Submission) {
    (s.plate.Some? && Usable(s.plate.value.number)) || Usable(s.transponder)
  }

  // ---- what is wrong, stated without the code that finds it ----

  /** At most 64 characters of a value are repeated back. */
  function Echo(s: string): string {
    if |s| <= 64 then s else s[..64] + "…"
  }

  function TypeReason(r: Rules, s: Submission): Reason {
    if r.types.None? then NoTypesConfigured else UnrecognizedType(Echo(s.kind))
  }

  function TimeReason(r: Rules, s: Submission): Reason {
    if s.occurredAt.utc == 366 * 86_400_000_000_000 then Required else TooFarInFuture(Allowance(r))
  }

  function CurrencyReason(s: Submission): Reason {
    if s.currency == "" then NoDefaultCurrency else UnrecognizedCurrency(s.currency)
  }

  /** Why an amount is not billable: it is missing, no decimal, too fine for its
      currency, or below zero. */
  ghost predicate AmountReason(raw: string, c: Currency, why: Reason) {
    if raw == "" then why == Required
    else if !exists n: bool, whole: string, fraction: string :: SpellsDecimal(raw, n, whole, fraction) then
      why == NotADecimal
    else if exists n: bool, whole: string, fraction: string ::
      SpellsDecimal(raw, n, whole, fraction) && |fraction| > c.exponent then
      why == TooManyPlaces(c)
    else why == MustNotBeNegative
  }

  /** The problems are the violated rules, in rule order, each with its reason; a bad
      currency leaves the amount unexamined. */
  ghost predicate Violations(r: Rules, s: Submission, now: Instant, problems: seq<RuleError>) {
    exists amount :: AmountFails(r, s, amount) && problems == InRuleOrder(r, s, now, amount)
  }

  ghost predicate AmountFails(r: Rules, s: Submission, why: Reason) {
    forall c :: Denominates(r, s.currency, c) && !BillableText(s.baseAmount, c) ==> AmountReason(s.baseAmount, c, why)
  }

  ghost function InRuleOrder(r: Rules, s: Submission, now: Instant, amount: Reason): seq<RuleError> {
    (if TypeRule(r, s) then [] else [RuleError("transaction_type", TypeReason(r, s))])
    + (if TimeRule(r, s, now) then [] else [RuleError("transaction_time_utc", TimeReason(r, s))])
    + (if CurrencyRule(r, s) then [] else [RuleError("currency", CurrencyReason(s))])
    + (if AmountRule(r, s) then [] else [RuleError("base_amount", amount)])
    + (if IdentityRule(s) then [] else [RuleError("", NoUsableIdentifier)])
  }

  lemma ConfiguredIffLast(types: seq<string>, t: string)
    ensures (exists i :: 0 <= i < |types| && TypeSets.SameType(types[i], t))
        <==> exists i :: TypeSets.LastConfigured(types, t, i)
  {
    hide TypeSets.SameType;
    if i: nat :| i < |types| && TypeSets.SameType(types[i], t) {
      var last := LastOfType(types, t, i);
    }
  }

  lemma LastOfType(types: seq<string>, t: string, i: nat) returns (last: nat)
    requires i < |types| && TypeSets.SameType(types[i], t)
    ensures TypeSets.LastConfigured(types, t, last)
    decreases |types| - i
  {
    hide TypeSets.SameType;
    if j: nat :| i < j < |types| && TypeSets.SameType(types[j], t) {
      last := LastOfType(types, t, j);
    } else {
      last := i;
    }
  }

  lemma SameUpperSame(a: string, b: string, c: string)
    requires SameButCase(a, b) && SameButCase(a, c) && AllUpper(b) && AllUpper(c)
    ensures b == c
  {
  }

  lemma UpperOfSame(a: string, c: string)
    requires SameButCase(a, c) && AllUpper(c)
    ensures Upper(a) == c
  {
  }

  /** The currency resolved is the one the submission is denominated in. */
  lemma ResolvesIffDenominates(r: Rules, raw: string, c: Currency)
    ensures ResolveCurrency(r, raw) == Ok(c) <==> Denominates(r, raw, c)
  {
    if raw != "" {
      var t := Trim(raw);
      if Lookup(raw) == Some(c) {
        LookupIsKnown(raw);
        UpperKeepsLetters(t);
        FoundCode(raw);
      }
      if Denominates(r, raw, c) {
        CodesAreUpper(c);
        UpperOfSame(t, c.code);
        FoundByCode(raw, c);
      }
      hide Lookup, Known, SameButCase;
    }
  }

  lemma FoundCode(raw: string)
    requires Lookup(raw).Some?
    ensures Lookup(raw).value.code == Upper(Trim(raw))
  {
    hide Trim, Upper;
  }

  lemma FoundByCode(raw: string, c: Currency)
    requires Known(c) && Upper(Trim(raw)) == c.code
    ensures Lookup(raw) == Some(c)
  {
    KnownIffFound(c);
    CodesAreUpper(c);
    UpperTrimSettles(c.code);
    LookupByUpper(raw, c.code);
  }

  lemma LookupByUpper(raw: string, code: string)
    requires Upper(Trim(raw)) == Upper(Trim(code))
    ensures Lookup(raw) == Lookup(code)
  {
    hide Upper, Trim;
  }

  lemma SpelledAmountParses(raw: string, c: Currency, negative: bool, whole: string, fraction: string)
    requires SpellsDecimal(raw, negative, whole, fraction) && |fraction| <= c.exponent
    ensures Parse(raw, c).Ok?
    ensures IsNegative(Parse(raw, c).value) <==> negative && ValueOf(whole + fraction) != 0
  {
    SpellingReads(negative, whole, fraction);
    PlacesOfText(raw);
  }

  lemma AmountRuleDecides(raw: string, c: Currency)
    ensures ValidateAmount(raw, c).Ok? <==> BillableText(raw, c)
    ensures ValidateAmount(raw, c).Ok? ==>
      Parsed(ValidateAmount(raw, c).value) && !IsNegative(ValidateAmount(raw, c).value)
      && ValidateAmount(raw, c).value.currency == c
      && ValidateAmount(raw, c).value.asReceived == raw
    ensures ValidateAmount(raw, c).Err? ==> ValidateAmount(raw, c).error.field == "base_amount"
  {
    hide ValueOf, FromString, IsDecimalText, PlacesAfterPoint;
    ParseAccepts(raw, c);
    if Parse(raw, c).Ok? {
      var negative: bool, whole: string, fraction: string :|
        SpellsDecimal(raw, negative, whole, fraction) && |fraction| <= c.exponent;
      SpelledAmountParses(raw, c, negative, whole, fraction);
    }
    if negative: bool, whole: string, fraction: string :|
      && SpellsDecimal(raw, negative, whole, fraction) && |fraction| <= c.exponent
      && (negative ==> ValueOf(whole + fraction) == 0)
    {
      SpelledAmountParses(raw, c, negative, whole, fraction);
    }
  }

  lemma TypeRuleDecides(r: Rules, s: Submission)
    ensures ValidateType(r, s.kind).Ok? <==> TypeRule(r, s)
    ensures !TypeRule(r, s) ==> ValidateType(r, s.kind) == Err(RuleError("transaction_type", TypeReason(r, s)))
    ensures TypeRule(r, s) ==> r.types.Some? && exists i ::
      TypeSets.LastConfigured(r.types.value, s.kind, i) && ValidateType(r, s.kind) == Ok(Trim(r.types.value[i]))
  {
    hide TypeSets.SameType, TypeSets.Build, TypeSets.Resolve, TypeSets.Named, Trim;
    if r.types.Some? {
      TypeSets.LastSpellingWins(r.types.value, s.kind);
      ConfiguredIffLast(r.types.value, s.kind);
    }
  }

  lemma TimeRuleDecides(r: Rules, s: Submission, now: Instant)
    ensures ValidateTime(r, s.occurredAt, now) ==
      if TimeRule(r, s, now) then Ok(s.occurredAt.utc) else Err(RuleError("transaction_time_utc", TimeReason(r, s)))
  {
  }

  lemma CurrencyRuleDecides(r: Rules, s: Submission)
    ensures ResolveCurrency(r, s.currency).Ok? <==> CurrencyRule(r, s)
    ensures forall c :: ResolveCurrency(r, s.currency) == Ok(c) <==> Denominates(r, s.currency, c)
    ensures !CurrencyRule(r, s) ==> ResolveCurrency(r, s.currency) == Err(RuleError("currency", CurrencyReason(s)))
  {
    forall c
      ensures ResolveCurrency(r, s.currency) == Ok(c) <==> Denominates(r, s.currency, c)
    {
      ResolvesIffDenominates(r, s.currency, c);
    }
    hide Denominates, Lookup;
    if ResolveCurrency(r, s.currency).Ok? {
      assert Denominates(r, s.currency, ResolveCurrency(r, s.currency).value);
    }
  }

  lemma IdentityRuleDecides(s: Submission)
    ensures ValidateIdentity(s).Ok? <==> IdentityRule(s)
    ensures ValidateIdentity(s).Err? ==> ValidateIdentity(s).error == RuleError("", NoUsableIdentifier)
    ensures ValidateIdentity(s).Ok? ==> ValidateIdentity(s).value == (UsablePlate(s), UsableTransponder(s))
  {
    KeyEmptyIffUnusable(s.transponder);
    if s.plate.Some? {
      KeyEmptyIffUnusable(s.plate.value.number);
    }
  }

  /** The identifiers kept are the usable ones, as read and with their keys. */
  lemma ReadsAreKept(s: Submission)
    ensures UsablePlate(s) ==
      if s.plate.Some? && Usable(s.plate.value.number) then Some(Plate(
        s.plate.value.number, s.plate.value.jurisdiction,
        KeyOf(s.plate.value.number), KeyOf(s.plate.value.jurisdiction)))
      else None
    ensures UsableTransponder(s) ==
      if Usable(s.transponder) then Some(Transponder(s.transponder, KeyOf(s.transponder))) else None
  {
    KeyEmptyIffUnusable(s.transponder);
    if s.plate.Some? {
      KeyEmptyIffUnusable(s.plate.value.number);
    }
    hide KeyOf;
  }

  /** An amount that is not billable is refused for the right reason. */
  lemma AmountRefused(raw: string, c: Currency)
    requires !BillableText(raw, c)
    ensures ValidateAmount(raw, c).Err? && ValidateAmount(raw, c).error.field == "base_amount"
    ensures AmountReason(raw, c, ValidateAmount(raw, c).error.reason)
  {
    AmountRuleDecides(raw, c);
    ParseTells(raw, c);
    hide BillableText, SpellsDecimal, Parse, ValueOf, AllDigits;
    if n: bool, whole: string, fraction: string :| SpellsDecimal(raw, n, whole, fraction) && |fraction| > c.exponent {
      assert Parse(raw, c) == Err(Scale);
    } else if n: bool, whole: string, fraction: string :| SpellsDecimal(raw, n, whole, fraction) {
      assert Parse(raw, c).Ok?;
    }
  }

  /** All the rules hold. */
  ghost predicate Clean(r: Rules, s: Submission, now: Instant) {
    TypeRule(r, s) && TimeRule(r, s, now) && CurrencyRule(r, s) && AmountRule(r, s) && IdentityRule(s)
  }

  lemma ProblemsAreViolations(r: Rules, s: Submission, now: Instant)
    ensures Violations(r, s, now, Problems(r, s, now))
  {
    hide ValidateType, ValidateTime, ResolveCurrency, ValidateAmount, ValidateIdentity;
    hide TypeRule, TimeRule, IdentityRule, BillableText, AmountReason, Denominates;
    TypeRuleDecides(r, s);
    TimeRuleDecides(r, s, now);
    CurrencyRuleDecides(r, s);
    IdentityRuleDecides(s);
    var amount: Reason := Required;
    if CurrencyRule(r, s) {
      var c := ResolveCurrency(r, s.currency).value;
      AmountRuleDecides(s.baseAmount, c);
      if !BillableText(s.baseAmount, c) {
        AmountRefused(s.baseAmount, c);
        amount := ValidateAmount(s.baseAmount, c).error.reason;
      }
    }
    assert AmountFails(r, s, amount) && Problems(r, s, now) == InRuleOrder(r, s, now, amount);
  }

  lemma ViolationsIffUnclean(r: Rules, s: Submission, now: Instant, problems: seq<RuleError>)
    requires Violations(r, s, now, problems)
    ensures problems == [] <==> Clean(r, s, now)
  {
    hide TypeRule, TimeRule, CurrencyRule, AmountRule, IdentityRule, Denominates, BillableText, AmountReason;
  }

  /** A submission is refused exactly when it breaks a rule, the problems are exactly
      the broken rules in rule order, each with its reason, and a submission that breaks
      none is accepted unless no identifier could be minted. */
  lemma RejectsExactlyTheViolations(r: Rules, s: Submission, now: Instant, minted: Option<Uuid>)
    ensures Accept(r, s, now, minted).Rejected? <==> !Clean(r, s, now)
    ensures Accept(r, s, now, minted).Accepted? <==> Clean(r, s, now) && minted.Some?
    ensures Accept(r, s, now, minted).Rejected? ==> Violations(r, s, now, Accept(r, s, now, minted).problems)
  {
    ProblemsAreViolations(r, s, now);
    ViolationsIffUnclean(r, s, now, Problems(r, s, now));
    hide Violations, Clean;
  }

  /** What acceptance guarantees to everything downstream of it. */
  lemma AcceptedIsAcceptable(r: Rules, s: Submission, now: Instant, minted: Option<Uuid>)
    requires Configured(r) && Accept(r, s, now, minted).Accepted?
    ensures var tx := Accept(r, s, now, minted).tx;
      && Acceptable(tx)
      && KeyOfTransaction(tx) == Key(s.source, s.sourceReference)
      && (tx.plate.Some? <==> s.plate.Some? && Usable(s.plate.value.number))
      && (tx.transponder.Some? <==> Usable(s.transponder))
      && tx.baseAmount.asReceived == s.baseAmount
      && tx.occurredAt <= tx.receivedAt + Allowance(r)
  {
    var c := ResolveCurrency(r, s.currency).value;
    CurrencyIsKnown(r, s.currency);
    AmountRuleDecides(s.baseAmount, c);
    TimeRuleDecides(r, s, now);
    ReadsAreKept(s);
    IdentityRuleDecides(s);
    hide ValidateType, ValidateTime, ResolveCurrency, ValidateAmount, ValidateIdentity, UsablePlate, UsableTransponder;
    hide Parsed, Known, BillableText, TimeReason, IsNegative;
  }

  lemma CurrencyIsKnown(r: Rules, raw: string)
    requires Configured(r) && ResolveCurrency(r, raw).Ok?
    ensures Known(ResolveCurrency(r, raw).value)
  {
    if raw != "" {
      LookupIsKnown(raw);
    }
  }

  /** How each field of an accepted transaction comes from its submission: the type in
      the operator's last spelling, the usable reads with their keys, the currency the
      submission is in, and everything else as submitted. */
  ghost predicate ComesFrom(r: Rules, s: Submission, tx: Transaction) {
    && KeyOfTransaction(tx) == Key(s.source, s.sourceReference)
    && r.types.Some? && OperatorsSpelling(r.types.value, s.kind, tx.kind)
    && tx.occurredAt == s.occurredAt.utc
    && tx.plate == (
         if s.plate.Some? && Usable(s.plate.value.number) then Some(Plate(
           s.plate.value.number, s.plate.value.jurisdiction,
           KeyOf(s.plate.value.number), KeyOf(s.plate.value.jurisdiction)))
         else None)
    && tx.transponder == (
         if Usable(s.transponder) then Some(Transponder(s.transponder, KeyOf(s.transponder))) else None)
    && Denominates(r, s.currency, tx.baseAmount.currency)
    && tx.baseAmount.asReceived == s.baseAmount
    && tx.location == s.location && tx.metadata == s.metadata
  }

  ghost predicate OperatorsSpelling(types: seq<string>, t: string, spelling: string) {
    exists i :: TypeSets.LastConfigured(types, t, i) && spelling == Trim(types[i])
  }

  lemma AcceptedComesFrom(r: Rules, s: Submission, now: Instant, minted: Option<Uuid>)
    requires Accept(r, s, now, minted).Accepted?
    ensures var tx := Accept(r, s, now, minted).tx;
      ComesFrom(r, s, tx) && Some(tx.id) == minted && tx.receivedAt == now
      && tx.association == Received && tx.settlement == Priced
  {
    hide ValidateType, ResolveCurrency, ValidateAmount, ValidateIdentity, UsablePlate, UsableTransponder;
    hide TypeRule, CurrencyRule, IdentityRule, BillableText, Denominates, Usable, KeyOf, Trim, TypeSets.LastConfigured;
    TypeRuleDecides(r, s);
    CurrencyRuleDecides(r, s);
    IdentityRuleDecides(s);
    ReadsAreKept(s);
    AmountRuleDecides(s.baseAmount, ResolveCurrency(r, s.currency).value);
  }
}
