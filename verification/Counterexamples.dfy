/** Submissions that are accepted and yet fail what holds of most: one for each
    condition under which a property is only then met. */
module Counterexamples {
  import opened Text
  import opened Calendar
  import opened Decimals
  import opened Identity
  import opened Money
  import TypeSets
  import opened Transactions
  import opened Validation
  import opened Fingerprints
  import opened Rows

  const RULES := Rules(Some(["toll"]), None, 0)

  const DOLLARS := Currency("USD", 2)

  /** A plate read at a toll gantry. */
  function Reading(reference: string, at: ZonedTime, amount: string): Submission {
    Submission("gantry", reference, "TOLL", at, Some(PlateRead("a-1", "")), "", amount, "usd", None, None)
  }

  lemma TypeIsConfigured(s: Submission)
    requires s.kind == "TOLL"
    ensures TypeRule(RULES, s)
  {
    assert Trim("toll") == "toll" && Trim("TOLL") == "TOLL";
    assert TypeSets.SameType(RULES.types.value[0], s.kind);
  }

  lemma DollarsAreMeant(c: Currency)
    ensures Denominates(RULES, "usd", c) <==> c == DOLLARS
  {
    assert Trim("usd") == "usd" && Upper("usd") == "USD";
    ResolvesIffDenominates(RULES, "usd", c);
  }

  /** A reading is accepted whatever its amount, if it is billable, and whenever it was
      taken, if not in the future and not at the zero time. */
  lemma ReadingIsAccepted(s: Submission, now: Instant, id: Uuid)
    requires s == Reading(s.sourceReference, s.occurredAt, s.baseAmount) && BillableText(s.baseAmount, DOLLARS)
    requires s.occurredAt.utc != ZERO_TIME && s.occurredAt.utc <= now
    ensures Configured(RULES) && Accept(RULES, s, now, Some(id)).Accepted?
    ensures var tx := Accept(RULES, s, now, Some(id)).tx;
      && Acceptable(tx) && ComesFrom(RULES, s, tx) && tx.receivedAt == now
  {
    hide Accept, TypeRule, Denominates, BillableText, ComesFrom, Acceptable;
    TypeIsConfigured(s);
    forall c {
      DollarsAreMeant(c);
    }
    assert Denominates(RULES, s.currency, DOLLARS);
    assert IsAlphanumeric(s.plate.value.number[0]);
    RejectsExactlyTheViolations(RULES, s, now, Some(id));
    AcceptedIsAcceptable(RULES, s, now, Some(id));
    AcceptedComesFrom(RULES, s, now, Some(id));
  }

  // ---- negative zero ----

  lemma NegativeZeroIsBillable()
    ensures BillableText("-0.00", DOLLARS)
  {
    assert "0"[..0] == "" && "00"[..1] == "0" && "000"[..2] == "00" && "0" + "00" == "000";
    assert ValueOf("0") == 0;
    assert ValueOf("00") == 0;
    assert Dotted("0", "00") == "0.00" && Spell(true, "0", "00") == "-0.00";
    assert SpellsDecimal("-0.00", true, "0", "00");
  }

  lemma NegativeZeroIsNothing()
    ensures IsDecimalText("-0.00") && FromString("-0.00").coef == 0
  {
    hide IsDecimalText, FromString;
    assert "0"[..0] == "" && "00"[..1] == "0" && "000"[..2] == "00" && "0" + "00" == "000";
    assert ValueOf("0") == 0;
    assert ValueOf("00") == 0;
    assert Dotted("0", "00") == "0.00" && Spell(true, "0", "00") == "-0.00";
    SpellingReads(true, "0", "00");
  }

  /** A negative zero bills nothing and is accepted, whatever the case of the other
      fields. */
  lemma NegativeZeroIsAccepted(now: Instant, id: Uuid)
    requires now >= 0
    ensures Accept(RULES, Reading("1", ZonedTime(0, 0), "-0.00"), now, Some(id)).Accepted?
  {
    hide BillableText, Accept;
    NegativeZeroIsBillable();
    ReadingIsAccepted(Reading("1", ZonedTime(0, 0), "-0.00"), now, id);
  }

  // ---- years the encoder refuses ----

  /** New year of year 0 at 14 hours east of Greenwich: still year -1 in UTC. */
  const BEFORE_YEAR_ZERO := ZonedTime(-14 * HOUR, 14 * HOUR)

  /** Two accepted readings under different keys share one fingerprint when their
      instant is out of the encoder's range, and neither can be announced. */
  lemma UnencodableYearsCollide(now: Instant, id: Uuid, other: Uuid, eventId: Uuid)
    requires now >= 0
    ensures var (s, t) := (Reading("1", BEFORE_YEAR_ZERO, "-0.00"), Reading("2", BEFORE_YEAR_ZERO, "-0.00"));
      var (first, second) := (Accept(RULES, s, now, Some(id)), Accept(RULES, t, now, Some(other)));
      && first.Accepted? && second.Accepted?
      && Fingerprint(first.tx) == Fingerprint(second.tx)
      && KeyOfTransaction(first.tx) != KeyOfTransaction(second.tx) && !SameBilling(first.tx, second.tx)
      && NewTransactionReceived(first.tx, eventId).None?
  {
    hide BillableText, Accept, Acceptable, Members;
    var s, t := Reading("1", BEFORE_YEAR_ZERO, "-0.00"), Reading("2", BEFORE_YEAR_ZERO, "-0.00");
    NegativeZeroIsBillable();
    ReadingIsAccepted(s, now, id);
    ReadingIsAccepted(t, now, other);
    assert "1"[0] != "2"[0];
  }

  // ---- instants finer than the column ----

  /** A reading a nanosecond past the microsecond is accepted, and comes back from its
      row as another instant with another fingerprint. */
  lemma NanosecondsAreLost(now: Instant, id: Uuid)
    requires now >= 1
    ensures var accepted := Accept(RULES, Reading("1", ZonedTime(1, 0), "-0.00"), now, Some(id));
      && accepted.Accepted? && Acceptable(accepted.tx)
      && DecodeRow(EncodeRow(accepted.tx)).Ok? && DecodeRow(EncodeRow(accepted.tx)).value.0 != accepted.tx
      && Fingerprint(DecodeRow(EncodeRow(accepted.tx)).value.0) != Fingerprint(accepted.tx)
  {
    hide BillableText, Accept, Acceptable, EncodeRow, DecodeRow, Fingerprint, AsStored, YearOf;
    var s := Reading("1", ZonedTime(1, 0), "-0.00");
    NegativeZeroIsBillable();
    ReadingIsAccepted(s, now, id);
    var tx := Accept(RULES, s, now, Some(id)).tx;
    RowRoundTrip(tx);
    StoredExactlyIffWholeMicros(tx);
  }

  // ---- amounts too large for the column ----

  /** One followed by fifteen zeros. */
  const TOO_MUCH := "1" + Zeros(15)

  lemma {:induction false} OneAndZeros(n: nat)
    ensures AllDigits("1" + Zeros(n)) && ValueOf("1" + Zeros(n)) == Pow10(n)
  {
    var s := "1" + Zeros(n);
    if n == 0 {
      assert s == "1" && s[..0] == "";
      assert ValueOf(s[..0]) == 0;
    } else {
      OneAndZeros(n - 1);
      assert s[..|s| - 1] == "1" + Zeros(n - 1);
    }
  }

  lemma TooMuchIsBillable()
    ensures BillableText(TOO_MUCH, DOLLARS) && IsDecimalText(TOO_MUCH)
    ensures FromString(TOO_MUCH) == Decimal(Pow10(15), 0)
  {
    hide ValueOf, Pow10, IsDecimalText, FromString, Zeros;
    OneAndZeros(15);
    assert TOO_MUCH + "" == TOO_MUCH;
    assert SpellsDecimal(TOO_MUCH, false, TOO_MUCH, "");
    SpellingReads(false, TOO_MUCH, "");
  }

  /** A reading of 10^15 is accepted and its row refused. */
  lemma TooMuchIsAccepted(now: Instant, id: Uuid)
    requires now >= 0
    ensures var accepted := Accept(RULES, Reading("1", ZonedTime(0, 0), TOO_MUCH), now, Some(id));
      accepted.Accepted? && !Fits(EncodeRow(accepted.tx))
  {
    hide BillableText, Accept, EncodeRow, Fits, Pow10, IsDecimalText, FromString;
    var s := Reading("1", ZonedTime(0, 0), TOO_MUCH);
    TooMuchIsBillable();
    ReadingIsAccepted(s, now, id);
    AcceptedFitsIffBelowLimit(Accept(RULES, s, now, Some(id)).tx);
  }
}
