/** Currencies and exact amounts. */
module Money {
  import opened Text
  import opened Decimals

  /** An ISO 4217 code with its number of minor-unit places. */
  datatype Currency = Currency(code: string, exponent: nat)

  const NO_MINOR_UNIT: set<string> := {"ISK", "JPY", "KRW", "CLP"}

  const HUNDREDTHS: set<string> := {
    "USD", "CAD", "MXN", "EUR", "GBP", "SEK", "NOK", "DKK", "CHF", "PLN", "CZK",
    "AED", "SAR", "QAR", "ILS", "AUD", "NZD", "SGD", "INR", "BRL"
  }

  const THOUSANDTHS: set<string> := {"BHD", "KWD", "OMR", "JOD", "TND"}

  function Lookup(code: string): Option<Currency> {
    var c := Upper(Trim(code));
    if c in NO_MINOR_UNIT then Some(Currency(c, 0))
    else if c in HUNDREDTHS then Some(Currency(c, 2))
    else if c in THOUSANDTHS then Some(Currency(c, 3))
    else None
  }

  /** A currency of the table, as the table spells it. */
  predicate Known(c: Currency) {
    || (c.exponent == 0 && c.code in NO_MINOR_UNIT)
    || (c.exponent == 2 && c.code in HUNDREDTHS)
    || (c.exponent == 3 && c.code in THOUSANDTHS)
  }

  lemma KnownExponent(c: Currency)
    requires Known(c)
    ensures c.exponent <= 3
  {
  }

  predicate AllUpper(code: string) {
    forall i :: 0 <= i < |code| ==> IsUpper(code[i])
  }

  lemma UpperTrimSettles(code: string)
    requires AllUpper(code)
    ensures Upper(Trim(code)) == code
  {
  }

  lemma CodesAreUpper(c: Currency)
    requires Known(c)
    ensures AllUpper(c.code)
  {
  }

  lemma FoundIsKnown(code: string)
    requires Lookup(code).Some?
    ensures Known(Lookup(code).value)
  {
    hide Trim, Upper;
  }

  lemma KnownIsFound(c: Currency)
    requires Known(c)
    ensures Lookup(c.code) == Some(c)
  {
    CodesAreUpper(c);
    UpperTrimSettles(c.code);
    TableIsSplit(c.code);
    hide Trim, Upper, AllUpper;
  }

  lemma TableIsSplit(code: string)
    ensures !(code in NO_MINOR_UNIT && code in HUNDREDTHS)
    ensures !(code in NO_MINOR_UNIT && code in THOUSANDTHS)
    ensures !(code in HUNDREDTHS && code in THOUSANDTHS)
  {
  }

  /** A currency of the table is found under its own code, and what is found is of
      the table. */
  lemma KnownIffFound(c: Currency)
    ensures Known(c) <==> Lookup(c.code) == Some(c)
  {
    hide Known, Lookup;
    if Known(c) {
      KnownIsFound(c);
    } else if Lookup(c.code).Some? {
      FoundIsKnown(c.code);
    }
  }

  /** Resolving settles: a resolved code resolves to itself. */
  lemma LookupIsKnown(code: string)
    requires Lookup(code).Some?
    ensures Known(Lookup(code).value) && Lookup(code).value.exponent <= 3
    ensures Lookup(Lookup(code).value.code) == Lookup(code)
  {
    KnownIffFound(Lookup(code).value);
  }

  const NORTH_AMERICA: set<Currency> := {Currency("USD", 2), Currency("CAD", 2), Currency("MXN", 2)}

  const EUROPE: set<Currency> := {
    Currency("EUR", 2), Currency("GBP", 2), Currency("SEK", 2), Currency("NOK", 2), Currency("DKK", 2),
    Currency("CHF", 2), Currency("PLN", 2), Currency("CZK", 2), Currency("ISK", 0)
  }

  const MIDDLE_EAST: set<Currency> := {
    Currency("AED", 2), Currency("SAR", 2), Currency("QAR", 2), Currency("ILS", 2), Currency("BHD", 3),
    Currency("KWD", 3), Currency("OMR", 3), Currency("JOD", 3), Currency("TND", 3)
  }

  const ASIA_PACIFIC: set<Currency> := {
    Currency("AUD", 2), Currency("NZD", 2), Currency("SGD", 2), Currency("INR", 2), Currency("JPY", 0),
    Currency("KRW", 0)
  }

  const SOUTH_AMERICA: set<Currency> := {Currency("BRL", 2), Currency("CLP", 0)}

  /** The table market by market. */
  predicate Listed(c: Currency) {
    c in NORTH_AMERICA || c in EUROPE || c in MIDDLE_EAST || c in ASIA_PACIFIC || c in SOUTH_AMERICA
  }

  lemma ListedIsKnown(c: Currency)
    requires Listed(c)
    ensures Known(c)
  {
  }

  lemma KnownIsListed(c: Currency)
    requires Known(c)
    ensures Listed(c)
  {
  }

  /** The currencies of the table are those of the markets, each with its minor unit. */
  lemma KnownIffListed(c: Currency)
    ensures Known(c) <==> Listed(c)
  {
    hide Known, Listed;
    if Known(c) {
      KnownIsListed(c);
    } else if Listed(c) {
      ListedIsKnown(c);
    }
  }

  datatype ParseError = Empty | Syntax | Scale

  /** An exact value in a currency, with the producer's text kept verbatim. */
  datatype Amount = Amount(value: Decimal, currency: Currency, asReceived: string)

  /** How many characters follow the last point, and 0 without one. */
  function PlacesAfterPoint(raw: string): (n: nat) {
    if raw == "" then 0
    else if raw[|raw| - 1] == '.' then 0
    else if '.' in raw then 1 + PlacesAfterPoint(raw[..|raw| - 1])
    else 0
  }

  /** Counts the decimal places by scanning from the end. */
  method DecimalPlaces(raw: string) returns (n: nat)
    ensures n == PlacesAfterPoint(raw)
  {
    var i := |raw| - 1;
    while i >= 0
      invariant -1 <= i < |raw|
      invariant forall j :: i < j < |raw| ==> raw[j] != '.'
    {
      if raw[i] == '.' {
        LastPointPlaces(raw, i);
        return |raw| - i - 1;
      }
      i := i - 1;
    }
    assert '.' !in raw;
    return 0;
  }

  lemma {:induction false} LastPointPlaces(raw: string, i: nat)
    requires i < |raw| && raw[i] == '.'
    requires forall j :: i < j < |raw| ==> raw[j] != '.'
    ensures PlacesAfterPoint(raw) == |raw| - i - 1
  {
    if i < |raw| - 1 {
      LastPointPlaces(raw[..|raw| - 1], i);
    }
  }

  function Parse(raw: string, c: Currency): Result<Amount, ParseError> {
    if raw == "" then Err(Empty)
    else if !IsDecimalText(raw) then Err(Syntax)
    else if PlacesAfterPoint(raw) > c.exponent then Err(Scale)
    else Ok(Amount(FromString(raw), c, raw))
  }

  predicate IsNegative(a: Amount) {
    a.value.coef < 0
  }

  predicate EqualAmounts(a: Amount, b: Amount) {
    a.currency.code == b.currency.code && Equal(a.value, b.value)
  }

  /** The amount as published: every minor-unit place written out. */
  function Rendered(a: Amount): string {
    StringFixed(a.value, a.currency.exponent)
  }

  /** An amount that Parse can have produced. */
  predicate Parsed(a: Amount) {
    Parse(a.asReceived, a.currency) == Ok(a)
  }

  lemma NoPointNoPlaces(raw: string)
    requires '.' !in raw
    ensures PlacesAfterPoint(raw) == 0
  {
  }

  lemma SpelledPlaces(negative: bool, whole: string, fraction: string)
    requires whole != "" && AllDigits(whole) && AllDigits(fraction)
    ensures PlacesAfterPoint(Spell(negative, whole, fraction)) == |fraction|
  {
    hide PlacesAfterPoint;
    var raw := Spell(negative, whole, fraction);
    if fraction != "" {
      LastPointPlaces(raw, |raw| - |fraction| - 1);
    } else {
      NoPointNoPlaces(raw);
    }
  }

  lemma PlacesOfText(raw: string)
    requires IsDecimalText(raw)
    ensures PlacesAfterPoint(raw) == FromString(raw).scale
  {
    hide IsDecimalText, FromString, ValueOf, PlacesAfterPoint, Spell;
    var negative, whole, fraction := DecimalTextIsSpelled(raw);
    SpellingReads(negative, whole, fraction);
    SpelledPlaces(negative, whole, fraction);
  }

  /** Parse accepts exactly the spelled decimals whose fraction fits the currency. */
  lemma ParseAccepts(raw: string, c: Currency)
    ensures Parse(raw, c).Ok? <==>
      exists negative: bool, whole: string, fraction: string ::
        SpellsDecimal(raw, negative, whole, fraction) && |fraction| <= c.exponent
  {
    DecimalTextIffSpelled(raw);
    if IsDecimalText(raw) {
      PlacesOfText(raw);
      var negative, whole, fraction := DecimalTextIsSpelled(raw);
      SpellingReads(negative, whole, fraction);
      assert Parse(raw, c).Ok? <==> |fraction| <= c.exponent;
      forall n: bool, w: string, f: string | SpellsDecimal(raw, n, w, f)
        ensures |f| == |fraction|
      {
        SpellingReads(n, w, f);
      }
    }
  }

  /** What Parse makes of a text: nothing given, no decimal, too many places for the
      currency, or the decimal spelled, with the text as received. */
  lemma ParseTells(raw: string, c: Currency)
    ensures raw == "" <==> Parse(raw, c) == Err(Empty)
    ensures Parse(raw, c) == Err(Syntax) <==>
      raw != "" && !exists n: bool, whole: string, fraction: string :: SpellsDecimal(raw, n, whole, fraction)
    ensures forall negative: bool, whole: string, fraction: string ::
      SpellsDecimal(raw, negative, whole, fraction) ==>
      Parse(raw, c) == if |fraction| > c.exponent then Err(Scale)
        else Ok(Amount(Valued(negative, ValueOf(whole + fraction), |fraction|), c, raw))
  {
    hide IsDecimalText, FromString, PlacesAfterPoint, ValueOf, Spell, Parse;
    ParseOrder(raw, c);
    DecimalTextIffSpelled(raw);
    forall negative: bool, whole: string, fraction: string | SpellsDecimal(raw, negative, whole, fraction)
      ensures raw != ""
      ensures Parse(raw, c) == if |fraction| > c.exponent then Err(Scale)
        else Ok(Amount(Valued(negative, ValueOf(whole + fraction), |fraction|), c, raw))
    {
      SpelledParses(raw, c, negative, whole, fraction);
    }
  }

  lemma ParseOrder(raw: string, c: Currency)
    ensures raw == "" <==> Parse(raw, c) == Err(Empty)
    ensures Parse(raw, c) == Err(Syntax) <==> raw != "" && !IsDecimalText(raw)
  {
    hide IsDecimalText, FromString, PlacesAfterPoint;
  }

  lemma SpelledReads(raw: string, negative: bool, whole: string, fraction: string)
    requires SpellsDecimal(raw, negative, whole, fraction)
    ensures IsDecimalText(raw) && PlacesAfterPoint(raw) == |fraction|
    ensures FromString(raw) == Valued(negative, ValueOf(whole + fraction), |fraction|)
  {
    SpellingReads(negative, whole, fraction);
    SpelledPlaces(negative, whole, fraction);
    hide IsDecimalText, FromString, PlacesAfterPoint, ValueOf, Spell, AllDigits;
  }

  lemma SpelledParses(raw: string, c: Currency, negative: bool, whole: string, fraction: string)
    requires SpellsDecimal(raw, negative, whole, fraction)
    ensures raw != ""
    ensures Parse(raw, c) == if |fraction| > c.exponent then Err(Scale)
      else Ok(Amount(Valued(negative, ValueOf(whole + fraction), |fraction|), c, raw))
  {
    SpelledIsNotEmpty(raw, negative, whole, fraction);
    SpelledReads(raw, negative, whole, fraction);
    hide IsDecimalText, FromString, PlacesAfterPoint, ValueOf, Spell, AllDigits, Valued, SpellsDecimal;
  }

  lemma SpelledIsNotEmpty(raw: string, negative: bool, whole: string, fraction: string)
    requires SpellsDecimal(raw, negative, whole, fraction)
    ensures raw != ""
  {
  }

  /** A parsed value never has more places than its currency. */
  lemma ParsedFits(a: Amount)
    requires Parsed(a)
    ensures a.value.scale <= a.currency.exponent
    ensures Equal(RoundTo(a.value, a.currency.exponent), a.value)
  {
    PlacesOfText(a.asReceived);
    FixedDecides(a.value, a.value, a.currency.exponent);
  }

  /** Parsing the published text gives an equal amount, and publishing that
      again gives the same text. */
  lemma PrintParseRoundTrip(a: Amount)
    requires Parsed(a)
    ensures Parse(Rendered(a), a.currency).Ok?
    ensures var b := Parse(Rendered(a), a.currency).value;
      Parsed(b) && EqualAmounts(a, b) && Rendered(b) == Rendered(a)
  {
    ParsedFits(a);
    var d := RoundTo(a.value, a.currency.exponent);
    RenderingParses(d, a.currency);
    FixedDecides(d, a.value, a.currency.exponent);
    EqualAt(d, a.value, a.currency.exponent);
  }

  lemma RenderingParses(d: Decimal, c: Currency)
    requires d.scale <= c.exponent
    ensures Parse(Render(d), c) == Ok(Amount(d, c, Render(d)))
  {
    RenderReads(d);
    PlacesOfText(Render(d));
  }

  /** The published text writes the amount out to all the places of its currency. */
  lemma RenderedWrites(a: Amount)
    requires Parsed(a)
    ensures Writes(Rendered(a), a.value, a.currency.exponent)
  {
    ParsedFits(a);
    FixedWrites(a.value, a.currency.exponent);
  }

  /** Two amounts in one currency are published alike exactly when they are
      equal, and the same holds for the trimmed text the fingerprint uses. */
  lemma RenderedDecides(a: Amount, b: Amount)
    requires Parsed(a) && Parsed(b) && a.currency == b.currency
    ensures Rendered(a) == Rendered(b) <==> EqualAmounts(a, b)
    ensures Canonical(a.value) == Canonical(b.value) <==> EqualAmounts(a, b)
  {
    ParsedFits(a);
    ParsedFits(b);
    FixedDecides(a.value, b.value, a.currency.exponent);
    CanonicalDecides(a.value, b.value);
  }
}
