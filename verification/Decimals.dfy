/** Exact decimals as the decimal library keeps them, a coefficient and a scale,
    with the two renderings the service uses: at a fixed number of places, and
    with trailing zeros trimmed. */
module Decimals {
  import opened Text

  /** The number coef * 10^-scale. */
  datatype Decimal = Decimal(coef: int, scale: nat)

  function Pow10(n: nat): (p: nat)
    ensures p >= 1
  {
    if n == 0 then 1 else 10 * Pow10(n - 1)
  }

  function Max(a: nat, b: nat): nat {
    if a < b then b else a
  }

  /** The coefficient d has when written with k places. */
  function Scaled(d: Decimal, k: nat): int
    requires d.scale <= k
  {
    d.coef * Pow10(k - d.scale)
  }

  /** Numeric equality, whatever the scales. */
  predicate Equal(a: Decimal, b: Decimal) {
    var k := Max(a.scale, b.scale);
    Scaled(a, k) == Scaled(b, k)
  }

  // ---- digits ----

  function DigitChar(d: nat): (c: char)
    requires d < 10
  {
    ('0' as int + d) as char
  }

  function DigitValue(c: char): nat
    requires IsDigit(c)
  {
    c as int - '0' as int
  }

  predicate AllDigits(s: string) {
    forall i :: 0 <= i < |s| ==> IsDigit(s[i])
  }

  /** The digits of n, padded with zeros to at least w of them. */
  function Digits(n: nat, w: nat): (s: string)
    ensures AllDigits(s) && |s| >= w
    decreases n + w
  {
    if n == 0 && w == 0 then "" else Digits(n / 10, if w == 0 then 0 else w - 1) + [DigitChar(n % 10)]
  }

  /** The number a digit string denotes. */
  function ValueOf(s: string): nat
    requires AllDigits(s)
  {
    if s == "" then 0 else 10 * ValueOf(s[..|s| - 1]) + DigitValue(s[|s| - 1])
  }

  lemma {:induction false} DigitsDenote(n: nat, w: nat)
    ensures ValueOf(Digits(n, w)) == n
    decreases n + w
  {
    if n != 0 || w != 0 {
      var shorter := Digits(n / 10, if w == 0 then 0 else w - 1);
      DigitsDenote(n / 10, if w == 0 then 0 else w - 1);
      assert Digits(n, w)[..|shorter|] == shorter;
    }
  }

  /** A number below 10^w takes exactly w padded digits. */
  lemma {:induction false} DigitsWidth(n: nat, w: nat)
    requires n < Pow10(w)
    ensures |Digits(n, w)| == w
  {
    if w != 0 {
      DigitsWidth(n / 10, w - 1);
    }
  }

  // ---- rendering ----

  function Abs(n: int): nat {
    if n < 0 then -n else n
  }

  /** The value with every digit of its scale written out. */
  function Render(d: Decimal): (s: string)
    ensures s != ""
  {
    var str := Digits(Abs(d.coef), d.scale + 1);
    var point := |str| - d.scale;
    Spell(d.coef < 0, str[..point], str[point..])
  }

  /** Round half away from zero to k places; exact when k is at least the scale. */
  function RoundTo(d: Decimal, k: nat): (r: Decimal)
    ensures r.scale == k
  {
    if d.scale <= k then Decimal(Scaled(d, k), k)
    else
      var unit := Pow10(d.scale - k);
      var magnitude := (2 * Abs(d.coef) + unit) / (2 * unit);
      Decimal(if d.coef < 0 then -magnitude else magnitude, k)
  }

  /** What is lost by rounding is at most half a unit of the last place kept, and half a
      unit is rounded up in magnitude; the sign stays. */
  lemma RoundsHalfAway(d: Decimal, k: nat)
    requires k < d.scale
    ensures var (r, unit) := (RoundTo(d, k), Pow10(d.scale - k));
      -unit < 2 * (Abs(r.coef) * unit - Abs(d.coef)) <= unit && (r.coef != 0 ==> (r.coef < 0 <==> d.coef < 0))
  {
    HalfUp(Abs(d.coef), Pow10(d.scale - k));
    hide Pow10;
  }

  lemma HalfUp(n: int, unit: int)
    requires n >= 0 && unit > 0
    ensures var m := (2 * n + unit) / (2 * unit); m >= 0 && -unit < 2 * (m * unit - n) <= unit
  {
    var x, y := 2 * n + unit, 2 * unit;
    var m := x / y;
    assert x == m * y + x % y;
    assert m * y == 2 * (m * unit);
  }

  function StringFixed(d: Decimal, places: nat): string {
    Render(RoundTo(d, places))
  }

  /** The same number without trailing zeros after the point. */
  function Normalize(d: Decimal): (r: Decimal)
    ensures r.scale <= d.scale
    decreases d.scale
  {
    if d.scale > 0 && d.coef % 10 == 0 then Normalize(Decimal(d.coef / 10, d.scale - 1)) else d
  }

  /** The canonical text: no trailing zeros, and never a negative zero. */
  function Canonical(d: Decimal): string {
    Render(Normalize(d))
  }

  // ---- reading a decimal string back ----

  /** Where the first point is, or the length when there is none. */
  function PointAt(s: string): (p: nat)
    ensures p <= |s|
    ensures p < |s| ==> s[p] == '.'
    ensures forall i :: 0 <= i < p ==> s[i] != '.'
  {
    if s == "" || s[0] == '.' then 0 else 1 + PointAt(s[1..])
  }

  /** Digits, and optionally a point with more digits. */
  predicate IsUnsignedText(body: string) {
    var p := PointAt(body);
    && p > 0
    && AllDigits(body[..p])
    && (p < |body| ==> p + 1 < |body| && AllDigits(body[p + 1..]))
  }

  predicate Signed(raw: string) {
    raw != "" && raw[0] == '-'
  }

  function Unsigned(raw: string): string {
    if Signed(raw) then raw[1..] else raw
  }

  /** An optional minus before an unsigned decimal. */
  predicate IsDecimalText(raw: string) {
    IsUnsignedText(Unsigned(raw))
  }

  function FromUnsigned(body: string): (d: Decimal)
    requires IsUnsignedText(body)
    ensures d.coef >= 0
  {
    var p := PointAt(body);
    var fraction := if p < |body| then body[p + 1..] else "";
    Decimal(ValueOf(body[..p] + fraction), |fraction|)
  }

  function Negated(d: Decimal): Decimal {
    Decimal(-d.coef, d.scale)
  }

  /** The decimal a well-formed text denotes; its scale is the places written. */
  function FromString(raw: string): Decimal
    requires IsDecimalText(raw)
  {
    var d := FromUnsigned(Unsigned(raw));
    if Signed(raw) then Negated(d) else d
  }

  function Dotted(whole: string, fraction: string): string {
    if fraction == "" then whole else whole + "." + fraction
  }

  /** The text a sign, an integer part and a fraction spell. */
  function Spell(negative: bool, whole: string, fraction: string): string {
    if negative then "-" + Dotted(whole, fraction) else Dotted(whole, fraction)
  }

  /** The grammar, said by its shapes rather than by a scan. */
  ghost predicate SpellsDecimal(raw: string, negative: bool, whole: string, fraction: string) {
    && whole != "" && AllDigits(whole) && AllDigits(fraction)
    && raw == Spell(negative, whole, fraction)
  }

  lemma {:induction false} PointIsFirst(s: string, p: nat)
    requires p <= |s| && (p < |s| ==> s[p] == '.')
    requires forall i :: 0 <= i < p ==> s[i] != '.'
    ensures PointAt(s) == p
  {
    if p > 0 {
      PointIsFirst(s[1..], p - 1);
    }
  }

  lemma DottedReads(whole: string, fraction: string)
    requires whole != "" && AllDigits(whole) && AllDigits(fraction)
    ensures IsUnsignedText(Dotted(whole, fraction)) && Dotted(whole, fraction)[0] != '-'
    ensures FromUnsigned(Dotted(whole, fraction)) == Decimal(ValueOf(whole + fraction), |fraction|)
  {
    var body := Dotted(whole, fraction);
    PointIsFirst(body, |whole|);
    assert body[..|whole|] == whole;
    if fraction != "" {
      assert body[|whole| + 1..] == fraction;
    }
  }

  lemma SpellingIsSigned(negative: bool, whole: string, fraction: string)
    requires whole != "" && AllDigits(whole)
    ensures Signed(Spell(negative, whole, fraction)) <==> negative
    ensures Unsigned(Spell(negative, whole, fraction)) == Dotted(whole, fraction)
  {
    assert Dotted(whole, fraction)[0] == whole[0];
  }

  lemma SpellingReads(negative: bool, whole: string, fraction: string)
    requires whole != "" && AllDigits(whole) && AllDigits(fraction)
    ensures IsDecimalText(Spell(negative, whole, fraction))
    ensures var d := Decimal(ValueOf(whole + fraction), |fraction|);
      FromString(Spell(negative, whole, fraction)) == if negative then Negated(d) else d
  {
    DottedReads(whole, fraction);
    SpellingIsSigned(negative, whole, fraction);
    hide ValueOf, IsUnsignedText, FromUnsigned, Spell, Dotted, Signed, Unsigned;
  }

  lemma DecimalTextIsSpelled(raw: string) returns (negative: bool, whole: string, fraction: string)
    requires IsDecimalText(raw)
    ensures SpellsDecimal(raw, negative, whole, fraction)
  {
    negative := Signed(raw);
    var body := Unsigned(raw);
    var p := PointAt(body);
    whole, fraction := body[..p], if p < |body| then body[p + 1..] else "";
    assert body == Dotted(whole, fraction);
    assert negative ==> raw == "-" + body;
  }

  /** A text is accepted exactly when some sign, integer part and fraction spell it. */
  lemma DecimalTextIffSpelled(raw: string)
    ensures IsDecimalText(raw) <==>
      exists negative: bool, whole: string, fraction: string :: SpellsDecimal(raw, negative, whole, fraction)
  {
    if IsDecimalText(raw) {
      var negative, whole, fraction := DecimalTextIsSpelled(raw);
    } else if negative: bool, whole: string, fraction: string :| SpellsDecimal(raw, negative, whole, fraction) {
      SpellingReads(negative, whole, fraction);
    }
  }

  /** Reading a rendering gives back the very decimal that was rendered. */
  lemma RenderReads(d: Decimal)
    ensures IsDecimalText(Render(d)) && FromString(Render(d)) == d
  {
    hide Digits, ValueOf, FromString, IsDecimalText, Spell;
    var str := Digits(Abs(d.coef), d.scale + 1);
    var point := |str| - d.scale;
    DigitsDenote(Abs(d.coef), d.scale + 1);
    assert str[..point] + str[point..] == str;
    SpellingReads(d.coef < 0, str[..point], str[point..]);
  }

  // ---- scaling ----

  lemma {:induction false} Pow10Adds(a: nat, b: nat)
    ensures Pow10(a + b) == Pow10(a) * Pow10(b)
  {
    if a != 0 {
      Pow10Adds(a - 1, b);
      assert Pow10(a + b) == 10 * Pow10(a - 1 + b) == 10 * (Pow10(a - 1) * Pow10(b));
      assert 10 * (Pow10(a - 1) * Pow10(b)) == (10 * Pow10(a - 1)) * Pow10(b);
    }
  }

  lemma MulAssociates(x: int, y: int, z: int)
    ensures x * (y * z) == (x * y) * z
  {
  }

  lemma ScaledMore(d: Decimal, k: nat, more: nat)
    requires d.scale <= k
    ensures Scaled(d, k + more) == Scaled(d, k) * Pow10(more)
  {
    Pow10Adds(k - d.scale, more);
    assert k + more - d.scale == (k - d.scale) + more;
    MulAssociates(d.coef, Pow10(k - d.scale), Pow10(more));
  }

  lemma CancelFactor(x: int, y: int, f: nat)
    requires f >= 1 && x * f == y * f
    ensures x == y
  {
    assert (x - y) * f == x * f - y * f == 0;
    assert x != y ==> (x - y) * f != 0;
  }

  /** Equality may be decided at any common scale. */
  lemma EqualAt(a: Decimal, b: Decimal, k: nat)
    requires a.scale <= k && b.scale <= k
    ensures Equal(a, b) <==> Scaled(a, k) == Scaled(b, k)
  {
    var m := Max(a.scale, b.scale);
    ScaledMore(a, m, k - m);
    ScaledMore(b, m, k - m);
    if Scaled(a, k) == Scaled(b, k) {
      CancelFactor(Scaled(a, m), Scaled(b, m), Pow10(k - m));
    }
  }

  lemma {:induction false} NormalizeKeepsValue(d: Decimal)
    ensures Scaled(Normalize(d), d.scale) == d.coef
    ensures Normalize(d).scale == 0 || Normalize(d).coef % 10 != 0
    decreases d.scale
  {
    if d.scale > 0 && d.coef % 10 == 0 {
      var shorter := Decimal(d.coef / 10, d.scale - 1);
      NormalizeKeepsValue(shorter);
      ScaledMore(Normalize(d), d.scale - 1, 1);
      assert Pow10(1) == 10 * Pow10(0);
    } else {
      assert Pow10(0) == 1;
    }
  }

  lemma ScaledEndsInZero(d: Decimal, k: nat)
    requires d.scale < k
    ensures Scaled(d, k) % 10 == 0
  {
    ScaledMore(d, k - 1, 1);
    assert Pow10(1) == 10 * Pow10(0);
    assert Scaled(d, k) == Scaled(d, k - 1) * 10;
  }

  /** Two numbers without trailing zeros are equal only when identical. */
  lemma NormalFormsAgree(a: Decimal, b: Decimal, k: nat)
    requires a.scale <= b.scale <= k
    requires b.scale == 0 || b.coef % 10 != 0
    requires Scaled(a, k) == Scaled(b, k)
    ensures a == b
  {
    ScaledMore(a, b.scale, k - b.scale);
    ScaledMore(b, b.scale, k - b.scale);
    CancelFactor(Scaled(a, b.scale), Scaled(b, b.scale), Pow10(k - b.scale));
    assert Pow10(0) == 1;
    if a.scale < b.scale {
      ScaledEndsInZero(a, b.scale);
    }
  }

  /** The canonical text is equal exactly when the numbers are. */
  lemma CanonicalDecides(a: Decimal, b: Decimal)
    ensures Canonical(a) == Canonical(b) <==> Equal(a, b)
  {
    var k := Max(a.scale, b.scale);
    var x, y := Normalize(a), Normalize(b);
    NormalizeKeepsValue(a);
    NormalizeKeepsValue(b);
    ScaledMore(x, a.scale, k - a.scale);
    ScaledMore(y, b.scale, k - b.scale);
    if Equal(a, b) {
      if x.scale <= y.scale {
        NormalFormsAgree(x, y, k);
      } else {
        NormalFormsAgree(y, x, k);
      }
    }
    if Canonical(a) == Canonical(b) {
      RenderReads(x);
      RenderReads(y);
    }
  }

  /** At a fixed number of places that no value exceeds, so is the fixed text,
      and nothing is rounded away. */
  lemma FixedDecides(a: Decimal, b: Decimal, places: nat)
    requires a.scale <= places && b.scale <= places
    ensures Equal(RoundTo(a, places), a)
    ensures StringFixed(a, places) == StringFixed(b, places) <==> Equal(a, b)
  {
    EqualAt(a, b, places);
    EqualAt(RoundTo(a, places), a, places);
    assert Pow10(0) == 1;
    if StringFixed(a, places) == StringFixed(b, places) {
      RenderReads(RoundTo(a, places));
      RenderReads(RoundTo(b, places));
    }
  }

  // ---- how a decimal is written ----

  /** A sign when below zero, no superfluous zero in front, and just so many places. */
  ghost predicate Writes(text: string, d: Decimal, places: nat) {
    exists whole: string, fraction: string :: WritesAs(text, d, whole, fraction) && |fraction| == places
  }

  ghost predicate WritesAs(text: string, d: Decimal, whole: string, fraction: string) {
    && SpellsDecimal(text, d.coef < 0, whole, fraction) && (|whole| > 1 ==> whole[0] != '0')
    && Equal(Valued(d.coef < 0, ValueOf(whole + fraction), |fraction|), d)
  }

  function Valued(negative: bool, n: nat, scale: nat): Decimal {
    Decimal(if negative then -(n as int) else n as int, scale)
  }

  lemma {:induction false} NoLeadingZero(n: nat, w: nat)
    ensures |Digits(n, w)| > w ==> Digits(n, w)[0] != '0'
    decreases n + w
  {
    if n != 0 || w != 0 {
      NoLeadingZero(n / 10, if w == 0 then 0 else w - 1);
    }
  }

  /** Rendering writes all the places of the scale. */
  lemma RenderWrites(d: Decimal) returns (whole: string, fraction: string)
    ensures WritesAs(Render(d), d, whole, fraction) && |fraction| == d.scale
    ensures whole + fraction == Digits(Abs(d.coef), d.scale + 1)
  {
    hide Digits, ValueOf, Spell, Equal;
    var str := Digits(Abs(d.coef), d.scale + 1);
    var point := |str| - d.scale;
    whole, fraction := str[..point], str[point..];
    DigitsDenote(Abs(d.coef), d.scale + 1);
    NoLeadingZero(Abs(d.coef), d.scale + 1);
    assert whole + fraction == str;
    assert |whole| > 1 ==> whole[0] == str[0];
    DigitsOfParts(whole, fraction);
    EqualIsReflexive(d);
    hide AllDigits;
    assert Valued(d.coef < 0, ValueOf(whole + fraction), |fraction|) == d;
  }

  lemma DigitsOfParts(a: string, b: string)
    ensures AllDigits(a + b) <==> AllDigits(a) && AllDigits(b)
  {
    if AllDigits(a + b) {
      assert forall i :: 0 <= i < |a| ==> (a + b)[i] == a[i];
      assert forall i :: 0 <= i < |b| ==> (a + b)[|a| + i] == b[i];
    }
  }

  lemma EqualIsReflexive(d: Decimal)
    ensures Equal(d, d)
  {
  }

  lemma WritesEqual(text: string, a: Decimal, b: Decimal, whole: string, fraction: string)
    requires WritesAs(text, a, whole, fraction) && Equal(a, b)
    ensures WritesAs(text, b, whole, fraction)
  {
    SameSign(a, b);
    hide ValueOf, Spell, Equal, Valued;
    EqualIsTransitive(Valued(a.coef < 0, ValueOf(whole + fraction), |fraction|), a, b);
  }

  lemma SameSign(a: Decimal, b: Decimal)
    requires Equal(a, b)
    ensures a.coef < 0 <==> b.coef < 0
  {
    var k := Max(a.scale, b.scale);
    ScaledSign(a, k);
    ScaledSign(b, k);
  }

  lemma ProductSign(x: int, f: nat)
    requires f >= 1
    ensures x * f < 0 <==> x < 0
  {
    if x < 0 {
      assert x * f == -((-x) * f);
      assert (-x) * f >= f;
    } else {
      assert x * f >= 0;
    }
  }

  lemma ScaledSign(d: Decimal, k: nat)
    requires d.scale <= k
    ensures Scaled(d, k) < 0 <==> d.coef < 0
  {
    hide Pow10;
    ProductSign(d.coef, Pow10(k - d.scale));
  }

  lemma EqualIsSymmetric(a: Decimal, b: Decimal)
    requires Equal(a, b)
    ensures Equal(b, a)
  {
  }

  lemma EqualIsTransitive(a: Decimal, b: Decimal, c: Decimal)
    requires Equal(a, b) && Equal(b, c)
    ensures Equal(a, c)
  {
    var k := Max(Max(a.scale, b.scale), c.scale);
    EqualAt(a, b, k);
    EqualAt(b, c, k);
    EqualAt(a, c, k);
  }

  lemma WritesOf(text: string, a: Decimal, b: Decimal, places: nat)
    requires Writes(text, a, places) && Equal(a, b)
    ensures Writes(text, b, places)
  {
    hide WritesAs, Equal;
    var whole: string, fraction: string :| WritesAs(text, a, whole, fraction) && |fraction| == places;
    WritesEqual(text, a, b, whole, fraction);
  }

  /** The fixed text has just the given places. */
  lemma FixedWrites(d: Decimal, places: nat)
    requires d.scale <= places
    ensures Writes(StringFixed(d, places), d, places)
  {
    var r := RoundTo(d, places);
    FixedDecides(d, d, places);
    var whole, fraction := RenderWrites(r);
    WritesEqual(Render(r), r, d, whole, fraction);
  }

  /** The canonical text has no trailing zero after the point. */
  lemma CanonicalWrites(d: Decimal) returns (whole: string, fraction: string)
    ensures WritesAs(Canonical(d), d, whole, fraction)
    ensures fraction != "" ==> fraction[|fraction| - 1] != '0'
  {
    var n := Normalize(d);
    NormalizeKeepsValue(d);
    whole, fraction := RenderWrites(n);
    WritesEqual(Render(n), n, d, whole, fraction) by {
      NormalizeEqual(d);
    }
    if fraction != "" {
      NormalizeStops(d);
      LastDigit(Abs(n.coef), n.scale + 1);
      assert (whole + fraction)[|whole + fraction| - 1] == fraction[|fraction| - 1];
    }
  }

  lemma NormalizeEqual(d: Decimal)
    ensures Equal(Normalize(d), d)
  {
    NormalizeKeepsValue(d);
    EqualAt(Normalize(d), d, d.scale);
  }

  lemma {:induction false} NormalizeStops(d: Decimal)
    ensures Normalize(d).scale > 0 ==> Abs(Normalize(d).coef) % 10 != 0
    decreases d.scale
  {
    if d.scale > 0 && d.coef % 10 == 0 {
      NormalizeStops(Decimal(d.coef / 10, d.scale - 1));
    }
  }

  lemma LastDigit(n: nat, w: nat)
    requires w > 0
    ensures Digits(n, w) != "" && (Digits(n, w)[|Digits(n, w)| - 1] == '0' <==> n % 10 == 0)
  {
  }
}
