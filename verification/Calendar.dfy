/** Instants, and the RFC 3339 text the JSON encoder writes for them. */
module Calendar {
  import opened Text
  import opened Decimals

  /** Nanoseconds since 0000-01-01T00:00:00Z in the proleptic Gregorian calendar. */
  type Instant = int

  const MICROSECOND := 1_000
  const SECOND := 1_000_000_000
  const MINUTE := 60 * SECOND
  const HOUR := 60 * MINUTE
  const DAY := 24 * HOUR

  /** The zero time of the Go library, 0001-01-01T00:00:00Z. */
  const ZERO_TIME: Instant := 366 * DAY

  /** An instant with the zone offset it was written in. */
  datatype ZonedTime = ZonedTime(utc: Instant, offset: int)

  predicate IsLeap(y: nat) {
    y % 4 == 0 && (y % 100 != 0 || y % 400 == 0)
  }

  function YearLength(y: nat): nat {
    if IsLeap(y) then 366 else 365
  }

  /** The length of month m of year y, months counted from 0. */
  function MonthLength(y: nat, m: nat): nat {
    if m == 1 then (if IsLeap(y) then 29 else 28)
    else if m == 3 || m == 5 || m == 8 || m == 10 then 30
    else 31
  }

  /** Which period a day falls in, and the day's number within it, when period
      k has len(k) days and day 0 is the first of period k. */
  function Split(len: nat -> nat, day: nat, k: nat): (r: (nat, nat))
    requires forall j :: len(j) > 0
    ensures r.0 >= k && r.1 < len(r.0)
    decreases day
  {
    if day < len(k) then (k, day) else Split(len, day - len(k), k + 1)
  }

  /** The day number of day d of period p, counted from the start of period k. */
  function Join(len: nat -> nat, k: nat, p: nat, d: nat): nat
    requires k <= p
    decreases p - k
  {
    if k == p then d else len(k) + Join(len, k + 1, p, d)
  }

  lemma {:induction false} SplitJoins(len: nat -> nat, day: nat, k: nat)
    requires forall j :: len(j) > 0
    ensures var (p, d) := Split(len, day, k); Join(len, k, p, d) == day
    decreases day
  {
    if day >= len(k) {
      SplitJoins(len, day - len(k), k + 1);
    }
  }

  function Months(y: nat): nat -> nat {
    m => MonthLength(y, m)
  }

  function YearOf(day: nat): nat {
    Split(YearLength, day, 0).0
  }

  /** The instants the JSON encoder accepts: UTC years 0 to 9999. */
  predicate Encodable(t: Instant) {
    t >= 0 && YearOf(t / DAY) <= 9999
  }

  function TrimZeros(s: string): (r: string)
    ensures r <= s
  {
    if s != "" && s[|s| - 1] == '0' then TrimZeros(s[..|s| - 1]) else s
  }

  /** A fraction of a second: nothing for a whole one, otherwise no trailing zeros. */
  function Fraction(nanos: nat): string {
    if nanos == 0 then "" else "." + TrimZeros(Digits(nanos, 9))
  }

  function Three(a: string, sep: char, b: string, c: string): string {
    a + [sep] + b + [sep] + c
  }

  function DateOf(day: nat): (nat, nat, nat) {
    var (year, yearDay) := Split(YearLength, day, 0);
    var (month, monthDay) := Split(Months(year), yearDay, 0);
    (year, month, monthDay)
  }

  function DateText(day: nat): string {
    var (year, month, monthDay) := DateOf(day);
    DateFields(year, month, monthDay)
  }

  function DateFields(year: nat, month: nat, monthDay: nat): string {
    Three(Digits(year, 4), '-', Digits(month + 1, 2), Digits(monthDay + 1, 2))
  }

  function ClockText(second: nat): string {
    Three(Digits(second / 3600, 2), ':', Digits(second / 60 % 60, 2), Digits(second % 60, 2))
  }

  function Format(t: Instant): string
    requires Encodable(t)
  {
    DateText(t / DAY) + "T" + (ClockText(t % DAY / SECOND) + (Fraction(t % SECOND) + "Z"))
  }

  // ---- the text tells instants apart ----

  lemma DigitsDiffer(a: nat, b: nat, w: nat)
    requires a < Pow10(w) && b < Pow10(w)
    ensures |Digits(a, w)| == |Digits(b, w)| == w
    ensures Digits(a, w) == Digits(b, w) ==> a == b
  {
    DigitsWidth(a, w);
    DigitsWidth(b, w);
    DigitsDenote(a, w);
    DigitsDenote(b, w);
  }

  lemma Powers()
    ensures Pow10(2) == 100 && Pow10(4) == 10_000 && Pow10(9) == 1_000_000_000
  {
    assert Pow10(1) == 10 * Pow10(0);
    assert Pow10(2) == 10 * Pow10(1);
    assert Pow10(3) == 10 * Pow10(2);
    assert Pow10(4) == 10 * Pow10(3);
    assert Pow10(5) == 10 * Pow10(4);
    assert Pow10(6) == 10 * Pow10(5);
    assert Pow10(7) == 10 * Pow10(6);
    assert Pow10(8) == 10 * Pow10(7);
  }

  /** A day that starts before the end of n periods falls in one of them. */
  lemma {:induction false} SplitStaysBelow(len: nat -> nat, day: nat, k: nat, n: nat)
    requires forall j :: len(j) > 0
    requires k <= n && day < Join(len, k, n, 0)
    ensures Split(len, day, k).0 < n
    decreases day
  {
    if day >= len(k) {
      SplitStaysBelow(len, day - len(k), k + 1, n);
    }
  }

  lemma YearDayFits(year: nat, yearDay: nat)
    requires yearDay < YearLength(year)
    ensures Split(Months(year), yearDay, 0).0 < 12
  {
    var m := Months(year);
    assert Join(m, 11, 12, 0) == 31;
    assert Join(m, 10, 12, 0) == 61;
    assert Join(m, 9, 12, 0) == 92;
    assert Join(m, 8, 12, 0) == 122;
    assert Join(m, 7, 12, 0) == 153;
    assert Join(m, 6, 12, 0) == 184;
    assert Join(m, 5, 12, 0) == 214;
    assert Join(m, 4, 12, 0) == 245;
    assert Join(m, 3, 12, 0) == 275;
    assert Join(m, 2, 12, 0) == 306;
    assert Join(m, 1, 12, 0) == 306 + MonthLength(year, 1);
    assert Join(m, 0, 12, 0) == YearLength(year);
    SplitStaysBelow(m, yearDay, 0, 12);
  }

  lemma ThreeDiffer(a: string, b: string, c: string, x: string, y: string, z: string, sep: char)
    requires |a| == |x| && |b| == |y|
    requires Three(a, sep, b, c) == Three(x, sep, y, z)
    ensures a == x && b == y && c == z
  {
    Pieces(a + [sep] + b + [sep], c, x + [sep] + y + [sep], z);
    Pieces(a + [sep] + b, [sep], x + [sep] + y, [sep]);
    Pieces(a + [sep], b, x + [sep], y);
    Pieces(a, [sep], x, [sep]);
  }

  lemma ThreeLength(a: string, sep: char, b: string, c: string)
    ensures |Three(a, sep, b, c)| == |a| + |b| + |c| + 2
  {
  }

  lemma SecondRecompose(s: nat)
    ensures s == 3600 * (s / 3600) + 60 * (s / 60 % 60) + s % 60
  {
    assert s / 3600 == s / 60 / 60;
  }

  lemma DateInRange(day: nat)
    requires YearOf(day) <= 9999
    ensures DateOf(day).0 < 10000 && DateOf(day).1 < 12 && DateOf(day).2 < 31
  {
    var (year, yearDay) := Split(YearLength, day, 0);
    YearDayFits(year, yearDay);
  }

  lemma DateDecides(a: nat, b: nat)
    requires DateOf(a) == DateOf(b)
    ensures a == b
  {
    var (year, x) := Split(YearLength, a, 0);
    var (_, y) := Split(YearLength, b, 0);
    SplitJoins(Months(year), x, 0);
    SplitJoins(Months(year), y, 0);
    SplitJoins(YearLength, a, 0);
    SplitJoins(YearLength, b, 0);
  }

  lemma DateFieldsDiffer(y: nat, m: nat, d: nat, y': nat, m': nat, d': nat)
    requires y < 10000 && m < 12 && d < 31 && y' < 10000 && m' < 12 && d' < 31
    ensures |DateFields(y, m, d)| == |DateFields(y', m', d')| == 10
    ensures DateFields(y, m, d) == DateFields(y', m', d') ==> (y, m, d) == (y', m', d')
  {
    hide Digits, Pow10, Three;
    Powers();
    DigitsDiffer(y, y', 4);
    DigitsDiffer(m + 1, m' + 1, 2);
    DigitsDiffer(d + 1, d' + 1, 2);
    ThreeLength(Digits(y, 4), '-', Digits(m + 1, 2), Digits(d + 1, 2));
    ThreeLength(Digits(y', 4), '-', Digits(m' + 1, 2), Digits(d' + 1, 2));
    if DateFields(y, m, d) == DateFields(y', m', d') {
      ThreeDiffer(Digits(y, 4), Digits(m + 1, 2), Digits(d + 1, 2),
                  Digits(y', 4), Digits(m' + 1, 2), Digits(d' + 1, 2), '-');
    }
  }

  lemma DateTextDiffers(a: nat, b: nat)
    requires YearOf(a) <= 9999 && YearOf(b) <= 9999
    ensures |DateText(a)| == |DateText(b)| == 10
    ensures DateText(a) == DateText(b) ==> a == b
  {
    DateInRange(a);
    DateInRange(b);
    var (y, m, d) := DateOf(a);
    var (y', m', d') := DateOf(b);
    DateFieldsDiffer(y, m, d, y', m', d');
    if DateText(a) == DateText(b) {
      DateDecides(a, b);
    }
  }

  lemma ClockTextDiffers(a: nat, b: nat)
    requires a < 86400 && b < 86400
    ensures |ClockText(a)| == |ClockText(b)| == 8
    ensures ClockText(a) == ClockText(b) ==> a == b
  {
    hide Digits, Pow10, Three;
    Powers();
    DigitsDiffer(a / 3600, b / 3600, 2);
    DigitsDiffer(a / 60 % 60, b / 60 % 60, 2);
    DigitsDiffer(a % 60, b % 60, 2);
    ThreeLength(Digits(a / 3600, 2), ':', Digits(a / 60 % 60, 2), Digits(a % 60, 2));
    ThreeLength(Digits(b / 3600, 2), ':', Digits(b / 60 % 60, 2), Digits(b % 60, 2));
    if ClockText(a) == ClockText(b) {
      ThreeDiffer(Digits(a / 3600, 2), Digits(a / 60 % 60, 2), Digits(a % 60, 2),
                  Digits(b / 3600, 2), Digits(b / 60 % 60, 2), Digits(b % 60, 2), ':');
      SecondRecompose(a);
      SecondRecompose(b);
    }
  }

  function Zeros(n: nat): string {
    seq(n, i => '0')
  }

  lemma {:induction false} TrimZerosPads(s: string)
    ensures s == TrimZeros(s) + Zeros(|s| - |TrimZeros(s)|)
  {
    if s != "" && s[|s| - 1] == '0' {
      TrimZerosPads(s[..|s| - 1]);
    }
  }

  lemma TrimZerosDecides(x: string, y: string)
    requires |x| == |y| && TrimZeros(x) == TrimZeros(y)
    ensures x == y
  {
    TrimZerosPads(x);
    TrimZerosPads(y);
    hide TrimZeros, Zeros;
  }

  lemma FractionDiffers(a: nat, b: nat)
    requires a < SECOND && b < SECOND && Fraction(a) == Fraction(b)
    ensures a == b
  {
    Powers();
    DigitsDiffer(a, b, 9);
    hide Digits, Pow10, TrimZeros;
    if a != 0 && b != 0 {
      assert Fraction(a)[1..] == TrimZeros(Digits(a, 9)) && Fraction(b)[1..] == TrimZeros(Digits(b, 9));
      TrimZerosDecides(Digits(a, 9), Digits(b, 9));
    }
  }

  lemma EncodableDiffers(a: Instant, b: Instant)
    requires Encodable(a) && Encodable(b)
    ensures Format(a) == Format(b) <==> a == b
  {
    if Format(a) == Format(b) {
      DateTextDiffers(a / DAY, b / DAY);
      ClockTextDiffers(a % DAY / SECOND, b % DAY / SECOND);
      FormatPieces(a, b);
      FractionDiffers(a % SECOND, b % SECOND);
      InstantRecompose(a);
      InstantRecompose(b);
    }
  }

  lemma InstantRecompose(t: nat)
    ensures t == DAY * (t / DAY) + SECOND * (t % DAY / SECOND) + t % SECOND
  {
    var d, r := t / DAY, t % DAY;
    assert t == DAY * d + r && DAY == 86400 * SECOND;
    assert t % SECOND == r % SECOND by {
      assert t == SECOND * (86400 * d) + r;
      ModShift(86400 * d, r);
    }
  }

  lemma ModShift(k: nat, r: nat)
    ensures (SECOND * k + r) % SECOND == r % SECOND
  {
  }

  lemma FormatPieces(a: Instant, b: Instant)
    requires Encodable(a) && Encodable(b) && Format(a) == Format(b)
    requires |DateText(a / DAY)| == |DateText(b / DAY)|
    requires |ClockText(a % DAY / SECOND)| == |ClockText(b % DAY / SECOND)|
    ensures DateText(a / DAY) == DateText(b / DAY)
    ensures ClockText(a % DAY / SECOND) == ClockText(b % DAY / SECOND)
    ensures Fraction(a % SECOND) == Fraction(b % SECOND)
  {
    var x, y := ClockText(a % DAY / SECOND), ClockText(b % DAY / SECOND);
    var f, g := Fraction(a % SECOND), Fraction(b % SECOND);
    Pieces(DateText(a / DAY) + "T", x + (f + "Z"), DateText(b / DAY) + "T", y + (g + "Z"));
    Pieces(DateText(a / DAY), "T", DateText(b / DAY), "T");
    Pieces(x, f + "Z", y, g + "Z");
    assert |f| == |g|;
    Pieces(f, "Z", g, "Z");
  }

  // ---- the calendar in closed form ----

  /** Days before a year, by the Gregorian rule: every fourth year has one more, every
      hundredth not, every four hundredth again. */
  function DaysBefore(y: nat): int {
    365 * y + (y + 3) / 4 - (y + 99) / 100 + (y + 399) / 400
  }

  /** Days of a year before a month, months counted from 0. */
  function DaysBeforeMonth(y: nat, m: nat): int {
    var common := [0, 31, 59, 90, 120, 151, 181, 212, 243, 273, 304, 334, 365];
    (if m < 13 then common[m] else 365) + DaysBefore(y + 1) - DaysBefore(y) - 365
      - (if m < 2 then DaysBefore(y + 1) - DaysBefore(y) - 365 else 0)
  }

  lemma Quarters(y: nat)
    ensures (y + 4) / 4 == (y + 3) / 4 + if y % 4 == 0 then 1 else 0
  {
  }

  lemma Centuries(y: nat)
    ensures (y + 100) / 100 == (y + 99) / 100 + if y % 100 == 0 then 1 else 0
  {
  }

  lemma Cycles(y: nat)
    ensures (y + 400) / 400 == (y + 399) / 400 + if y % 400 == 0 then 1 else 0
  {
  }

  lemma Multiples(q: nat)
    ensures (100 * q) % 100 == 0 && (4 * q) % 4 == 0
  {
  }

  lemma Divisibility(y: nat)
    ensures y % 400 == 0 ==> y % 100 == 0
    ensures y % 100 == 0 ==> y % 4 == 0
  {
    Multiples(4 * (y / 400));
    Multiples(25 * (y / 100));
    assert y == 400 * (y / 400) + y % 400 && y == 100 * (y / 100) + y % 100;
    assert y % 400 == 0 ==> y == 100 * (4 * (y / 400));
    assert y % 100 == 0 ==> y == 4 * (25 * (y / 100));
  }

  lemma YearAdds(y: nat)
    ensures DaysBefore(y + 1) == DaysBefore(y) + YearLength(y)
  {
    Quarters(y);
    Centuries(y);
    Cycles(y);
    Divisibility(y);
    assert (y + 1 + 3) / 4 == (y + 4) / 4 && (y + 1 + 99) / 100 == (y + 100) / 100;
    assert (y + 1 + 399) / 400 == (y + 400) / 400;
  }

  lemma {:induction false} YearsAdd(m: nat, n: nat)
    requires m <= n
    ensures DaysBefore(m) <= DaysBefore(n)
  {
    if m < n {
      YearsAdd(m, n - 1);
      YearAdds(n - 1);
    }
  }

  lemma {:induction false} YearsSplit(day: nat, k: nat)
    ensures var (y, d) := Split(YearLength, day, k); DaysBefore(k) + day == DaysBefore(y) + d
    decreases day
  {
    YearAdds(k);
    if day >= YearLength(k) {
      YearsSplit(day - YearLength(k), k + 1);
    }
  }

  lemma MonthAdds(y: nat, m: nat)
    requires m < 12
    ensures DaysBeforeMonth(y, m + 1) == DaysBeforeMonth(y, m) + MonthLength(y, m) && DaysBeforeMonth(y, 0) == 0
  {
    YearAdds(y);
    hide DaysBefore;
  }

  lemma {:induction false} MonthsSplit(y: nat, day: nat, k: nat)
    requires k <= 12 && Split(Months(y), day, k).0 < 12
    ensures var (m, d) := Split(Months(y), day, k); DaysBeforeMonth(y, k) + day == DaysBeforeMonth(y, m) + d
    decreases day
  {
    hide DaysBeforeMonth;
    if day >= MonthLength(y, k) {
      if k < 12 {
        MonthAdds(y, k);
      }
      MonthsSplit(y, day - MonthLength(y, k), k + 1);
    }
  }

  /** The date of a day is its Gregorian date. */
  lemma DateIsGregorian(day: nat)
    ensures var (y, m, d) := DateOf(day);
      && m < 12 && day == DaysBefore(y) + DaysBeforeMonth(y, m) + d
      && d < DaysBeforeMonth(y, m + 1) - DaysBeforeMonth(y, m)
  {
    var (y, yearDay) := Split(YearLength, day, 0);
    var (m, d) := Split(Months(y), yearDay, 0);
    YearDayFits(y, yearDay);
    YearsSplit(day, 0);
    MonthsSplit(y, yearDay, 0);
    MonthAdds(y, m);
    assert DaysBefore(0) == 0;
    hide DaysBefore, DaysBeforeMonth, Split;
  }

  /** The first 10,000 years, to the nanosecond. */
  predicate InYearRange(t: Instant) {
    0 <= t < 3_652_425 * 86_400_000_000_000
  }

  /** The encoder takes an instant exactly when it is in the years 0 to 9999. */
  lemma EncodableIffInRange(t: Instant)
    ensures Encodable(t) <==> InYearRange(t)
  {
    if t >= 0 {
      var y, d := Split(YearLength, t / DAY, 0).0, Split(YearLength, t / DAY, 0).1;
      YearsSplit(t / DAY, 0);
      YearAdds(y);
      assert DaysBefore(10_000) == 3_652_425;
      if y <= 9999 {
        YearsAdd(y + 1, 10_000);
      } else {
        YearsAdd(10_000, y);
      }
      hide Split, YearLength, DaysBefore;
      assert t / DAY < 3_652_425 <==> t < 3_652_425 * DAY;
    }
  }

  // ---- what the text says ----

  /** The text is these digits for this number. */
  predicate Reads(text: string, n: nat, width: nat) {
    |text| == width && AllDigits(text) && ValueOf(text) == n
  }

  lemma DigitsRead(n: nat, w: nat)
    requires n < Pow10(w)
    ensures Reads(Digits(n, w), n, w) && |Digits(n, w)| == w
  {
    DigitsWidth(n, w);
    DigitsDenote(n, w);
  }

  /** Three numbers with a separator between them. */
  predicate ReadsThree(text: string, width: nat, sep: char, a: nat, b: nat, c: nat) {
    && |text| == width + 6 && text[width] == sep && text[width + 3] == sep
    && Reads(text[..width], a, width) && Reads(text[width + 1..width + 3], b, 2) && Reads(text[width + 4..], c, 2)
  }

  lemma ThreePieces(x: string, sep: char, y: string, z: string)
    requires |y| == |z| == 2
    ensures var (text, n) := (Three(x, sep, y, z), |x|);
      && |text| == n + 6 && text[n] == sep && text[n + 3] == sep
      && text[..n] == x && text[n + 1..n + 3] == y && text[n + 4..] == z
  {
    var head := x + [sep] + y;
    assert Three(x, sep, y, z) == head + ([sep] + z);
    assert head[..|x|] == x && head[|x|] == sep && head[|x| + 1..] == y;
  }

  lemma ThreeReads(a: nat, b: nat, c: nat, width: nat, sep: char)
    requires a < Pow10(width) && b < Pow10(2) && c < Pow10(2)
    ensures ReadsThree(Three(Digits(a, width), sep, Digits(b, 2), Digits(c, 2)), width, sep, a, b, c)
  {
    hide Digits, Reads, Pow10, Three;
    DigitsRead(a, width);
    DigitsRead(b, 2);
    DigitsRead(c, 2);
    ThreePieces(Digits(a, width), sep, Digits(b, 2), Digits(c, 2));
  }

  /** A fraction: nothing for none, and otherwise a point and digits, the last of them
      not zero, that make up so many billionths. */
  predicate ReadsFraction(text: string, nanos: nat) {
    if nanos == 0 then text == ""
    else
      && 1 < |text| <= 10 && text[0] == '.' && text[|text| - 1] != '0' && AllDigits(text[1..])
      && ValueOf(text[1..]) * Pow10(10 - |text|) == nanos
  }

  lemma ZeroAppends(s: string)
    requires AllDigits(s)
    ensures AllDigits(s + "0") && ValueOf(s + "0") == 10 * ValueOf(s)
  {
    assert (s + "0")[..|s|] == s;
  }

  lemma {:induction false} ZerosScale(s: string, n: nat)
    requires AllDigits(s)
    ensures AllDigits(s + Zeros(n)) && ValueOf(s + Zeros(n)) == ValueOf(s) * Pow10(n)
  {
    hide ValueOf;
    if n == 0 {
      assert s + Zeros(0) == s;
    } else {
      ZerosScale(s, n - 1);
      ZeroAppends(s + Zeros(n - 1));
      assert s + Zeros(n) == s + Zeros(n - 1) + "0";
      MulAssociates(ValueOf(s), 10, Pow10(n - 1));
    }
  }

  lemma {:induction false} TrimZerosStops(s: string)
    ensures TrimZeros(s) == "" || TrimZeros(s)[|TrimZeros(s)| - 1] != '0'
  {
    if s != "" && s[|s| - 1] == '0' {
      TrimZerosStops(s[..|s| - 1]);
    }
  }

  lemma FractionReads(nanos: nat)
    requires nanos < SECOND
    ensures ReadsFraction(Fraction(nanos), nanos)
  {
    hide Digits, TrimZeros, Pow10, ValueOf;
    if nanos > 0 {
      Powers();
      DigitsRead(nanos, 9);
      var s := Digits(nanos, 9);
      var kept := TrimZeros(s);
      TrimZerosPads(s);
      TrimZerosStops(s);
      assert AllDigits(kept);
      ZerosScale(kept, 9 - |kept|);
      if kept == "" {
        NothingReadsZero();
      }
      assert Fraction(nanos)[1..] == kept;
    }
  }

  lemma NothingReadsZero()
    ensures AllDigits("") && ValueOf("") == 0
  {
  }

  /** The text is the date, the time of day and the fraction, as RFC 3339 writes them
      in section 5.6, in UTC. */
  predicate Says(text: string, t: Instant)
    requires t >= 0
  {
    var (y, m, d) := DateOf(t / 86_400_000_000_000);
    var second := t / 1_000_000_000 % 86_400;
    && |text| >= 20 && ReadsThree(text[..10], 4, '-', y, m + 1, d + 1) && text[10] == 'T'
    && ReadsThree(text[11..19], 2, ':', second / 3600, second / 60 % 60, second % 60)
    && ReadsFraction(text[19..|text| - 1], t % 1_000_000_000) && text[|text| - 1] == 'Z'
  }

  lemma DateReads(day: nat)
    requires YearOf(day) <= 9999
    ensures var (y, m, d) := DateOf(day); ReadsThree(DateText(day), 4, '-', y, m + 1, d + 1)
  {
    var (y, m, d) := DateOf(day);
    DateInRange(day);
    Powers();
    ThreeReads(y, m + 1, d + 1, 4, '-');
  }

  lemma ClockReads(second: nat)
    requires second < 86_400
    ensures ReadsThree(ClockText(second), 2, ':', second / 3600, second / 60 % 60, second % 60)
  {
    Powers();
    ThreeReads(second / 3600, second / 60 % 60, second % 60, 2, ':');
  }

  lemma SecondsOfDay(t: nat)
    ensures t % 86_400_000_000_000 / 1_000_000_000 == t / 1_000_000_000 % 86_400
  {
    var s := t / 1_000_000_000;
    var day, r := s / 86_400, s % 86_400;
    var n := t % 1_000_000_000;
    assert t == 86_400_000_000_000 * day + (1_000_000_000 * r + n);
    assert 1_000_000_000 * r + n < 86_400_000_000_000;
    assert t % 86_400_000_000_000 == 1_000_000_000 * r + n;
  }

  lemma TextPieces(a: string, b: string, c: string)
    requires |a| == 10 && |b| == 8
    ensures var text := a + "T" + (b + (c + "Z"));
      && |text| >= 20 && text[..10] == a && text[10] == 'T' && text[11..19] == b
      && text[19..|text| - 1] == c && text[|text| - 1] == 'Z'
  {
    var head, tail := a + "T", b + (c + "Z");
    assert head[..10] == a && head[10] == 'T' && |head| == 11;
    assert tail[..8] == b && tail[8..|tail| - 1] == c && tail[|tail| - 1] == 'Z';
    var text := head + tail;
    assert text[..10] == head[..10];
    assert text[11..19] == tail[..8];
    assert text[19..|text| - 1] == tail[8..|tail| - 1];
  }

  /** The text of an instant says the instant. */
  lemma FormatSays(t: Instant)
    requires InYearRange(t)
    ensures Encodable(t) && Says(Format(t), t)
  {
    EncodableIffInRange(t);
    DateReads(t / DAY);
    SecondsOfDay(t);
    ClockReads(t % DAY / SECOND);
    FractionReads(t % SECOND);
    assert |DateText(t / DAY)| == 10 && |ClockText(t % DAY / SECOND)| == 8;
    hide ReadsFraction, ReadsThree, DateOf, DateText, ClockText, Fraction, InYearRange;
    TextPieces(DateText(t / DAY), ClockText(t % DAY / SECOND), Fraction(t % SECOND));
  }

  /** Different instants of the years 0 to 9999 are written differently. */
  lemma FormatDiffers(a: Instant, b: Instant)
    requires InYearRange(a) && InYearRange(b)
    ensures Encodable(a) && Encodable(b) && (Format(a) == Format(b) <==> a == b)
  {
    EncodableIffInRange(a);
    EncodableIffInRange(b);
    EncodableDiffers(a, b);
    hide Format, Encodable;
  }
}
