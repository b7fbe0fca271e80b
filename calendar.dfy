/** Calendar days as integer ordinals, and the part of the date parser that the
    order filter relies on: the `YYYY-MM-DD` text a delivery date is cut down to,
    and the strings the parser reads as a missing date (NaT). */
module Calendar {
  import opened Wrappers

  // ---------------- Proleptic Gregorian calendar ----------------

  predicate IsLeapYear(y: int) {
    y % 4 == 0 && (y % 100 != 0 || y % 400 == 0)
  }

  function YearLength(y: int): int {
    if IsLeapYear(y) then 366 else 365
  }

  function MonthLength(y: int, m: int): int
    requires 1 <= m <= 12
  {
    if m == 2 then (if IsLeapYear(y) then 29 else 28)
    else if m == 4 || m == 6 || m == 9 || m == 11 then 30
    else 31
  }

  /** Days of a common year that lie before month `m` (`m == 13` gives the whole year). */
  const CommonDaysBefore: seq<int> := [0, 31, 59, 90, 120, 151, 181, 212, 243, 273, 304, 334, 365]

  function DaysBeforeMonth(y: int, m: int): int
    requires 1 <= m <= 13
  {
    CommonDaysBefore[m - 1] + (if m > 2 && IsLeapYear(y) then 1 else 0)
  }

  /** Days from 0000-01-01 to the first day of year `y`: 365 per year plus one per leap
      year in `[0, y)` (the multiples of 4, less those of 100, plus those of 400). */
  function DaysBeforeYear(y: nat): int {
    365 * y + (y + 3) / 4 - (y + 99) / 100 + (y + 399) / 400
  }

  /** A day that a four-digit `YYYY-MM-DD` text can name. */
  predicate ValidDate(y: int, m: int, d: int) {
    0 <= y <= 9999 && 1 <= m <= 12 && 1 <= d <= MonthLength(y, m)
  }

  /** The day ordinal of a calendar date: 0000-01-01 is day 0. Subtracting `n` from an
      ordinal moves `n` calendar days back, which is what `Timedelta(days=n)` does to a
      midnight-normalised timestamp. */
  function Ordinal(y: int, m: int, d: int): int
    requires ValidDate(y, m, d)
  {
    DaysBeforeYear(y) + DaysBeforeMonth(y, m) + d - 1
  }

  lemma MonthStep(y: int, m: int)
    requires 1 <= m <= 12
    ensures DaysBeforeMonth(y, m + 1) == DaysBeforeMonth(y, m) + MonthLength(y, m)
  {
  }

  lemma MonthsIncrease(y: int, m1: int, m2: int)
    requires 1 <= m1 < m2 <= 13
    ensures DaysBeforeMonth(y, m1 + 1) <= DaysBeforeMonth(y, m2)
  {
  }

  /** One more year adds one multiple of `k` to the count exactly when `y` is one. */
  lemma CountStep4(y: nat)
    ensures (y + 4) / 4 == (y + 3) / 4 + (if y % 4 == 0 then 1 else 0)
  {
  }

  lemma CountStep100(y: nat)
    ensures (y + 100) / 100 == (y + 99) / 100 + (if y % 100 == 0 then 1 else 0)
  {
  }

  lemma CountStep400(y: nat)
    ensures (y + 400) / 400 == (y + 399) / 400 + (if y % 400 == 0 then 1 else 0)
  {
  }

  /** A multiple of 400 is one of 100, and a multiple of 100 is one of 4. */
  lemma MultiplesNest(y: nat)
    ensures y % 400 == 0 ==> y % 100 == 0
    ensures y % 100 == 0 ==> y % 4 == 0
  {
    if y % 400 == 0 {
      assert y == 100 * (4 * (y / 400));
    }
    if y % 100 == 0 {
      assert y == 4 * (25 * (y / 100));
    }
  }

  /** Consecutive years are exactly one year length apart. */
  lemma YearStep(y: nat)
    ensures DaysBeforeYear(y + 1) == DaysBeforeYear(y) + YearLength(y)
  {
    CountStep4(y);
    CountStep100(y);
    CountStep400(y);
    MultiplesNest(y);
    var leap := (if y % 4 == 0 then 1 else 0) - (if y % 100 == 0 then 1 else 0) + (if y % 400 == 0 then 1 else 0);
    assert DaysBeforeYear(y + 1) == DaysBeforeYear(y) + 365 + leap;
    assert leap == (if IsLeapYear(y) then 1 else 0);
  }

  lemma {:induction false} YearsIncrease(y1: nat, y2: nat)
    requires y1 < y2
    ensures DaysBeforeYear(y1 + 1) <= DaysBeforeYear(y2)
    decreases y2 - y1
  {
    if y1 + 1 < y2 {
      YearsIncrease(y1 + 1, y2);
      YearStep(y1 + 1);
    }
  }

  /** Every day of year `y` lies in `[DaysBeforeYear(y), DaysBeforeYear(y + 1))`. */
  lemma OrdinalWithinYear(y: int, m: int, d: int)
    requires ValidDate(y, m, d)
    ensures DaysBeforeYear(y) <= Ordinal(y, m, d) < DaysBeforeYear(y + 1)
  {
    YearStep(y);
    MonthStep(y, m);
    if m < 12 {
      MonthsIncrease(y, m + 1, 13);
    }
  }

  /** Later dates have larger ordinals ... */
  lemma OrdinalIncreasing(y1: int, m1: int, d1: int, y2: int, m2: int, d2: int)
    requires ValidDate(y1, m1, d1) && ValidDate(y2, m2, d2)
    requires y1 < y2 || (y1 == y2 && m1 < m2) || (y1 == y2 && m1 == m2 && d1 < d2)
    ensures Ordinal(y1, m1, d1) < Ordinal(y2, m2, d2)
  {
    if y1 < y2 {
      OrdinalWithinYear(y1, m1, d1);
      OrdinalWithinYear(y2, m2, d2);
      YearsIncrease(y1, y2);
    } else if m1 < m2 {
      MonthStep(y1, m1);
      MonthsIncrease(y1, m1, m2);
    }
  }

  /** ... so two dates name the same day only if they are the same date. */
  lemma OrdinalInjective(y1: int, m1: int, d1: int, y2: int, m2: int, d2: int)
    requires ValidDate(y1, m1, d1) && ValidDate(y2, m2, d2)
    requires Ordinal(y1, m1, d1) == Ordinal(y2, m2, d2)
    ensures y1 == y2 && m1 == m2 && d1 == d2
  {
    if y1 < y2 || (y1 == y2 && m1 < m2) || (y1 == y2 && m1 == m2 && d1 < d2) {
      OrdinalIncreasing(y1, m1, d1, y2, m2, d2);
    } else if y2 < y1 || (y1 == y2 && m2 < m1) || (y1 == y2 && m1 == m2 && d2 < d1) {
      OrdinalIncreasing(y2, m2, d2, y1, m1, d1);
    }
  }

  // ---------------- Consecutive days ----------------

  lemma OrdinalNextDay(y: int, m: int, d: int)
    requires ValidDate(y, m, d) && d < MonthLength(y, m)
    ensures ValidDate(y, m, d + 1) && Ordinal(y, m, d + 1) == Ordinal(y, m, d) + 1
  {
  }

  lemma OrdinalNextMonth(y: int, m: int)
    requires 0 <= y <= 9999 && 1 <= m < 12
    ensures ValidDate(y, m, MonthLength(y, m)) && ValidDate(y, m + 1, 1)
    ensures Ordinal(y, m + 1, 1) == Ordinal(y, m, MonthLength(y, m)) + 1
  {
    MonthStep(y, m);
  }

  lemma OrdinalNextYear(y: int)
    requires 0 <= y < 9999
    ensures ValidDate(y, 12, 31) && ValidDate(y + 1, 1, 1)
    ensures Ordinal(y + 1, 1, 1) == Ordinal(y, 12, 31) + 1
  {
    YearStep(y);
  }

  /** The calendar day after a date (9999-12-31 has none here). */
  function NextDate(y: int, m: int, d: int): (next: (int, int, int))
    requires ValidDate(y, m, d) && !(y == 9999 && m == 12 && d == 31)
    ensures ValidDate(next.0, next.1, next.2)
  {
    if d < MonthLength(y, m) then (y, m, d + 1)
    else if m < 12 then (y, m + 1, 1)
    else (y + 1, 1, 1)
  }

  /** The day after a date has the next ordinal: the ordinals of consecutive days are
      consecutive, so one day back is one less, and `n` days back is `n` less. */
  lemma OrdinalOfNextDate(y: int, m: int, d: int)
    requires ValidDate(y, m, d) && !(y == 9999 && m == 12 && d == 31)
    ensures var next := NextDate(y, m, d);
      Ordinal(next.0, next.1, next.2) == Ordinal(y, m, d) + 1
  {
    if d < MonthLength(y, m) {
      OrdinalNextDay(y, m, d);
    } else if m < 12 {
      OrdinalNextMonth(y, m);
    } else {
      OrdinalNextYear(y);
    }
  }

  // ---------------- Target dates ----------------

  /** Nanoseconds in a day, and the longest `Timedelta`: a signed 64-bit count of
      nanoseconds, at most 2^63 - 1. */
  const NanosPerDay: int := 86_400_000_000_000
  const MaxTimedeltaNanos: int := 0x7FFF_FFFF_FFFF_FFFF

  /** The largest whole number of days a `Timedelta` holds. */
  const MaxOffsetDays: nat := 106751

  /** `Timedelta(days=n)` can be built exactly when `n` days fit in a `Timedelta`. */
  predicate DeltaInRange(daysAgo: nat) {
    daysAgo * NanosPerDay <= MaxTimedeltaNanos
  }

  lemma DeltaInRangeBound(daysAgo: nat)
    ensures DeltaInRange(daysAgo) <==> daysAgo <= MaxOffsetDays
  {
    if daysAgo > MaxOffsetDays {
      assert daysAgo * NanosPerDay >= (MaxOffsetDays + 1) * NanosPerDay;
    }
  }

  /** `today.normalize() - Timedelta(days=daysAgo)` on day ordinals. `None` when the
      offset is too long for a `Timedelta`, where building it raises. */
  function TargetDate(today: int, daysAgo: nat): (d: Option<int>)
    ensures d.Some? <==> daysAgo <= MaxOffsetDays
    ensures d.Some? ==> d.value <= today && (d.value == today <==> daysAgo == 0)
  {
    DeltaInRangeBound(daysAgo);
    if DeltaInRange(daysAgo) then Some(today - daysAgo) else None
  }

  /** A larger offset that still has a target never gives a later day, and the smaller
      offset has a target too. */
  lemma TargetDateAntitone(today: int, a: nat, b: nat)
    requires a <= b && TargetDate(today, b).Some?
    ensures TargetDate(today, a).Some? && TargetDate(today, b).value <= TargetDate(today, a).value
  {
  }

  // ---------------- ISO date text ----------------

  predicate IsDigit(c: char) {
    '0' <= c <= '9'
  }

  function DigitValue(c: char): int {
    c as int - '0' as int
  }

  function DigitChar(n: int): char
    requires 0 <= n <= 9
  {
    ('0' as int + n) as char
  }

  /** The `YYYY-MM-DD` text of a date, as a timestamp is rendered when turned into text. */
  function IsoText(y: int, m: int, d: int): (s: string)
    requires ValidDate(y, m, d)
  {
    [DigitChar(y / 1000), DigitChar(y / 100 % 10), DigitChar(y / 10 % 10), DigitChar(y % 10), '-',
     DigitChar(m / 10), DigitChar(m % 10), '-',
     DigitChar(d / 10), DigitChar(d % 10)]
  }

  /** The shape `DDDD-DD-DD`. */
  predicate IsoShaped(s: string) {
    |s| == 10 && s[4] == '-' && s[7] == '-'
    && IsDigit(s[0]) && IsDigit(s[1]) && IsDigit(s[2]) && IsDigit(s[3])
    && IsDigit(s[5]) && IsDigit(s[6]) && IsDigit(s[8]) && IsDigit(s[9])
  }

  function YearField(s: string): int
    requires IsoShaped(s)
  {
    1000 * DigitValue(s[0]) + 100 * DigitValue(s[1]) + 10 * DigitValue(s[2]) + DigitValue(s[3])
  }

  function MonthField(s: string): int
    requires IsoShaped(s)
  {
    10 * DigitValue(s[5]) + DigitValue(s[6])
  }

  function DayField(s: string): int
    requires IsoShaped(s)
  {
    10 * DigitValue(s[8]) + DigitValue(s[9])
  }

  /** Reads a `YYYY-MM-DD` text naming an existing day; anything else is rejected. */
  function ParseIsoDate(s: string): Option<int> {
    if IsoShaped(s) && ValidDate(YearField(s), MonthField(s), DayField(s)) then
      Some(Ordinal(YearField(s), MonthField(s), DayField(s)))
    else
      None
  }

  lemma DigitRoundTrip(n: int)
    requires 0 <= n <= 9
    ensures IsDigit(DigitChar(n)) && DigitValue(DigitChar(n)) == n
  {
  }

  /** The four decimal digits of a year below 10000 make up the year. */
  lemma YearDigits(y: int)
    requires 0 <= y <= 9999
    ensures 0 <= y / 1000 <= 9 && 0 <= y / 100 % 10 <= 9 && 0 <= y / 10 % 10 <= 9
    ensures 1000 * (y / 1000) + 100 * (y / 100 % 10) + 10 * (y / 10 % 10) + y % 10 == y
  {
    assert y / 100 == 10 * (y / 1000) + y / 100 % 10;
    assert y / 10 == 10 * (y / 100) + y / 10 % 10;
  }

  /** The two decimal digits of a number below 100 make up the number. */
  lemma PairDigits(n: int)
    requires 0 <= n <= 99
    ensures 0 <= n / 10 <= 9 && 10 * (n / 10) + n % 10 == n
  {
  }

  /** The text of any date parses back to that date's day. */
  lemma IsoRoundTrip(y: int, m: int, d: int)
    requires ValidDate(y, m, d)
    ensures IsoShaped(IsoText(y, m, d))
    ensures ParseIsoDate(IsoText(y, m, d)) == Some(Ordinal(y, m, d))
  {
    var s := IsoText(y, m, d);
    YearDigits(y);
    PairDigits(m);
    PairDigits(d);
    DigitRoundTrip(y / 1000);
    DigitRoundTrip(y / 100 % 10);
    DigitRoundTrip(y / 10 % 10);
    DigitRoundTrip(y % 10);
    DigitRoundTrip(m / 10);
    DigitRoundTrip(m % 10);
    DigitRoundTrip(d / 10);
    DigitRoundTrip(d % 10);
    assert YearField(s) == y;
    assert MonthField(s) == m;
    assert DayField(s) == d;
  }

  lemma DigitCharOfValue(c: char)
    requires IsDigit(c)
    ensures DigitChar(DigitValue(c)) == c
  {
  }

  /** Splitting a four-digit number into digits recovers the digits it was built from. */
  lemma FourDigits(a: int, b: int, c: int, e: int)
    requires 0 <= a <= 9 && 0 <= b <= 9 && 0 <= c <= 9 && 0 <= e <= 9
    ensures var y := 1000 * a + 100 * b + 10 * c + e;
      y / 1000 == a && y / 100 % 10 == b && y / 10 % 10 == c && y % 10 == e
  {
    var y := 1000 * a + 100 * b + 10 * c + e;
    assert y / 1000 == a;
    assert y / 100 == 10 * a + b;
    assert y / 10 == 100 * a + 10 * b + c;
  }

  lemma TwoDigits(a: int, b: int)
    requires 0 <= a <= 9 && 0 <= b <= 9
    ensures (10 * a + b) / 10 == a && (10 * a + b) % 10 == b
  {
  }

  /** The parser accepts only the canonical text of the date it returns. */
  lemma ParsedIsCanonical(s: string)
    requires ParseIsoDate(s).Some?
    ensures ValidDate(YearField(s), MonthField(s), DayField(s))
    ensures s == IsoText(YearField(s), MonthField(s), DayField(s))
  {
    FourDigits(DigitValue(s[0]), DigitValue(s[1]), DigitValue(s[2]), DigitValue(s[3]));
    TwoDigits(DigitValue(s[5]), DigitValue(s[6]));
    TwoDigits(DigitValue(s[8]), DigitValue(s[9]));
    DigitCharOfValue(s[0]);
    DigitCharOfValue(s[1]);
    DigitCharOfValue(s[2]);
    DigitCharOfValue(s[3]);
    DigitCharOfValue(s[5]);
    DigitCharOfValue(s[6]);
    DigitCharOfValue(s[8]);
    DigitCharOfValue(s[9]);
    var t := IsoText(YearField(s), MonthField(s), DayField(s));
    assert |t| == |s|;
    forall k | 0 <= k < 10
      ensures t[k] == s[k]
    {
    }
  }

  /** Two texts that parse to the same day are the same text. */
  lemma ParseIsoDateInjective(s1: string, s2: string)
    requires ParseIsoDate(s1).Some? && ParseIsoDate(s1) == ParseIsoDate(s2)
    ensures s1 == s2
  {
    ParsedIsCanonical(s1);
    ParsedIsCanonical(s2);
    OrdinalInjective(YearField(s1), MonthField(s1), DayField(s1), YearField(s2), MonthField(s2), DayField(s2));
  }

  // ---------------- The delivery-date parser ----------------

  /** A parsed delivery date: a calendar day, or NaT (a missing date). */
  datatype DateValue = Day(ordinal: int) | NaT

  /** The strings the date parser reads as a missing date rather than as an error;
      `"nan"` is how a blank spreadsheet cell reads once turned into text. */
  const NaTStrings: set<string> := {"", "NaT", "nat", "NAT", "nan", "NaN", "NAN"}

  /** `pd.to_datetime` restricted to `YYYY-MM-DD`: `None` is a parse error. */
  function ParseDeliveryDate(key: string): (r: Option<DateValue>)
    ensures r == Some(NaT) <==> key in NaTStrings
    ensures r.Some? && r.value.Day? ==> IsoShaped(key)
  {
    if key in NaTStrings then Some(NaT)
    else match ParseIsoDate(key)
      case Some(day) => Some(Day(day))
      case None => None
  }

  /** The parser's three outcomes: NaT exactly for the missing-value strings, a day
      exactly for the canonical text of a date, and an error for everything else. */
  lemma ParseDeliveryDateCases(key: string)
    ensures ParseDeliveryDate(key) == Some(NaT) <==> key in NaTStrings
    ensures ParseDeliveryDate(key).None? <==> key !in NaTStrings && ParseIsoDate(key).None?
    ensures forall day :: ParseDeliveryDate(key) == Some(Day(day)) ==>
      ValidDate(YearField(key), MonthField(key), DayField(key))
      && key == IsoText(YearField(key), MonthField(key), DayField(key))
      && day == Ordinal(YearField(key), MonthField(key), DayField(key))
  {
    if key !in NaTStrings && ParseIsoDate(key).Some? {
      ParsedIsCanonical(key);
    }
  }

  /** Only one text names a given day. */
  lemma DayTextUnique(k1: string, k2: string, day: int)
    requires ParseDeliveryDate(k1) == Some(Day(day)) && ParseDeliveryDate(k2) == Some(Day(day))
    ensures k1 == k2
  {
    ParseIsoDateInjective(k1, k2);
  }
}
