/**
  The calendar arithmetic the system takes from the `chrono` crate: instants
  are integer nanoseconds since 1970-01-01T00:00:00Z (a `DateTime<Utc>`),
  dates are proleptic Gregorian (`NaiveDate`), and `%Y-%m-%d` renders a date.
*/
module Chrono {
  import Text

  const NANOS_PER_SEC: int := 1_000_000_000
  const SECS_PER_MINUTE: int := 60
  const SECS_PER_HOUR: int := 3600
  const SECS_PER_DAY: int := 86400
  const NANOS_PER_DAY: int := 86_400_000_000_000

  /** A proleptic Gregorian date (`NaiveDate`). */
  datatype Date = Date(year: int, month: int, day: int)

  predicate IsLeapYear(y: int) {
    y % 4 == 0 && (y % 100 != 0 || y % 400 == 0)
  }

  function DaysInMonth(y: int, m: int): int
    requires 1 <= m <= 12
  {
    if m == 2 then (if IsLeapYear(y) then 29 else 28)
    else if m == 4 || m == 6 || m == 9 || m == 11 then 30
    else 31
  }

  /** The dates `NaiveDate` accepts (its year range aside). */
  predicate ValidDate(d: Date) {
    1 <= d.month <= 12 && 1 <= d.day <= DaysInMonth(d.year, d.month)
  }

  /** Days from 1970-01-01 to `d`, counting from a March-based year. */
  function DaysFromCivil(d: Date): int
  {
    var y := if d.month <= 2 then d.year - 1 else d.year;
    var era := y / 400;
    var yoe := y - era * 400;
    var mp := if d.month > 2 then d.month - 3 else d.month + 9;
    var doy := (153 * mp + 2) / 5 + d.day - 1;
    var doe := yoe * 365 + yoe / 4 - yoe / 100 + doy;
    era * 146097 + doe - 719468
  }

  /** The date that lies `z` days after 1970-01-01. */
  function CivilFromDays(z: int): (d: Date)
    ensures 1 <= d.month <= 12 && 1 <= d.day <= 31
  {
    var shifted := z + 719468;
    var era := shifted / 146097;
    var split := SplitEra(shifted % 146097);
    var yoe := split.0;
    var doy := split.1;
    var mp := (5 * doy + 2) / 153;
    var day := doy - (153 * mp + 2) / 5 + 1;
    var month := if mp < 10 then mp + 3 else mp - 9;
    var y := yoe + era * 400;
    Date(if month <= 2 then y + 1 else y, month, day)
  }

  /** Every day count names a date of the calendar: February 29 only in leap years. */
  lemma CivilFromDaysValid(z: int)
    ensures ValidDate(CivilFromDays(z))
  {
    var shifted := z + 719468;
    var era := shifted / 146097;
    var split := SplitEra(shifted % 146097);
    var mp := (5 * split.1 + 2) / 153;
    CivilFromDaysParts(z, era, split.0, split.1, mp);
    EraDays(shifted, era, split.0, split.1);
    LeapYearPeriod(era, split.0 + 1);
  }

  /**
    Splits day `doe` of a 400-year cycle that starts on March 1 into the year
    of the cycle and the day of that March-based year; only the year before a
    leap year has a day 365 (its February 29).
  */
  function SplitEra(doe: int): (r: (int, int))
    requires 0 <= doe < 146097
    ensures 0 <= r.0 < 400 && 0 <= r.1 <= 365
    ensures doe == 365 * r.0 + r.0 / 4 - r.0 / 100 + r.1
    ensures r.1 == 365 ==> IsLeapYear(r.0 + 1)
  {
    var c := if doe / 36524 == 4 then 3 else doe / 36524;
    var inCentury := doe - 36524 * c;
    var q := inCentury / 1461;
    var inQuad := inCentury - 1461 * q;
    var y4 := if inQuad / 365 == 4 then 3 else inQuad / 365;
    SplitEraParts(doe, c, inCentury, q, inQuad, y4);
    (100 * c + 4 * q + y4, inQuad - 365 * y4)
  }

  /** The century, the four-year block and the year within it that `SplitEra` picks. */
  lemma SplitEraParts(doe: int, c: int, inCentury: int, q: int, inQuad: int, y4: int)
    requires 0 <= doe < 146097
    requires c == (if doe / 36524 == 4 then 3 else doe / 36524) && inCentury == doe - 36524 * c
    requires q == inCentury / 1461 && inQuad == inCentury - 1461 * q
    requires y4 == (if inQuad / 365 == 4 then 3 else inQuad / 365)
    ensures 0 <= 100 * c + 4 * q + y4 < 400 && 0 <= inQuad - 365 * y4 <= 365
    ensures doe == 365 * (100 * c + 4 * q + y4) + (100 * c + 4 * q + y4) / 4 - (100 * c + 4 * q + y4) / 100
                   + (inQuad - 365 * y4)
    ensures inQuad - 365 * y4 == 365 ==> IsLeapYear(100 * c + 4 * q + y4 + 1)
  {
    var yoe := 100 * c + 4 * q + y4;
    assert 0 <= c <= 3 && 0 <= inCentury <= 36524;
    assert 0 <= q <= 24 && 0 <= inQuad <= 1460 && 0 <= y4 <= 3;
    DivModUnique(yoe, 25 * c + q, y4, 4);
    DivModUnique(yoe, c, 4 * q + y4, 100);
    if inQuad - 365 * y4 == 365 {
      assert y4 == 3 && inQuad == 1460;
      DivModUnique(yoe + 1, 25 * c + q + 1, 0, 4);
      if q == 24 {
        assert inCentury == 36524 && c == 3;
        DivModUnique(yoe + 1, 1, 0, 400);
      } else {
        DivModUnique(yoe + 1, c, 4 * q + 4, 100);
      }
    }
  }

  /** Leap years repeat every 400 years. */
  lemma LeapYearPeriod(era: int, k: int)
    ensures IsLeapYear(era * 400 + k) == IsLeapYear(k)
  {
    var y := era * 400 + k;
    ShiftMod(era * 100, k, 4);
    ShiftMod(era * 4, k, 100);
    ShiftMod(era, k, 400);
  }

  lemma ShiftMod(m: int, k: int, n: int)
    requires n > 0
    ensures (m * n + k) % n == k % n
  {
    var a := m * n + k;
    var q := k / n;
    assert a == (m + q) * n + k % n;
    DivModUnique(a, m + q, k % n, n);
  }

  lemma DivModUnique(a: int, q: int, r: int, n: int)
    requires n > 0 && 0 <= r < n && a == q * n + r
    ensures a / n == q && a % n == r
  {
    var q' := a / n;
    var r' := a % n;
    assert a == q' * n + r';
    if q' > q {
      MulAtLeast(q' - q, n);
    } else if q' < q {
      MulAtLeast(q - q', n);
    }
  }

  lemma {:induction false} MulAtLeast(k: int, n: int)
    requires k >= 1 && n > 0
    ensures k * n >= n
    decreases k
  {
    if k > 1 {
      MulAtLeast(k - 1, n);
      assert k * n == (k - 1) * n + n;
    }
  }

  /** Converting a day count to a date and back gives the day count. */
  lemma DaysFromCivilOfCivilFromDays(z: int)
    ensures DaysFromCivil(CivilFromDays(z)) == z
  {
    var shifted := z + 719468;
    var era := shifted / 146097;
    var split := SplitEra(shifted % 146097);
    var mp := (5 * split.1 + 2) / 153;
    CivilFromDaysParts(z, era, split.0, split.1, mp);
    EraDays(shifted, era, split.0, split.1);
    DaysFromCivilParts(CivilFromDays(z), era, split.0, mp);
  }

  /** A day count splits into whole eras and the day of the era `SplitEra` divides up. */
  lemma EraDays(shifted: int, era: int, yoe: int, doy: int)
    requires era == shifted / 146097 && (yoe, doy) == SplitEra(shifted % 146097)
    ensures 0 <= yoe < 400
    ensures era * 146097 + 365 * yoe + yoe / 4 - yoe / 100 + doy == shifted
  {
    var doe := shifted % 146097;
    assert shifted == era * 146097 + doe;
    assert doe == 365 * yoe + yoe / 4 - yoe / 100 + doy;
  }

  /** The fields of `CivilFromDays(z)` in terms of the era, the year of the era and the day of that year. */
  lemma CivilFromDaysParts(z: int, era: int, yoe: int, doy: int, mp: int)
    requires era == (z + 719468) / 146097 && (yoe, doy) == SplitEra((z + 719468) % 146097)
    requires mp == (5 * doy + 2) / 153
    ensures (if CivilFromDays(z).month <= 2 then CivilFromDays(z).year - 1 else CivilFromDays(z).year) == era * 400 + yoe
    ensures mp == (if CivilFromDays(z).month > 2 then CivilFromDays(z).month - 3 else CivilFromDays(z).month + 9)
    ensures CivilFromDays(z).day == doy - (153 * mp + 2) / 5 + 1
  {
    assert 0 <= doy <= 365;
    assert 0 <= mp <= 11;
    var month := if mp < 10 then mp + 3 else mp - 9;
    var y := yoe + era * 400;
    assert CivilFromDays(z) == Date(if month <= 2 then y + 1 else y, month, doy - (153 * mp + 2) / 5 + 1);
  }

  /** `DaysFromCivil` in terms of the 400-year era, the year of the era and the March-based month. */
  lemma DaysFromCivilParts(d: Date, era: int, yoe: int, mp: int)
    requires 0 <= yoe < 400 && (if d.month <= 2 then d.year - 1 else d.year) == era * 400 + yoe
    requires mp == (if d.month > 2 then d.month - 3 else d.month + 9)
    ensures DaysFromCivil(d) == era * 146097 + yoe * 365 + yoe / 4 - yoe / 100 + (153 * mp + 2) / 5 + d.day - 1 - 719468
  {
    DivModUnique(era * 400 + yoe, era, yoe, 400);
  }

  /** The UTC calendar date of an instant (`DateTime<Utc>::date_naive`). */
  function UtcDate(t: int): Date {
    CivilFromDays(t / NANOS_PER_DAY)
  }

  /** The instant lies within the day of its UTC date. */
  lemma UtcDateContains(t: int)
    ensures DaysFromCivil(UtcDate(t)) * NANOS_PER_DAY <= t < (DaysFromCivil(UtcDate(t)) + 1) * NANOS_PER_DAY
  {
    DaysFromCivilOfCivilFromDays(t / NANOS_PER_DAY);
  }

  /** Two instants of the same UTC day have the same date. */
  lemma UtcDateOfSameDay(t: int, u: int)
    requires t / NANOS_PER_DAY == u / NANOS_PER_DAY
    ensures UtcDate(t) == UtcDate(u)
  {
  }

  /** Midnight UTC of a date followed by a time of day, as an instant. */
  function Instant(d: Date, secsOfDay: int, nanos: int): int {
    DaysFromCivil(d) * NANOS_PER_DAY + secsOfDay * NANOS_PER_SEC + nanos
  }

  /** Moving an instant back by whole seconds moves its time of day back by as many. */
  lemma InstantShift(d: Date, secsOfDay: int, nanos: int, secs: int)
    ensures Instant(d, secsOfDay, nanos) - secs * NANOS_PER_SEC == Instant(d, secsOfDay - secs, nanos)
  {
  }

  /** Two digits, zero-padded (`%m`, `%d`, `%H`, ...). */
  function Pad2(n: nat): (s: string)
    requires n < 100
    ensures |s| == 2 && Text.AllDigits(s)
  {
    [Text.DigitChar(n / 10), Text.DigitChar(n % 10)]
  }

  /** Four digits, zero-padded. */
  function Pad4(n: nat): (s: string)
    requires n < 10000
    ensures |s| == 4 && Text.AllDigits(s)
  {
    Pad2(n / 100) + Pad2(n % 100)
  }

  /**
    `%Y`: four zero-padded digits for years 0 to 9999; otherwise a sign and
    at least four digits (`{:+05}`).
  */
  function FormatYear(y: int): (s: string)
    ensures 0 <= y <= 9999 <==> (|s| == 4 && Text.AllDigits(s))
  {
    if 0 <= y <= 9999 then Pad4(y)
    else
      var sign := if y > 9999 then '+' else '-';
      var digits := if y > 9999 then Text.NatToString(y) else if y > -10000 then Pad4(-y) else Text.NatToString(-y);
      var s := [sign] + digits;
      assert !Text.IsDigit(s[0]);
      s
  }

  /** `%Y-%m-%d`. */
  function FormatDate(d: Date): (s: string)
    requires 1 <= d.month <= 12 && 1 <= d.day <= 31
  {
    FormatYear(d.year) + "-" + Pad2(d.month) + "-" + Pad2(d.day)
  }
}
