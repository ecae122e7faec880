/**
  The collector's configuration durations (`DurationWrapper::try_from`):
  a decimal `i64` followed by one of the suffixes `ms`, `s`, `m` or `h`.
  A `chrono::Duration` is modelled by its length in nanoseconds; chrono
  bounds it by `i64::MAX` milliseconds in either direction.
*/
module Durations {
  import opened Wrappers
  import opened Failures
  import Text

  /** The units the suffixes select. */
  datatype Unit = Milliseconds | Seconds | Minutes | Hours

  function UnitNanos(u: Unit): (n: nat)
    ensures n >= 1_000_000
  {
    match u
    case Milliseconds => 1_000_000
    case Seconds => 1_000_000_000
    case Minutes => 60_000_000_000
    case Hours => 3_600_000_000_000
  }

  function Suffix(u: Unit): (s: string)
    ensures 0 < |s| && !Text.IsDigit(s[|s| - 1])
  {
    match u
    case Milliseconds => "ms"
    case Seconds => "s"
    case Minutes => "m"
    case Hours => "h"
  }

  /** `TimeDelta::MAX` in nanoseconds; `TimeDelta::MIN` is its negation. */
  const MAX_NANOS: int := Text.I64_MAX * 1_000_000

  /**
    The lengths `try_milliseconds`, `try_seconds`, `try_minutes` and
    `try_hours` accept (a `checked_mul` overflow in the latter two lies far
    outside this range as well).
  */
  predicate InRange(nanos: int) {
    -MAX_NANOS <= nanos <= MAX_NANOS
  }

  /**
    The slice patterns, tried in order: `[.., 'm', 's']`, `[.., 's']`,
    `[.., 'm']`, `[.., 'h']`. The result is the number part and the unit.
  */
  function SplitSuffix(s: string): (r: Option<(string, Unit)>)
    ensures r.Some? ==> s == r.value.0 + Suffix(r.value.1)
    ensures r.None? <==> (s == [] || s[|s| - 1] !in "smh")
    ensures r.Some? && r.value.1 == Seconds ==> !(|s| >= 2 && s[|s| - 2] == 'm')
  {
    if |s| >= 2 && s[|s| - 2..] == "ms" then Some((s[..|s| - 2], Milliseconds))
    else if s != [] && s[|s| - 1] == 's' then Some((s[..|s| - 1], Seconds))
    else if s != [] && s[|s| - 1] == 'm' then Some((s[..|s| - 1], Minutes))
    else if s != [] && s[|s| - 1] == 'h' then Some((s[..|s| - 1], Hours))
    else None
  }

  /**
    `DurationWrapper::try_from`: an unknown suffix, a number part that is
    not an `i64`, and a length chrono cannot represent are errors.
  */
  function ParseDuration(s: string): (r: Result<int, Failure>)
    ensures r.Ok? ==> InRange(r.value)
    ensures r.Err? ==> r.error.Error?
  {
    match SplitSuffix(s)
    case None => Err(Error("parsing duration: invalid suffix (only h, m, s, ms)"))
    case Some((number, unit)) =>
      match Text.ParseI64(number)
      case None => Err(Error("parsing duration from string"))
      case Some(n) =>
        if InRange(n * UnitNanos(unit)) then Ok(n * UnitNanos(unit))
        else Err(Error("could not represent the duration"))
  }

  /** How a duration of `n` units is written: the number, then the suffix. */
  function Render(n: int, u: Unit): string {
    Number(n) + Suffix(u)
  }

  /** An `i64` as `Display` writes it: an optional `-`, then digits. */
  function Number(n: int): (s: string)
    ensures s != [] && Text.IsDigit(s[|s| - 1])
  {
    var digits := Text.NatToString(if n < 0 then -n else n);
    assert Text.IsDigit(digits[|digits| - 1]);
    if n < 0 then "-" + digits else digits
  }

  /** A rendered `i64` is read back by `from_str`. */
  lemma ParseI64OfRendered(n: int)
    requires Text.I64_MIN <= n <= Text.I64_MAX
    ensures Text.ParseI64(Number(n)) == Some(n)
  {
    if n < 0 {
      var s := "-" + Text.NatToString(-n);
      assert s[1..] == Text.NatToString(-n);
      Text.DigitsValueOfNatToString(-n);
    } else {
      Text.ParseIntOfNatToString(n, true, Text.I64_MIN, Text.I64_MAX);
    }
  }

  /**
    Every representable whole number of units survives rendering and
    parsing: `ms` is matched before `s`, and the number part is read back.
  */
  lemma RoundTrip(n: int, u: Unit)
    requires Text.I64_MIN <= n <= Text.I64_MAX
    requires InRange(n * UnitNanos(u))
    ensures ParseDuration(Render(n, u)) == Ok(n * UnitNanos(u))
  {
    SplitSuffixOfNumber(Number(n), u);
    ParseI64OfRendered(n);
  }

  /** A string whose last character is none of `s`, `m`, `h` is refused. */
  lemma UnknownSuffixFails(s: string)
    requires s == [] || s[|s| - 1] !in "smh"
    ensures ParseDuration(s).Err?
  {
  }

  /** The number part in front of a suffix, as the slice patterns see it. */
  lemma SplitSuffixOfNumber(number: string, u: Unit)
    requires u == Seconds ==> !(number != [] && number[|number| - 1] == 'm')
    ensures SplitSuffix(number + Suffix(u)) == Some((number, u))
  {
    match u
    case Milliseconds => SplitMilliseconds(number);
    case Seconds => SplitSeconds(number);
    case Minutes => SplitLetter(number, 'm');
    case Hours => SplitLetter(number, 'h');
  }

  lemma SplitMilliseconds(number: string)
    ensures SplitSuffix(number + "ms") == Some((number, Milliseconds))
  {
    var s := number + "ms";
    assert s[|s| - 2..] == "ms";
    assert s[..|s| - 2] == number;
  }

  /** `s` after a number part not ending in `m` is not taken for `ms`. */
  lemma SplitSeconds(number: string)
    requires !(number != [] && number[|number| - 1] == 'm')
    ensures SplitSuffix(number + "s") == Some((number, Seconds))
  {
    var s := number + "s";
    assert s[|s| - 1] == 's';
    if |s| >= 2 {
      assert s[|s| - 2] == number[|number| - 1];
      assert s[|s| - 2..][0] != 'm';
    }
    assert s[..|s| - 1] == number;
  }

  /** A one-letter suffix other than `s` ends the string and is not `ms`. */
  lemma SplitLetter(number: string, c: char)
    requires c == 'm' || c == 'h'
    ensures SplitSuffix(number + [c]) == Some((number, if c == 'm' then Minutes else Hours))
  {
    var s := number + [c];
    assert s[|s| - 1] == c;
    if |s| >= 2 {
      assert s[|s| - 2..][1] == c;
    }
    assert s[..|s| - 1] == number;
  }

  /** A number part that `i64::from_str` rejects is an error. */
  lemma BadNumberFails(number: string, u: Unit)
    requires Text.ParseI64(number).None?
    requires u == Seconds ==> !(number != [] && number[|number| - 1] == 'm')
    ensures ParseDuration(number + Suffix(u)).Err?
  {
    SplitSuffixOfNumber(number, u);
  }

  /** One second more than chrono can hold is an error, not a wrap-around. */
  lemma OverflowFails()
    ensures ParseDuration(Render(Text.I64_MAX / 1000 + 1, Seconds)).Err?
  {
    var n := Text.I64_MAX / 1000 + 1;
    SplitSuffixOfNumber(Number(n), Seconds);
    ParseI64OfRendered(n);
  }

  /** The documented examples with a suffix. */
  lemma SecondsExample()
    ensures ParseDuration("35s") == Ok(35 * UnitNanos(Seconds))
  {
    RoundTrip(35, Seconds);
    assert Render(35, Seconds) == "35s";
  }

  lemma MinutesExample()
    ensures ParseDuration("27m") == Ok(27 * UnitNanos(Minutes))
  {
    RoundTrip(27, Minutes);
    assert Render(27, Minutes) == "27m";
  }

  lemma HoursExample()
    ensures ParseDuration("3h") == Ok(3 * UnitNanos(Hours))
  {
    RoundTrip(3, Hours);
    assert Render(3, Hours) == "3h";
  }

  /** `ms` is matched before `s`: this is 500 milliseconds. */
  lemma MillisecondsExample()
    ensures ParseDuration("500ms") == Ok(500 * UnitNanos(Milliseconds))
  {
    RoundTrip(500, Milliseconds);
    assert Render(500, Milliseconds) == "500ms";
  }

  /** The documented examples without a known suffix. */
  lemma SuffixExamples()
    ensures ParseDuration("500").Err?
    ensures ParseDuration("400k").Err?
    ensures ParseDuration("400jkl").Err?
  {
    UnknownSuffixFails("500");
    UnknownSuffixFails("400k");
    UnknownSuffixFails("400jkl");
  }
}
