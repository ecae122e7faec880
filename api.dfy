/**
  The pure parts of the HTTP API (`api/src/main.rs`): the date/time formats
  query parameters may use, the time-range filter over the loaded data, the
  index of a pair in a packed symmetric matrix, and the date-keyed data map
  that loading a data file updates by swapping in a modified copy.
*/
module Api {
  import opened Wrappers
  import opened Failures
  import Text
  import Chrono
  import Collections
  import Monitoring

  type Measurement = Monitoring.Measurement

  // ---------------------------------------------------------------------
  // parse_datetime
  // ---------------------------------------------------------------------

  /** The value of the `w` characters of `s` from `i`, when they are all digits. */
  function DigitsAt(s: string, i: nat, w: nat): (r: Option<nat>)
    requires i + w <= |s|
  {
    if Text.AllDigits(s[i..i + w]) then Some(Text.DigitsValue(s[i..i + w])) else None
  }

  /** `%Y-%m-%d` at the start of `s`, four-digit year, as a valid date. */
  function DateAt(s: string): (r: Option<Chrono.Date>)
    requires |s| >= 10
    ensures r.Some? ==> Chrono.ValidDate(r.value)
  {
    var y := DigitsAt(s, 0, 4);
    var m := DigitsAt(s, 5, 2);
    var d := DigitsAt(s, 8, 2);
    if s[4] == '-' && s[7] == '-' && y.Some? && m.Some? && d.Some? then
      var date := Chrono.Date(y.value, m.value, d.value);
      if Chrono.ValidDate(date) then Some(date) else None
    else None
  }

  /**
    `%H:%M` (or `%H:%M:%S`) from index `i`, as seconds of the day. A second
    of 60 is chrono's leap second.
  */
  function ClockAt(s: string, i: nat, withSeconds: bool): (r: Option<int>)
    requires i + (if withSeconds then 8 else 5) <= |s|
    ensures r.Some? ==> 0 <= r.value < 86401
  {
    var h := DigitsAt(s, i, 2);
    var m := DigitsAt(s, i + 3, 2);
    var sec := if withSeconds then DigitsAt(s, i + 6, 2) else Some(0);
    if s[i + 2] == ':' && (withSeconds ==> s[i + 5] == ':') && h.Some? && m.Some? && sec.Some?
       && h.value < 24 && m.value < 60 && sec.value <= 60
    then Some(h.value * 3600 + m.value * 60 + sec.value)
    else None
  }

  /** The number of leading ASCII digits. */
  function DigitRun(s: string): (n: nat)
    ensures n <= |s| && Text.AllDigits(s[..n])
    ensures n < |s| ==> !Text.IsDigit(s[n])
  {
    if s == [] || !Text.IsDigit(s[0]) then 0 else 1 + DigitRun(s[1..])
  }

  function Pow10(k: nat): (p: nat)
    ensures p >= 1
  {
    if k == 0 then 1 else 10 * Pow10(k - 1)
  }

  /** A fraction of a second written with up to nine digits, in nanoseconds. */
  function FracNanos(digits: string): nat
    requires Text.AllDigits(digits) && |digits| <= 9
  {
    Text.DigitsValue(digits) * Pow10(9 - |digits|)
  }

  /**
    `%.f`: nothing, or a `.` and at least one digit; digits past the ninth
    are read and ignored. The result is the nanoseconds and the rest.
  */
  function Frac(t: string): (r: Option<(nat, string)>)
    ensures r.Some? ==> |r.value.1| <= |t|
  {
    if t == [] || t[0] != '.' then Some((0, t))
    else
      var n := DigitRun(t[1..]);
      if n == 0 then None
      else
        var kept := if n < 9 then n else 9;
        var digits := t[1..][..kept];
        assert forall j :: 0 <= j < kept ==> digits[j] == t[1..][..n][j];
        Some((FracNanos(digits), t[1 + n..]))
  }

  /** `%:z` as `+HH:MM` or `-HH:MM`: the offset east of UTC in seconds. */
  function Offset(t: string): (r: Option<int>)
    ensures r.Some? ==> -86400 < r.value < 86400
  {
    if |t| == 6 && (t[0] == '+' || t[0] == '-') && t[3] == ':' then
      var h := DigitsAt(t, 1, 2);
      var m := DigitsAt(t, 4, 2);
      if h.Some? && m.Some? && m.value < 60 && h.value * 3600 + m.value * 60 < 86400 then
        Some(if t[0] == '-' then -(h.value * 3600 + m.value * 60) else h.value * 3600 + m.value * 60)
      else None
    else None
  }

  /** The formats `parse_datetime` tries, in order. */
  datatype Format =
    | DateOnly          // %Y-%m-%d
    | SpaceMinutes      // %Y-%m-%d %H:%M
    | SpaceSeconds      // %Y-%m-%d %H:%M:%S
    | TSeconds          // %Y-%m-%dT%H:%M:%S
    | TFraction         // %Y-%m-%dT%H:%M:%S%.f
    | TFractionOffset   // %Y-%m-%dT%H:%M:%S%.f%:z

  const FORMATS: seq<Format> := [DateOnly, SpaceMinutes, SpaceSeconds, TSeconds, TFraction, TFractionOffset]

  /** The instant `s` denotes in one format, read as UTC unless it carries an offset. */
  function ParseFormat(f: Format, s: string): Option<int> {
    match f
    case DateOnly =>
      if |s| == 10 && DateAt(s).Some? then Some(Chrono.Instant(DateAt(s).value, 0, 0)) else None
    case SpaceMinutes =>
      if |s| == 16 && s[10] == ' ' && DateAt(s).Some? && ClockAt(s, 11, false).Some?
      then Some(Chrono.Instant(DateAt(s).value, ClockAt(s, 11, false).value, 0)) else None
    case SpaceSeconds =>
      if |s| == 19 && s[10] == ' ' && DateAt(s).Some? && ClockAt(s, 11, true).Some?
      then Some(Chrono.Instant(DateAt(s).value, ClockAt(s, 11, true).value, 0)) else None
    case TSeconds =>
      if |s| == 19 && s[10] == 'T' && DateAt(s).Some? && ClockAt(s, 11, true).Some?
      then Some(Chrono.Instant(DateAt(s).value, ClockAt(s, 11, true).value, 0)) else None
    case TFraction =>
      if |s| >= 19 && s[10] == 'T' && DateAt(s).Some? && ClockAt(s, 11, true).Some?
         && Frac(s[19..]).Some? && Frac(s[19..]).value.1 == []
      then Some(Chrono.Instant(DateAt(s).value, ClockAt(s, 11, true).value, Frac(s[19..]).value.0)) else None
    case TFractionOffset =>
      if |s| >= 19 && s[10] == 'T' && DateAt(s).Some? && ClockAt(s, 11, true).Some?
         && Frac(s[19..]).Some? && Offset(Frac(s[19..]).value.1).Some?
      then Some(Chrono.Instant(DateAt(s).value, ClockAt(s, 11, true).value, Frac(s[19..]).value.0)
                - Offset(Frac(s[19..]).value.1).value * Chrono.NANOS_PER_SEC)
      else None
  }

  /** The first of `formats` that reads `s`. */
  function FirstMatch(formats: seq<Format>, s: string): Option<int> {
    if formats == [] then None
    else if ParseFormat(formats[0], s).Some? then ParseFormat(formats[0], s)
    else FirstMatch(formats[1..], s)
  }

  /** Some format gives an instant exactly when one of the formats reads `s`. */
  lemma {:induction false} FirstMatchSome(formats: seq<Format>, s: string)
    ensures FirstMatch(formats, s).Some? <==> exists i :: 0 <= i < |formats| && ParseFormat(formats[i], s).Some?
  {
    if formats != [] && ParseFormat(formats[0], s).None? {
      FirstMatchSome(formats[1..], s);
      assert forall i :: 1 <= i < |formats| ==> formats[i] == formats[1..][i - 1];
    }
  }

  /** The instant read is the one the first matching format gives. */
  lemma {:induction false} FirstMatchIsFirst(formats: seq<Format>, s: string, i: nat)
    requires i < |formats| && ParseFormat(formats[i], s).Some?
    requires forall j :: 0 <= j < i ==> ParseFormat(formats[j], s).None?
    ensures FirstMatch(formats, s) == ParseFormat(formats[i], s)
  {
    if i > 0 {
      FirstMatchIsFirst(formats[1..], s, i - 1);
    }
  }

  /** `Api::parse_datetime`: an instant in UTC nanoseconds, or an error. */
  function ParseDateTime(s: string): (r: Result<int, Failure>)
    ensures r.Err? ==> r.error.Error?
  {
    match FirstMatch(FORMATS, s)
    case Some(t) => Ok(t)
    case None => Err(Error("unknown DateTime"))
  }

  /** An input is accepted exactly when one of the formats reads it. */
  lemma ParseDateTimeOk(s: string)
    ensures ParseDateTime(s).Ok? <==> exists i :: 0 <= i < |FORMATS| && ParseFormat(FORMATS[i], s).Some?
  {
    FirstMatchSome(FORMATS, s);
  }

  /** The first format that reads `s` decides the instant. */
  lemma ParseDateTimeAt(s: string, i: nat)
    requires i < |FORMATS| && ParseFormat(FORMATS[i], s).Some?
    requires forall j :: 0 <= j < i ==> ParseFormat(FORMATS[j], s).None?
    ensures ParseDateTime(s) == Ok(ParseFormat(FORMATS[i], s).value)
  {
    FirstMatchIsFirst(FORMATS, s, i);
  }

  /** Two zero-padded digits read back as their value. */
  lemma Pad2Value(n: nat)
    requires n < 100
    ensures Text.DigitsValue(Chrono.Pad2(n)) == n
  {
    var s := Chrono.Pad2(n);
    assert s[..1] == [s[0]];
    assert s[..1][..0] == [];
    assert Text.DigitsValue(s[..1]) == n / 10;
    assert Text.DigitsValue(s) == 10 * (n / 10) + n % 10;
  }

  /** Four zero-padded digits read back as their value. */
  lemma Pad4Value(n: nat)
    requires n < 10000
    ensures Text.DigitsValue(Chrono.Pad4(n)) == n
  {
    var hi := Chrono.Pad2(n / 100);
    var lo := Chrono.Pad2(n % 100);
    var s := hi + lo;
    assert s[..3] == hi + [lo[0]];
    assert s[..3][..2] == hi;
    assert Text.DigitsValue(s) == 100 * Text.DigitsValue(hi) + 10 * (lo[0] as int - '0' as int) + (lo[1] as int - '0' as int);
    Pad2Value(n / 100);
    assert lo[..1] == [lo[0]] && lo[..1][..0] == [];
    Pad2Value(n % 100);
  }

  /** The date written `%Y-%m-%d` is read back by `DateAt`. */
  lemma DateAtFormatted(d: Chrono.Date, rest: string)
    requires Chrono.ValidDate(d) && 0 <= d.year <= 9999
    ensures DateAt(Chrono.FormatDate(d) + rest) == Some(d)
  {
    var s := Chrono.FormatDate(d) + rest;
    assert s[0..4] == Chrono.Pad4(d.year);
    assert s[5..7] == Chrono.Pad2(d.month);
    assert s[8..10] == Chrono.Pad2(d.day);
    Pad4Value(d.year);
    Pad2Value(d.month);
    Pad2Value(d.day);
  }

  /** A date written `%Y-%m-%d` reads as its midnight UTC. */
  lemma DateRoundTrip(d: Chrono.Date)
    requires Chrono.ValidDate(d) && 0 <= d.year <= 9999
    ensures ParseDateTime(Chrono.FormatDate(d)) == Ok(Chrono.Instant(d, 0, 0))
  {
    DateAtFormatted(d, "");
    assert Chrono.FormatDate(d) + "" == Chrono.FormatDate(d);
    assert ParseFormat(FORMATS[0], Chrono.FormatDate(d)).Some?;
  }

  /** `%H:%M:%S` of a time of day. */
  function FormatClock(h: nat, m: nat, sec: nat): (s: string)
    requires h < 24 && m < 60 && sec <= 60
    ensures |s| == 8
  {
    Chrono.Pad2(h) + ":" + Chrono.Pad2(m) + ":" + Chrono.Pad2(sec)
  }

  lemma ClockAtFormatted(prefix: string, h: nat, m: nat, sec: nat, rest: string)
    requires |prefix| == 11
    requires h < 24 && m < 60 && sec <= 60
    ensures ClockAt(prefix + FormatClock(h, m, sec) + rest, 11, true) == Some(h * 3600 + m * 60 + sec)
  {
    var s := prefix + FormatClock(h, m, sec) + rest;
    assert s[11..13] == Chrono.Pad2(h);
    assert s[14..16] == Chrono.Pad2(m);
    assert s[17..19] == Chrono.Pad2(sec);
    Pad2Value(h);
    Pad2Value(m);
    Pad2Value(sec);
  }

  /** `%Y-%m-%d %H:%M:%S` reads as that instant in UTC. */
  lemma DateTimeRoundTrip(d: Chrono.Date, h: nat, m: nat, sec: nat)
    requires Chrono.ValidDate(d) && 0 <= d.year <= 9999
    requires h < 24 && m < 60 && sec <= 60
    ensures ParseDateTime(Chrono.FormatDate(d) + " " + FormatClock(h, m, sec))
            == Ok(Chrono.Instant(d, h * 3600 + m * 60 + sec, 0))
  {
    var s := Chrono.FormatDate(d) + " " + FormatClock(h, m, sec);
    DateAtFormatted(d, " " + FormatClock(h, m, sec));
    assert s == Chrono.FormatDate(d) + (" " + FormatClock(h, m, sec));
    ClockAtFormatted(Chrono.FormatDate(d) + " ", h, m, sec, "");
    assert Chrono.FormatDate(d) + " " + FormatClock(h, m, sec) + "" == s;
    assert |s| == 19 && s[10] == ' ';
    assert ParseFormat(FORMATS[2], s) == Some(Chrono.Instant(d, h * 3600 + m * 60 + sec, 0));
    ParseDateTimeAt(s, 2);
  }

  /** `%Y-%m-%dT%H:%M:%S` reads as that instant in UTC. */
  lemma TSecondsRoundTrip(d: Chrono.Date, h: nat, m: nat, sec: nat)
    requires Chrono.ValidDate(d) && 0 <= d.year <= 9999
    requires h < 24 && m < 60 && sec <= 60
    ensures ParseDateTime(Chrono.FormatDate(d) + "T" + FormatClock(h, m, sec))
            == Ok(Chrono.Instant(d, h * 3600 + m * 60 + sec, 0))
  {
    var s := Chrono.FormatDate(d) + "T" + FormatClock(h, m, sec);
    TimestampParts(d, h, m, sec, "");
    assert s + "" == s;
    forall j | 0 <= j < 3
      ensures ParseFormat(FORMATS[j], s).None?
    {
    }
    ParseDateTimeAt(s, 3);
  }

  /** `%H:%M` of a time of day. */
  function FormatMinutes(h: nat, m: nat): (s: string)
    requires h < 24 && m < 60
    ensures |s| == 5
  {
    Chrono.Pad2(h) + ":" + Chrono.Pad2(m)
  }

  lemma ClockAtMinutes(prefix: string, h: nat, m: nat)
    requires |prefix| == 11
    requires h < 24 && m < 60
    ensures ClockAt(prefix + FormatMinutes(h, m), 11, false) == Some(h * 3600 + m * 60)
  {
    var s := prefix + FormatMinutes(h, m);
    assert s[11..13] == Chrono.Pad2(h);
    assert s[14..16] == Chrono.Pad2(m);
    Pad2Value(h);
    Pad2Value(m);
  }

  /** `%Y-%m-%d %H:%M` reads as that minute in UTC. */
  lemma MinutesRoundTrip(d: Chrono.Date, h: nat, m: nat)
    requires Chrono.ValidDate(d) && 0 <= d.year <= 9999
    requires h < 24 && m < 60
    ensures ParseDateTime(Chrono.FormatDate(d) + " " + FormatMinutes(h, m))
            == Ok(Chrono.Instant(d, h * 3600 + m * 60, 0))
  {
    var s := Chrono.FormatDate(d) + " " + FormatMinutes(h, m);
    DateAtFormatted(d, " " + FormatMinutes(h, m));
    assert s == Chrono.FormatDate(d) + (" " + FormatMinutes(h, m));
    ClockAtMinutes(Chrono.FormatDate(d) + " ", h, m);
    assert |s| == 16 && s[10] == ' ';
    assert ParseFormat(FORMATS[1], s) == Some(Chrono.Instant(d, h * 3600 + m * 60, 0));
    ParseDateTimeAt(s, 1);
  }

  /** A fraction of up to nine digits that ends the input. */
  lemma FracOfDigits(digits: string)
    requires Text.AllDigits(digits) && 1 <= |digits| <= 9
    ensures Frac("." + digits) == Some((FracNanos(digits), ""))
  {
    var t := "." + digits;
    assert t[1..] == digits + "";
    DigitRunOf(digits, "");
    assert t[1..][..|digits|] == digits;
    assert t[1 + |digits|..] == "";
  }

  /** `%Y-%m-%dT%H:%M:%S%.f` reads as that instant in UTC, the fraction as nanoseconds. */
  lemma FractionRoundTrip(d: Chrono.Date, h: nat, m: nat, sec: nat, digits: string)
    requires Chrono.ValidDate(d) && 0 <= d.year <= 9999
    requires h < 24 && m < 60 && sec <= 60
    requires Text.AllDigits(digits) && 1 <= |digits| <= 9
    ensures ParseDateTime(Chrono.FormatDate(d) + "T" + FormatClock(h, m, sec) + ("." + digits))
            == Ok(Chrono.Instant(d, h * 3600 + m * 60 + sec, FracNanos(digits)))
  {
    var s := Chrono.FormatDate(d) + "T" + FormatClock(h, m, sec) + ("." + digits);
    TimestampParts(d, h, m, sec, "." + digits);
    FracOfDigits(digits);
    LongInput(s);
    assert ParseFormat(FORMATS[4], s) == Some(Chrono.Instant(d, h * 3600 + m * 60 + sec, FracNanos(digits)));
    ParseDateTimeAt(s, 4);
  }

  /** Input shorter than a date matches no format. */
  lemma TooShortRejected(s: string)
    requires |s| < 10
    ensures ParseDateTime(s).Err?
  {
    forall i | 0 <= i < |FORMATS|
      ensures ParseFormat(FORMATS[i], s).None?
    {
    }
    ParseDateTimeOk(s);
  }

  /** Input of a length no format has, and too short for a fraction, is refused. */
  lemma OddLengthRejected(s: string)
    requires |s| < 19 && |s| != 10 && |s| != 16
    ensures ParseDateTime(s).Err?
  {
    forall i | 0 <= i < |FORMATS|
      ensures ParseFormat(FORMATS[i], s).None?
    {
    }
    ParseDateTimeOk(s);
  }

  /** A day-month-year date is refused: its first four characters are not a year. */
  lemma DayFirstRejected()
    ensures ParseDateTime("16-12-2024").Err?
  {
    var s := "16-12-2024";
    assert !Text.IsDigit(s[2]);
    assert DateAt(s).None?;
    OddOrDateRejected(s);
  }

  /** A ten-character input that is not a date is refused. */
  lemma OddOrDateRejected(s: string)
    requires |s| == 10 && DateAt(s).None?
    ensures ParseDateTime(s).Err?
  {
    forall i | 0 <= i < |FORMATS|
      ensures ParseFormat(FORMATS[i], s).None?
    {
    }
    ParseDateTimeOk(s);
  }

  /** The documented rejections. */
  lemma RejectedExamples()
    ensures ParseDateTime("2024-12-16 14").Err?
    ensures ParseDateTime("").Err?
    ensures ParseDateTime("random text").Err?
    ensures ParseDateTime("16-12-2024").Err?
  {
    OddLengthRejected("2024-12-16 14");
    TooShortRejected("");
    OddLengthRejected("random text");
    DayFirstRejected();
  }

  /** The documented date-only example: midnight UTC. */
  lemma DateOnlyExample()
    ensures ParseDateTime("2024-12-16") == Ok(Chrono.Instant(Chrono.Date(2024, 12, 16), 0, 0))
  {
    var d := Chrono.Date(2024, 12, 16);
    assert Chrono.FormatDate(d) == "2024-12-16";
    DateRoundTrip(d);
  }

  /** The documented date-time example. */
  lemma DateTimeExample(s: string)
    requires s == "2024-12-16 14:30:45"
    ensures ParseDateTime(s) == Ok(Chrono.Instant(Chrono.Date(2024, 12, 16), 14 * 3600 + 30 * 60 + 45, 0))
  {
    var d := Chrono.Date(2024, 12, 16);
    assert Chrono.FormatDate(d) + " " + FormatClock(14, 30, 45) == s by {
      ExampleDate();
      ExampleClock();
    }
    DateTimeRoundTrip(d, 14, 30, 45);
  }

  /** The documented example with `T` and no fraction. */
  lemma TSecondsExample(s: string)
    requires s == "2024-12-16T14:30:45"
    ensures ParseDateTime(s) == Ok(Chrono.Instant(Chrono.Date(2024, 12, 16), 14 * 3600 + 30 * 60 + 45, 0))
  {
    var d := Chrono.Date(2024, 12, 16);
    assert Chrono.FormatDate(d) + "T" + FormatClock(14, 30, 45) == s by {
      ExampleDate();
      ExampleClock();
    }
    TSecondsRoundTrip(d, 14, 30, 45);
  }

  /** The documented example without seconds: they are zero. */
  lemma MinutesExample(s: string)
    requires s == "2024-12-16 14:30"
    ensures ParseDateTime(s) == Ok(Chrono.Instant(Chrono.Date(2024, 12, 16), 14 * 3600 + 30 * 60, 0))
  {
    var d := Chrono.Date(2024, 12, 16);
    assert Chrono.FormatDate(d) + " " + FormatMinutes(14, 30) == s by {
      ExampleDate();
      assert FormatMinutes(14, 30) == "14:30";
    }
    MinutesRoundTrip(d, 14, 30);
  }

  /** The documented example with a fraction and no offset: `.000002` is 2000 nanoseconds. */
  lemma FractionExample(s: string)
    requires s == "2024-12-16T14:30:45.000002"
    ensures ParseDateTime(s) == Ok(Chrono.Instant(Chrono.Date(2024, 12, 16), 14 * 3600 + 30 * 60 + 45, 2000))
  {
    var d := Chrono.Date(2024, 12, 16);
    assert ParseDateTime(s) == Ok(Chrono.Instant(d, 14 * 3600 + 30 * 60 + 45, FracNanos("000002"))) by {
      ExampleFractionText();
      ExampleFraction();
      FractionRoundTrip(d, 14, 30, 45, "000002");
    }
    ExampleFraction();
  }

  lemma ExampleFractionText()
    ensures Chrono.FormatDate(Chrono.Date(2024, 12, 16)) + "T" + FormatClock(14, 30, 45) + ("." + "000002")
            == "2024-12-16T14:30:45.000002"
  {
    ExampleDate();
    ExampleClock();
  }

  /** A run of digits ends where the digits do. */
  lemma {:induction false} DigitRunOf(digits: string, rest: string)
    requires Text.AllDigits(digits)
    requires rest != [] ==> !Text.IsDigit(rest[0])
    ensures DigitRun(digits + rest) == |digits|
  {
    if digits != [] {
      assert (digits + rest)[1..] == digits[1..] + rest;
      DigitRunOf(digits[1..], rest);
    }
  }

  /** `%:z` of an offset `hours:minutes` east (or west) of UTC. */
  function FormatOffset(east: bool, hours: nat, minutes: nat): (s: string)
    requires hours < 100 && minutes < 60
    ensures |s| == 6 && !Text.IsDigit(s[0])
  {
    (if east then "+" else "-") + Chrono.Pad2(hours) + ":" + Chrono.Pad2(minutes)
  }

  lemma OffsetOfFormatted(east: bool, hours: nat, minutes: nat)
    requires hours < 100 && minutes < 60 && hours * 3600 + minutes * 60 < 86400
    ensures Offset(FormatOffset(east, hours, minutes))
            == Some(if east then hours * 3600 + minutes * 60 else -(hours * 3600 + minutes * 60))
  {
    var t := FormatOffset(east, hours, minutes);
    assert t[1..3] == Chrono.Pad2(hours);
    assert t[4..6] == Chrono.Pad2(minutes);
    Pad2Value(hours);
    Pad2Value(minutes);
  }

  /** A fraction of up to nine digits followed by an offset. */
  lemma FracOfFormatted(digits: string, offset: string)
    requires Text.AllDigits(digits) && 1 <= |digits| <= 9
    requires |offset| == 6 && !Text.IsDigit(offset[0])
    ensures Frac("." + digits + offset) == Some((FracNanos(digits), offset))
  {
    var t := "." + digits + offset;
    assert t[1..] == digits + offset;
    DigitRunOf(digits, offset);
    assert t[1..][..|digits|] == digits;
    assert t[1 + |digits|..] == offset;
  }

  /** The offset format from its parts. */
  lemma FractionOffsetParts(s: string, d: Chrono.Date, clock: int, nanos: nat, offset: string, east: int)
    requires |s| >= 19 && s[10] == 'T'
    requires DateAt(s) == Some(d) && ClockAt(s, 11, true) == Some(clock)
    requires Frac(s[19..]) == Some((nanos, offset)) && Offset(offset) == Some(east)
    ensures ParseFormat(TFractionOffset, s) == Some(Chrono.Instant(d, clock, nanos) - east * Chrono.NANOS_PER_SEC)
    ensures offset != [] ==> ParseFormat(TFraction, s).None?
  {
  }

  /** Input longer than 19 characters needs a fraction or an offset. */
  lemma LongInput(s: string)
    requires |s| > 19
    ensures forall j :: 0 <= j < 4 ==> ParseFormat(FORMATS[j], s).None?
  {
    forall j | 0 <= j < 4
      ensures ParseFormat(FORMATS[j], s).None?
    {
    }
  }

  /** Pieces of text written one after the other. */
  function Concat(pieces: seq<string>): string {
    if pieces == [] then "" else pieces[0] + Concat(pieces[1..])
  }

  /** The six pieces of a timestamp with a fraction and an offset, concatenated. */
  lemma Concat6(a: string, b: string, c: string, d: string, e: string, f: string)
    ensures Concat([a, b, c, d, e, f]) == a + b + c + d + e + f
  {
    var p := [a, b, c, d, e, f];
    assert p[1..] == [b, c, d, e, f];
    assert p[1..][1..] == [c, d, e, f];
    assert p[1..][1..][1..] == [d, e, f];
    assert p[1..][1..][1..][1..] == [e, f];
    assert p[1..][1..][1..][1..][1..] == [f];
    assert p[1..][1..][1..][1..][1..][1..] == [];
    assert Concat([f]) == f;
    assert Concat([e, f]) == e + f;
    assert Concat([d, e, f]) == d + e + f;
    assert Concat([c, d, e, f]) == c + d + e + f;
  }

  /**
    `%Y-%m-%dT%H:%M:%S%.f%:z` reads as the local time shifted by its offset
    to UTC.
  */
  lemma OffsetRoundTrip(s: string, d: Chrono.Date, h: nat, m: nat, sec: nat, digits: string, east: bool, oh: nat, om: nat)
    requires Chrono.ValidDate(d) && 0 <= d.year <= 9999
    requires h < 24 && m < 60 && sec <= 60
    requires Text.AllDigits(digits) && 1 <= |digits| <= 9
    requires oh < 100 && om < 60 && oh * 3600 + om * 60 < 86400
    requires s == Concat([Chrono.FormatDate(d), "T", FormatClock(h, m, sec), ".", digits, FormatOffset(east, oh, om)])
    ensures ParseDateTime(s)
            == Ok(Chrono.Instant(d, h * 3600 + m * 60 + sec, FracNanos(digits))
                  - (if east then oh * 3600 + om * 60 else -(oh * 3600 + om * 60)) * Chrono.NANOS_PER_SEC)
  {
    OffsetTimestampFields(s, d, h, m, sec, digits, east, oh, om);
    FractionOffsetInput(s, d, h * 3600 + m * 60 + sec, FracNanos(digits), FormatOffset(east, oh, om),
                        if east then oh * 3600 + om * 60 else -(oh * 3600 + om * 60));
  }

  /** The fields of a timestamp with a fraction and an offset read back as written. */
  lemma OffsetTimestampFields(s: string, d: Chrono.Date, h: nat, m: nat, sec: nat, digits: string, east: bool, oh: nat, om: nat)
    requires Chrono.ValidDate(d) && 0 <= d.year <= 9999
    requires h < 24 && m < 60 && sec <= 60
    requires Text.AllDigits(digits) && 1 <= |digits| <= 9
    requires oh < 100 && om < 60 && oh * 3600 + om * 60 < 86400
    requires s == Concat([Chrono.FormatDate(d), "T", FormatClock(h, m, sec), ".", digits, FormatOffset(east, oh, om)])
    ensures |s| > 19 && s[10] == 'T' && DateAt(s) == Some(d) && ClockAt(s, 11, true) == Some(h * 3600 + m * 60 + sec)
    ensures Frac(s[19..]) == Some((FracNanos(digits), FormatOffset(east, oh, om)))
    ensures Offset(FormatOffset(east, oh, om)) == Some(if east then oh * 3600 + om * 60 else -(oh * 3600 + om * 60))
  {
    var off := FormatOffset(east, oh, om);
    var tail := "." + digits + off;
    Concat6(Chrono.FormatDate(d), "T", FormatClock(h, m, sec), ".", digits, off);
    assert s == Chrono.FormatDate(d) + "T" + FormatClock(h, m, sec) + tail;
    TimestampParts(d, h, m, sec, tail);
    FracOfFormatted(digits, off);
    OffsetOfFormatted(east, oh, om);
  }

  /** An input with a fraction and an offset after the seconds is read by the last format. */
  lemma FractionOffsetInput(s: string, d: Chrono.Date, clock: int, nanos: nat, offset: string, east: int)
    requires |s| > 19 && s[10] == 'T'
    requires DateAt(s) == Some(d) && ClockAt(s, 11, true) == Some(clock)
    requires Frac(s[19..]) == Some((nanos, offset)) && Offset(offset) == Some(east)
    ensures ParseDateTime(s) == Ok(Chrono.Instant(d, clock, nanos) - east * Chrono.NANOS_PER_SEC)
  {
    FractionOffsetParts(s, d, clock, nanos, offset, east);
    LongInput(s);
    ParseDateTimeAt(s, 5);
  }

  /** A date, `T` and a clock time in front of some text are read as such. */
  lemma TimestampParts(d: Chrono.Date, h: nat, m: nat, sec: nat, tail: string)
    requires Chrono.ValidDate(d) && 0 <= d.year <= 9999
    requires h < 24 && m < 60 && sec <= 60
    ensures var s := Chrono.FormatDate(d) + "T" + FormatClock(h, m, sec) + tail;
      && |s| == 19 + |tail| && s[10] == 'T' && s[19..] == tail
      && DateAt(s) == Some(d) && ClockAt(s, 11, true) == Some(h * 3600 + m * 60 + sec)
  {
    var s := Chrono.FormatDate(d) + "T" + FormatClock(h, m, sec) + tail;
    assert s == Chrono.FormatDate(d) + ("T" + FormatClock(h, m, sec) + tail);
    DateAtFormatted(d, "T" + FormatClock(h, m, sec) + tail);
    ClockAtFormatted(Chrono.FormatDate(d) + "T", h, m, sec, tail);
    assert s[19..] == tail;
  }

  lemma ExampleText()
    ensures Concat([Chrono.FormatDate(Chrono.Date(2024, 12, 16)), "T", FormatClock(14, 30, 45), ".", "000002", FormatOffset(true, 9, 0)])
            == "2024-12-16T14:30:45.000002+09:00"
  {
    Concat6(Chrono.FormatDate(Chrono.Date(2024, 12, 16)), "T", FormatClock(14, 30, 45), ".", "000002", FormatOffset(true, 9, 0));
    ExampleDate();
    ExampleClock();
    ExampleOffset();
  }

  lemma ExampleDate()
    ensures Chrono.FormatDate(Chrono.Date(2024, 12, 16)) == "2024-12-16"
  {
  }

  lemma ExampleClock()
    ensures FormatClock(14, 30, 45) == "14:30:45"
  {
  }

  lemma ExampleOffset()
    ensures FormatOffset(true, 9, 0) == "+09:00"
  {
  }

  lemma ExampleFraction()
    ensures Text.AllDigits("000002") && FracNanos("000002") == 2000
  {
    assert Text.DigitsValue("000002") == 2 by {
      assert "000002"[..5] == "00000";
      assert Text.DigitsValue("00000") == 0 by {
        assert "00000"[..4] == "0000";
        assert "0000"[..3] == "000";
        assert "000"[..2] == "00";
        assert "00"[..1] == "0";
        assert "0"[..0] == "";
      }
    }
    assert Pow10(3) == 1000 by {
      assert Pow10(1) == 10;
      assert Pow10(2) == 100;
    }
  }

  /** `+09:00` is nine hours east of UTC: 14:30:45 there is 05:30:45 UTC. */
  lemma OffsetExample(s: string)
    requires s == "2024-12-16T14:30:45.000002+09:00"
    ensures ParseDateTime(s) == Ok(Chrono.Instant(Chrono.Date(2024, 12, 16), 5 * 3600 + 30 * 60 + 45, 2000))
  {
    var d := Chrono.Date(2024, 12, 16);
    var shift := 9 * 3600 + 0 * 60;
    var read := Chrono.Instant(d, 14 * 3600 + 30 * 60 + 45, FracNanos("000002")) - shift * Chrono.NANOS_PER_SEC;
    assert ParseDateTime(s) == Ok(read) by {
      ExampleText();
      OffsetRoundTrip(s, d, 14, 30, 45, "000002", true, 9, 0);
    }
    assert read == Chrono.Instant(d, 5 * 3600 + 30 * 60 + 45, 2000) by {
      ExampleFraction();
      Chrono.InstantShift(d, 14 * 3600 + 30 * 60 + 45, 2000, shift);
    }
  }

  // ---------------------------------------------------------------------
  // filter_data
  // ---------------------------------------------------------------------

  /** `DateTime::<Utc>::UNIX_EPOCH + Duration::days(1)`, the default start. */
  const DEFAULT_START: int := Chrono.NANOS_PER_DAY

  /** `values().flatten()`: the lists one after the other. */
  function Flatten(lists: seq<seq<Measurement>>): (r: seq<Measurement>)
    ensures forall x :: x in r <==> exists i :: 0 <= i < |lists| && x in lists[i]
  {
    if lists == [] then []
    else
      assert forall i :: 1 <= i < |lists| ==> lists[i] == lists[1..][i - 1];
      lists[0] + Flatten(lists[1..])
  }

  /** The measurements taken from `start` to `end`, both included, in order. */
  function InWindow(xs: seq<Measurement>, start: int, end: int): (r: seq<Measurement>)
    ensures |r| <= |xs|
    ensures forall x :: x in r <==> x in xs && start <= x.time <= end
  {
    if xs == [] then []
    else if start <= xs[0].time <= end then [xs[0]] + InWindow(xs[1..], start, end)
    else InWindow(xs[1..], start, end)
  }

  /** The window filter distributes over concatenation: it keeps the order. */
  lemma {:induction false} InWindowAppend(xs: seq<Measurement>, ys: seq<Measurement>, start: int, end: int)
    ensures InWindow(xs + ys, start, end) == InWindow(xs, start, end) + InWindow(ys, start, end)
  {
    if xs != [] {
      assert (xs + ys)[1..] == xs[1..] + ys;
      InWindowAppend(xs[1..], ys, start, end);
    } else {
      assert xs + ys == ys;
    }
  }

  /** A query bound: absent gives the default, present must parse. */
  function Bound(b: Option<string>, default: int): (r: Result<int, Failure>)
    ensures b.None? ==> r == Ok(default)
    ensures b.Some? ==> r == ParseDateTime(b.value)
  {
    match b
    case None => Ok(default)
    case Some(s) => ParseDateTime(s)
  }

  /**
    `Api::filter_data`: the measurements of every list, in the order the
    map yields its lists, whose time lies within the bounds, at most
    `limit` of them. `now` is the clock reading that stands in for a missing
    end. An unparsable bound is an error.
  */
  function FilterData(values: seq<seq<Measurement>>, start: Option<string>, end: Option<string>,
                      limit: Option<nat>, now: int): (r: Result<seq<Measurement>, Failure>)
    requires limit.Some? ==> limit.value <= Text.USIZE_MAX
    ensures r.Err? <==> Bound(start, DEFAULT_START).Err? || Bound(end, now).Err?
    ensures r.Ok? ==> |r.value| <= (if limit.Some? then limit.value else Text.USIZE_MAX)
    ensures r.Ok? ==>
      var matching := InWindow(Flatten(values), Bound(start, DEFAULT_START).value, Bound(end, now).value);
      var n := if limit.Some? then limit.value else Text.USIZE_MAX;
      |r.value| == (if |matching| <= n then |matching| else n)
    ensures r.Ok? ==> forall x :: x in r.value ==>
              Bound(start, DEFAULT_START).value <= x.time <= Bound(end, now).value
    ensures r.Ok? ==> r.value <= InWindow(Flatten(values), Bound(start, DEFAULT_START).value, Bound(end, now).value)
  {
    match Bound(start, DEFAULT_START)
    case Err(e) => Err(e)
    case Ok(lo) =>
      match Bound(end, now)
      case Err(e) => Err(e)
      case Ok(hi) =>
        var matching := InWindow(Flatten(values), lo, hi);
        var n := if limit.Some? then limit.value else Text.USIZE_MAX;
        Ok(if |matching| <= n then matching else matching[..n])
  }

  /** Without a limit, every measurement within the bounds is returned. */
  lemma NoLimitKeepsAll(values: seq<seq<Measurement>>, start: Option<string>, end: Option<string>, now: int, x: Measurement)
    requires |Flatten(values)| <= Text.USIZE_MAX
    requires Bound(start, DEFAULT_START).Ok? && Bound(end, now).Ok?
    requires exists i :: 0 <= i < |values| && x in values[i]
    requires Bound(start, DEFAULT_START).value <= x.time <= Bound(end, now).value
    ensures x in FilterData(values, start, end, None, now).value
  {
  }

  /** With no start given, measurements of the first day after the epoch are cut off. */
  lemma DefaultStartIsOneDay(values: seq<seq<Measurement>>, end: Option<string>, limit: Option<nat>, now: int, x: Measurement)
    requires limit.Some? ==> limit.value <= Text.USIZE_MAX
    requires FilterData(values, None, end, limit, now).Ok?
    requires x.time < Chrono.NANOS_PER_DAY
    ensures x !in FilterData(values, None, end, limit, now).value
  {
  }

  // ---------------------------------------------------------------------
  // index_symmetric_matrix
  // ---------------------------------------------------------------------

  /** `square_number`: the cells of the rows above row `n`, itself included. */
  function Triangle(n: nat): nat {
    n * (n + 1) / 2
  }

  lemma TriangleStep(n: nat)
    ensures Triangle(n + 1) == Triangle(n) + n + 1
  {
    assert (n + 1) * (n + 2) == n * (n + 1) + 2 * (n + 1);
  }

  /** Every cell of row `a` comes before row `b > a`. */
  lemma {:induction false} TriangleGrows(a: nat, b: nat)
    requires a < b
    ensures Triangle(a) + a < Triangle(b)
    decreases b - a
  {
    TriangleStep(a);
    if a + 1 < b {
      TriangleGrows(a + 1, b);
    }
  }

  /**
    `index_symmetric_matrix`: the position of cell `(x, y)` in the packed
    lower triangle of a `total` by `total` symmetric matrix. Indices outside
    the matrix are an error; the `usize` products overflow, a panic in debug
    builds, once the row is too large.
  */
  function IndexSymmetricMatrix(x: nat, y: nat, total: nat): (r: Result<int, Failure>)
    requires x <= Text.USIZE_MAX && y <= Text.USIZE_MAX && total <= Text.USIZE_MAX
    ensures (r.Err? && r.error.Error?) <==> !(x < total && y < total)
    ensures r.Ok? ==> 0 <= r.value < Triangle(total)
  {
    if !(x < total && y < total) then Err(Error("Condition failed: `x < total_size && y < total_size`"))
    else
      var hi := if x >= y then x else y;
      var lo := if x >= y then y else x;
      if hi * (hi + 1) > Text.USIZE_MAX then Err(Panic("attempt to multiply with overflow"))
      else
        TriangleGrows(hi, total);
        Ok(Triangle(hi) + lo)
  }

  /** The index is the same for `(x, y)` and `(y, x)`. */
  lemma IndexSymmetric(x: nat, y: nat, total: nat)
    requires x <= Text.USIZE_MAX && y <= Text.USIZE_MAX && total <= Text.USIZE_MAX
    ensures IndexSymmetricMatrix(x, y, total) == IndexSymmetricMatrix(y, x, total)
  {
  }

  /** The cells of the lower triangle get distinct indices. */
  lemma IndexInjective(x1: nat, y1: nat, x2: nat, y2: nat, total: nat)
    requires y1 <= x1 && y2 <= x2
    requires x1 <= Text.USIZE_MAX && x2 <= Text.USIZE_MAX && total <= Text.USIZE_MAX
    requires IndexSymmetricMatrix(x1, y1, total).Ok? && IndexSymmetricMatrix(x2, y2, total).Ok?
    requires IndexSymmetricMatrix(x1, y1, total) == IndexSymmetricMatrix(x2, y2, total)
    ensures x1 == x2 && y1 == y2
  {
    if x1 < x2 {
      TriangleGrows(x1, x2);
    } else if x2 < x1 {
      TriangleGrows(x2, x1);
    }
  }

  /** No product overflows for matrices of up to 2^32 rows: every cell has an index. */
  lemma SmallMatrixIndexed(x: nat, y: nat, total: nat)
    requires total <= 0x1_0000_0000
    requires x < total && y < total
    ensures IndexSymmetricMatrix(x, y, total).Ok?
  {
    var hi := if x >= y then x else y;
    MulMonotone(hi, hi + 1, 0xFFFF_FFFF, 0x1_0000_0000);
  }

  lemma MulMonotone(a: nat, b: nat, c: nat, d: nat)
    requires a <= c && b <= d
    ensures a * b <= c * d
  {
    assert a * b <= a * d;
    assert a * d <= c * d;
  }

  // ---------------------------------------------------------------------
  // load_datafile and load_data
  // ---------------------------------------------------------------------

  /**
    A directory entry as `load_datafile` sees it: the date
    `collector_data::parse_filename` reads from its name (`None` when the
    name is not a data file name) and the measurements it decodes to
    (`None` when opening, decompressing or parsing fails).
  */
  datatype DataFile = DataFile(date: Option<Chrono.Date>, contents: Option<seq<Measurement>>)

  type DataMap = map<Chrono.Date, seq<Measurement>>

  /** Whether loading the file succeeds, and with which date. */
  function LoadResult(f: DataFile): (r: Result<Chrono.Date, Failure>)
    ensures r.Ok? <==> f.date.Some? && f.contents.Some?
    ensures r.Ok? ==> r.value == f.date.value
    ensures r.Err? ==> r.error.Error?
  {
    if f.date.None? then Err(Error("checking if the file's name is in datafile format"))
    else if f.contents.None? then Err(Error("reading or parsing the data file"))
    else Ok(f.date.value)
  }

  /** The data map after loading `f`. */
  function LoadOne(data: DataMap, f: DataFile): DataMap {
    if LoadResult(f).Ok? then data[f.date.value := f.contents.value] else data
  }

  /** The data map after loading every file in turn. */
  function LoadAll(data: DataMap, files: seq<DataFile>): DataMap {
    if files == [] then data else LoadOne(LoadAll(data, files[..|files| - 1]), files[|files| - 1])
  }

  /** The errors of the files that fail to load, in order. */
  function LoadErrors(files: seq<DataFile>): (errors: seq<Failure>)
    ensures |errors| <= |files|
  {
    if files == [] then []
    else
      var last := files[|files| - 1];
      LoadErrors(files[..|files| - 1]) + (if LoadResult(last).Err? then [LoadResult(last).error] else [])
  }

  /** The (date, list) pairs of the files that load, in order. */
  function LoadedPairs(files: seq<DataFile>): seq<(Chrono.Date, seq<Measurement>)> {
    if files == [] then []
    else
      var last := files[|files| - 1];
      LoadedPairs(files[..|files| - 1]) + (if LoadResult(last).Ok? then [(last.date.value, last.contents.value)] else [])
  }

  /**
    Loading files on top of a map overrides it with the map of the loaded
    files' lists, a date loaded twice keeping the later list.
  */
  lemma {:induction false} LoadAllOverrides(data: DataMap, files: seq<DataFile>)
    ensures LoadAll(data, files) == data + Collections.MapOfPairs(LoadedPairs(files))
  {
    if files != [] {
      var init := files[..|files| - 1];
      var last := files[|files| - 1];
      LoadAllOverrides(data, init);
      var loaded := Collections.MapOfPairs(LoadedPairs(init));
      if LoadResult(last).Ok? {
        var pairs := LoadedPairs(init) + [(last.date.value, last.contents.value)];
        assert pairs[..|pairs| - 1] == LoadedPairs(init);
        assert Collections.MapOfPairs(LoadedPairs(files)) == loaded[last.date.value := last.contents.value];
        assert LoadAll(data, files) == (data + loaded)[last.date.value := last.contents.value];
        MergeUpdate(data, loaded, last.date.value, last.contents.value);
      } else {
        assert LoadedPairs(files) == LoadedPairs(init);
      }
    }
  }

  /** Updating a merge is merging the update. */
  lemma MergeUpdate<K, V>(a: map<K, V>, b: map<K, V>, k: K, v: V)
    ensures (a + b)[k := v] == a + b[k := v]
  {
  }

  /** The shared, date-keyed measurements the API serves. */
  class DataStore {
    /** The map behind the shared `Arc`; readers hold on to the value they got. */
    var data: DataMap

    constructor()
      ensures data == map[]
    {
      data := map[];
    }

    /** `get_data`: the map as it is now. */
    method Snapshot() returns (snapshot: DataMap)
      ensures snapshot == data
    {
      snapshot := data;
    }

    /**
      `load_datafile`: the file's list replaces whatever its date held, by
      cloning the map, inserting and swapping the clone in; a file that
      fails leaves the map alone.
    */
    method LoadDatafile(f: DataFile) returns (r: Result<Chrono.Date, Failure>)
      modifies this
      ensures r == LoadResult(f)
      ensures data == LoadOne(old(data), f)
      ensures r.Ok? ==> f.date.value in data && data[f.date.value] == f.contents.value
      ensures forall d :: d in old(data) && (r.Err? || d != f.date.value) ==> d in data && data[d] == old(data)[d]
    {
      if f.date.None? {
        return Err(Error("checking if the file's name is in datafile format"));
      }
      if f.contents.None? {
        return Err(Error("reading or parsing the data file"));
      }
      var local := data;
      local := local[f.date.value := f.contents.value];
      data := local;
      return Ok(f.date.value);
    }

    /**
      `load_data`: every file of the data directory in turn, collecting the
      errors of those that fail. A path that is not a directory is an error.
    */
    method LoadData(isDir: bool, files: seq<DataFile>) returns (r: Result<seq<Failure>, Failure>)
      modifies this
      ensures !isDir ==> r.Err? && data == old(data)
      ensures isDir ==> r == Ok(LoadErrors(files)) && data == LoadAll(old(data), files)
    {
      if !isDir {
        return Err(Error("Condition failed: `data_dir.is_dir()`"));
      }
      var errors: seq<Failure> := [];
      var i := 0;
      while i < |files|
        invariant 0 <= i <= |files|
        invariant errors == LoadErrors(files[..i])
        invariant data == LoadAll(old(data), files[..i])
      {
        var result := LoadDatafile(files[i]);
        assert files[..i + 1][..i] == files[..i];
        if result.Err? {
          errors := errors + [result.error];
        }
        i := i + 1;
      }
      assert files[..i] == files;
      return Ok(errors);
    }
  }

  /** A reader's snapshot is not affected by a later load. */
  method SnapshotSurvivesLoad(store: DataStore, f: DataFile) returns (before: DataMap, after: DataMap)
    modifies store
    ensures before == old(store.data)
    ensures after == LoadOne(before, f)
  {
    before := store.Snapshot();
    var _ := store.LoadDatafile(f);
    after := store.Snapshot();
  }
}
