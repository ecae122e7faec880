/**
  The front end's parsers: the `|`-separated table `sacct -P` prints
  (`sacct_csvlike`), and human-readable file sizes with a binary suffix
  (`FileSize`). A size is held in bytes as a `usize`.
*/
module FrontendParse {
  import opened Wrappers
  import opened Failures
  import Text
  import Collections

  // ---------------------------------------------------------------------
  // sacct_csvlike
  // ---------------------------------------------------------------------

  /** One parsed row: column name to field text. */
  type Row = map<string, string>

  /** The fields of a line, each paired with the column name at its position. */
  function Pairs(header: seq<string>, fields: seq<string>): (pairs: seq<(string, string)>)
    requires |fields| <= |header|
    ensures |pairs| == |fields|
    ensures forall i :: 0 <= i < |fields| ==> pairs[i] == (header[i], fields[i])
  {
    seq(|fields|, i requires 0 <= i < |fields| => (header[i], fields[i]))
  }

  /**
    One data line (`line_number` counts the lines after the header from 0):
    a field without a column name makes the whole row an error; otherwise
    the fields are collected into a map, a repeated column name keeping its
    last field.
  */
  function RowOf(header: seq<string>, lineNumber: nat, line: string): (r: Result<Row, Failure>)
    ensures r.Err? <==> |Text.Split(line, '|')| > |header|
    ensures r.Err? ==> r.error.Error?
    ensures r.Ok? ==> forall key :: key in r.value <==>
              exists i :: 0 <= i < |Text.Split(line, '|')| && header[i] == key
  {
    var fields := Text.Split(line, '|');
    if |fields| > |header| then
      Err(Error("Parsing error at line " + Text.NatToString(lineNumber) + ": too many fields"))
    else
      var pairs := Pairs(header, fields);
      Collections.MapOfPairsKeys(pairs);
      Ok(Collections.MapOfPairs(pairs))
  }

  /**
    `sacct_csvlike`: the first line, split on `|`, is the header; every
    further line gives one row result, in order. A text without lines is an
    error.
  */
  function SacctCsvlike(input: string): (r: Result<(seq<string>, seq<Result<Row, Failure>>), Failure>)
    ensures r.Err? <==> Text.Lines(input) == []
    ensures r.Err? ==> r.error.Error?
    ensures r.Ok? ==> var lines := Text.Lines(input);
              && r.value.0 == Text.Split(lines[0], '|')
              && |r.value.1| == |lines| - 1
              && forall j :: 0 <= j < |r.value.1| ==> r.value.1[j] == RowOf(r.value.0, j, lines[j + 1])
  {
    var lines := Text.Lines(input);
    if lines == [] then Err(Error("data seems to be empty (" + input + ")"))
    else
      var header := Text.Split(lines[0], '|');
      Ok((header, seq(|lines| - 1, j requires 0 <= j < |lines| - 1 => RowOf(header, j, lines[j + 1]))))
  }

  /** Field `i` of a row is stored under column `i`, unless a later column has the same name. */
  lemma RowValues(header: seq<string>, lineNumber: nat, line: string, i: nat)
    requires RowOf(header, lineNumber, line).Ok?
    requires i < |Text.Split(line, '|')|
    requires forall k :: i < k < |Text.Split(line, '|')| ==> header[k] != header[i]
    ensures header[i] in RowOf(header, lineNumber, line).value
    ensures RowOf(header, lineNumber, line).value[header[i]] == Text.Split(line, '|')[i]
  {
    var fields := Text.Split(line, '|');
    var pairs := Pairs(header, fields);
    assert Collections.LastListing(pairs, i);
    Collections.MapOfPairsLast(pairs, i);
  }

  /** No text has no lines but the empty one. */
  lemma EmptyInputRejected()
    ensures SacctCsvlike("").Err?
  {
  }

  /** How `sacct -P` prints a table: each row's fields joined with `|`, every line ended by `\n`. */
  function Table(header: seq<string>, rows: seq<seq<string>>): string
    requires |header| > 0 && forall j :: 0 <= j < |rows| ==> |rows[j]| > 0
  {
    Text.Terminated(Printed(header, rows))
  }

  /** The lines of a printed table: the joined header, then each joined row. */
  function Printed(header: seq<string>, rows: seq<seq<string>>): (lines: seq<string>)
    requires |header| > 0 && forall j :: 0 <= j < |rows| ==> |rows[j]| > 0
    ensures |lines| == |rows| + 1 && lines[0] == Text.Join(header, '|')
    ensures forall i :: 1 <= i < |lines| ==> lines[i] == Text.Join(rows[i - 1], '|')
  {
    [Text.Join(header, '|')] + seq(|rows|, j requires 0 <= j < |rows| => Text.Join(rows[j], '|'))
  }

  /** A cell the table format can carry: no separator, no line break, no carriage return. */
  predicate PlainCell(cell: string) {
    '|' !in cell && '\n' !in cell && '\r' !in cell
  }

  predicate PlainCells(cells: seq<string>) {
    forall i :: 0 <= i < |cells| ==> PlainCell(cells[i])
  }

  /** Joining plain cells introduces no line break and no carriage return. */
  lemma {:induction false} JoinPlain(cells: seq<string>)
    requires |cells| > 0 && PlainCells(cells)
    ensures '\n' !in Text.Join(cells, '|') && '\r' !in Text.Join(cells, '|')
  {
    if |cells| > 1 {
      JoinPlain(cells[1..]);
    }
  }

  /** A joined line of plain cells is a line of its own. */
  lemma JoinedLine(cells: seq<string>)
    requires |cells| > 0 && PlainCells(cells)
    ensures '\n' !in Text.Join(cells, '|')
    ensures Text.StripCR(Text.Join(cells, '|')) == Text.Join(cells, '|')
  {
    JoinPlain(cells);
    var line := Text.Join(cells, '|');
    if |line| > 0 {
      assert line[|line| - 1] in line;
    }
  }

  /** A joined line of plain cells splits back into its cells. */
  lemma JoinedFields(cells: seq<string>)
    requires |cells| > 0 && PlainCells(cells)
    ensures Text.Split(Text.Join(cells, '|'), '|') == cells
  {
    Text.SplitJoin(cells, '|');
  }

  /**
    A printed table is read back: the header is recovered and each row's
    result is the parse of that row's fields, in order.
  */
  lemma TableLines(header: seq<string>, rows: seq<seq<string>>)
    requires |header| > 0 && PlainCells(header)
    requires forall j :: 0 <= j < |rows| ==> |rows[j]| > 0 && PlainCells(rows[j])
    ensures Text.Lines(Table(header, rows)) == Printed(header, rows)
  {
    var lines := Printed(header, rows);
    forall i | 0 <= i < |lines| ensures '\n' !in lines[i] && Text.StripCR(lines[i]) == lines[i] {
      if i == 0 {
        JoinedLine(header);
      } else {
        JoinedLine(rows[i - 1]);
      }
    }
    Text.LinesOfTerminated(lines);
  }

  /**
    Round trip: parsing a printed table with distinct column names gives
    the header back, and every row with no more fields than columns maps
    column `i` to its field `i`; a longer row is an error, and only that
    row is.
  */
  lemma TableRoundTrip(header: seq<string>, rows: seq<seq<string>>, j: nat, i: nat)
    requires |header| > 0 && PlainCells(header)
    requires forall a, b :: 0 <= a < b < |header| ==> header[a] != header[b]
    requires forall k :: 0 <= k < |rows| ==> |rows[k]| > 0 && PlainCells(rows[k])
    requires j < |rows|
    ensures SacctCsvlike(Table(header, rows)).Ok?
    ensures SacctCsvlike(Table(header, rows)).value.0 == header
    ensures |SacctCsvlike(Table(header, rows)).value.1| == |rows|
    ensures SacctCsvlike(Table(header, rows)).value.1[j].Err? <==> |rows[j]| > |header|
    ensures SacctCsvlike(Table(header, rows)).value.1[j].Ok? && i < |rows[j]| ==>
              header[i] in SacctCsvlike(Table(header, rows)).value.1[j].value
              && SacctCsvlike(Table(header, rows)).value.1[j].value[header[i]] == rows[j][i]
  {
    TableLines(header, rows);
    var lines := Text.Lines(Table(header, rows));
    JoinedFields(header);
    JoinedFields(rows[j]);
    assert lines[j + 1] == Text.Join(rows[j], '|');
    var r := SacctCsvlike(Table(header, rows));
    if r.value.1[j].Ok? && i < |rows[j]| {
      RowValues(header, j, lines[j + 1], i);
    }
  }

  // ---------------------------------------------------------------------
  // FileSize
  // ---------------------------------------------------------------------

  /** `FileSize(usize)`: a size in bytes. */
  datatype FileSize = FileSize(bytes: nat)

  /** `as_bytes`. */
  function AsBytes(size: FileSize): nat {
    size.bytes
  }

  /** The binary units `from_bytes` .. `from_pib` scale by: 1024 to the power of the exponent. */
  datatype Scale = Bytes | Kib | Mib | Gib | Tib | Pib

  function Exponent(s: Scale): nat {
    match s
    case Bytes => 0
    case Kib => 1
    case Mib => 2
    case Gib => 3
    case Tib => 4
    case Pib => 5
  }

  function Pow1024(e: nat): (p: nat)
    ensures p >= 1
  {
    if e == 0 then 1 else 1024 * Pow1024(e - 1)
  }

  function Factor(s: Scale): nat {
    Pow1024(Exponent(s))
  }

  /**
    Why parsing gives no size: `Empty` and `InvalidInt` are the error enum's
    variants; `Overflow` is the panic of the `usize` multiplication in
    `from_kib` .. `from_pib` (a build with overflow checks).
  */
  datatype SizeFailure = Empty | InvalidInt | Overflow

  /** `from_bytes`: the size of `val` bytes, read back by `as_bytes`. */
  function FromBytes(val: nat): (size: FileSize)
    ensures AsBytes(size) == val
  {
    FileSize(val)
  }

  /**
    `from_bytes`, `from_kib`, .. `from_pib`: `val` units in bytes, or the
    overflow panic when that exceeds `usize::MAX`.
  */
  function FromScaled(val: nat, s: Scale): (r: Result<FileSize, SizeFailure>)
    requires val <= Text.USIZE_MAX
    ensures r.Ok? <==> val * Factor(s) <= Text.USIZE_MAX
    ensures r.Ok? ==> AsBytes(r.value) == val * Factor(s)
    ensures r.Err? ==> r.error == Overflow && s != Bytes
    ensures s == Bytes ==> r == Ok(FromBytes(val))
  {
    if val * Factor(s) <= Text.USIZE_MAX then Ok(FileSize(val * Factor(s))) else Err(Overflow)
  }

  /** The suffix characters `parse` recognises. */
  function ScaleOf(c: char): (r: Option<Scale>)
    ensures r.Some? <==> c in "KMGTP"
    ensures r.Some? ==> r.value != Bytes
  {
    match c
    case 'K' => Some(Kib)
    case 'M' => Some(Mib)
    case 'G' => Some(Gib)
    case 'T' => Some(Tib)
    case 'P' => Some(Pib)
    case _ => None
  }

  /** How a scale is written after the number. */
  function SuffixOf(s: Scale): (suffix: string)
    ensures s == Bytes <==> suffix == ""
  {
    match s
    case Bytes => ""
    case Kib => "K"
    case Mib => "M"
    case Gib => "G"
    case Tib => "T"
    case Pib => "P"
  }

  /** The number part read as a `usize` and scaled; `from_str` failing is `InvalidInt`. */
  function ParseNumber(number: string, s: Scale): (r: Result<FileSize, SizeFailure>)
    ensures r != Err(Empty)
    ensures r.Ok? ==> AsBytes(r.value) <= Text.USIZE_MAX
  {
    match Text.ParseUsize(number)
    case None => Err(InvalidInt)
    case Some(v) => FromScaled(v, s)
  }

  /**
    The match on the last character of the trimmed input: none is `Empty`;
    a final `K`, `M`, `G`, `T` or `P` is dropped and scales the number in
    front of it; any other text is a number of bytes as a whole.
  */
  function ParseTrimmed(t: string): (r: Result<FileSize, SizeFailure>)
    ensures r == Err(Empty) <==> t == []
    ensures r.Ok? ==> AsBytes(r.value) <= Text.USIZE_MAX
  {
    if t == [] then Err(Empty)
    else
      match ScaleOf(t[|t| - 1])
      case Some(s) => ParseNumber(t[..|t| - 1], s)
      case None => ParseNumber(t, Bytes)
  }

  /** `FileSize::parse`: the input is trimmed first. */
  function ParseFileSize(input: string): (r: Result<FileSize, SizeFailure>)
    ensures r == Err(Empty) <==> Text.Trim(input) == []
    ensures r.Ok? ==> AsBytes(r.value) <= Text.USIZE_MAX
  {
    ParseTrimmed(Text.Trim(input))
  }

  /** Surrounding whitespace does not matter: parsing a trimmed text is parsing the text. */
  lemma ParseIgnoresTrim(input: string)
    ensures ParseFileSize(Text.Trim(input)) == ParseFileSize(input)
  {
    Text.TrimIdempotent(input);
  }

  /** A text with no whitespace at either end. */
  predicate Bare(t: string) {
    t != [] && !Text.IsWhitespace(t[0]) && !Text.IsWhitespace(t[|t| - 1])
  }

  /** A bare text has nothing to trim. */
  lemma TrimBare(t: string)
    requires Bare(t)
    ensures Text.Trim(t) == t
  {
    assert Text.TrimStart(t) == t;
  }

  /** Each suffix is recognised as its own scale. */
  lemma ScaleOfSuffix(s: Scale)
    requires s != Bytes
    ensures |SuffixOf(s)| == 1 && ScaleOf(SuffixOf(s)[0]) == Some(s)
  {
  }

  /** A suffixed size: the number in front of the suffix is scaled by it. */
  lemma ParseSuffixed(t: string, digits: string, s: Scale, v: nat)
    requires Bare(t) && t == digits + SuffixOf(s) && s != Bytes
    requires Text.ParseUsize(digits) == Some(v)
    ensures ParseFileSize(t) == FromScaled(v, s)
  {
    TrimBare(t);
    ScaleOfSuffix(s);
    assert t[|t| - 1] == SuffixOf(s)[0];
    assert t[..|t| - 1] == digits;
  }

  /** Without a known suffix, the whole text is the number of bytes. */
  lemma ParseUnsuffixed(t: string, v: nat)
    requires Bare(t) && ScaleOf(t[|t| - 1]).None?
    requires Text.ParseUsize(t) == Some(v)
    ensures ParseFileSize(t) == Ok(FileSize(v))
  {
    TrimBare(t);
  }

  /**
    Without a known suffix, a character that is neither a digit nor a
    leading `+` makes the text no `usize`.
  */
  lemma UnsuffixedRejected(t: string, k: nat)
    requires Bare(t) && ScaleOf(t[|t| - 1]).None?
    requires k < |t| && !Text.IsDigit(t[k]) && t[k] != '+'
    ensures ParseFileSize(t) == Err(InvalidInt)
  {
    TrimBare(t);
  }

  /** Decimal digits have no whitespace at either end and no suffix. */
  lemma DigitsBare(t: string)
    requires t != [] && Text.AllDigits(t)
    ensures Bare(t) && ScaleOf(t[|t| - 1]).None?
  {
    assert Text.IsDigit(t[0]) && Text.IsDigit(t[|t| - 1]);
  }

  /** Round trip: a number of bytes written in decimal parses to itself. */
  lemma BytesRoundTrip(n: nat)
    requires n <= Text.USIZE_MAX
    ensures ParseFileSize(Text.NatToString(n)) == Ok(FileSize(n))
  {
    var t := Text.NatToString(n);
    DigitsBare(t);
    Text.ParseIntOfNatToString(n, false, 0, Text.USIZE_MAX);
    ParseUnsuffixed(t, n);
  }

  /**
    Round trip: `n` units written with their suffix parse to what
    `from_kib` .. `from_pib` make of `n`: `n` times the unit, or the
    overflow panic when that exceeds `usize::MAX`.
  */
  lemma ScaledRoundTrip(n: nat, s: Scale)
    requires n <= Text.USIZE_MAX && s != Bytes
    ensures ParseFileSize(Text.NatToString(n) + SuffixOf(s)) == FromScaled(n, s)
  {
    var digits := Text.NatToString(n);
    var t := digits + SuffixOf(s);
    assert Bare(t) by {
      assert Text.IsDigit(t[0]);
      assert t[|t| - 1] in "KMGTP";
    }
    Text.ParseIntOfNatToString(n, false, 0, Text.USIZE_MAX);
    ParseSuffixed(t, digits, s, n);
  }

  /** The number ten, written and read. */
  lemma Ten()
    ensures Text.NatToString(10) == "10"
    ensures Text.ParseUsize("10") == Some(10)
  {
    Text.ParseIntOfNatToString(10, false, 0, Text.USIZE_MAX);
  }

  /** A number of bytes with no suffix is read as is (`parse("10").as_bytes() == 10`). */
  lemma BytesExample()
    ensures ParseFileSize("10").Ok? && AsBytes(ParseFileSize("10").value) == 10
  {
    Ten();
    ParseUnsuffixed("10", 10);
  }

  /** Ten of each binary unit. */
  lemma KibExample()
    ensures ParseFileSize("10K") == Ok(FileSize(10 * 1024))
  {
    Ten();
    ParseSuffixed("10K", "10", Kib, 10);
  }

  lemma MibExample()
    ensures ParseFileSize("10M") == Ok(FileSize(10 * 1024 * 1024))
  {
    Ten();
    ParseSuffixed("10M", "10", Mib, 10);
  }

  lemma GibExample()
    ensures ParseFileSize("10G") == Ok(FileSize(10 * 1024 * 1024 * 1024))
  {
    Ten();
    ParseSuffixed("10G", "10", Gib, 10);
  }

  lemma TibExample()
    ensures ParseFileSize("10T") == Ok(FileSize(10 * 1024 * 1024 * 1024 * 1024))
  {
    Ten();
    ParseSuffixed("10T", "10", Tib, 10);
  }

  lemma PibExample()
    ensures ParseFileSize("10P") == Ok(FileSize(10 * 1024 * 1024 * 1024 * 1024 * 1024))
  {
    Ten();
    ParseSuffixed("10P", "10", Pib, 10);
  }

  /** An unknown suffix, a sign and a decimal point are not a `usize`. */
  lemma UnknownSuffixExample()
    ensures ParseFileSize("10X") == Err(InvalidInt)
  {
    UnsuffixedRejected("10X", 2);
  }

  lemma NegativeExample()
    ensures ParseFileSize("-321") == Err(InvalidInt)
  {
    UnsuffixedRejected("-321", 0);
  }

  lemma FloatExample()
    ensures ParseFileSize("42.1337") == Err(InvalidInt)
  {
    UnsuffixedRejected("42.1337", 2);
  }

  /** Whitespace alone is `Empty`. */
  lemma WhitespaceExample()
    ensures ParseFileSize(" \t\n") == Err(Empty)
  {
    assert Text.TrimStart(" \t\n") == [];
  }
}
