/**
  The parts of Rust's `str` and integer-parsing API that the collector,
  backend, API and front end rely on: `lines`, `split`, `splitn(2, _)`,
  `split_whitespace`, `trim`, `replace`, `u32`/`usize`/`i64` `from_str`, and
  the decimal `Display` of unsigned integers. Strings are sequences of Unicode
  scalar values, as Rust's `char`s are.
*/
module Text {
  import opened Wrappers

  const U32_MAX: int := 0xFFFF_FFFF
  const U64_MAX: int := 0xFFFF_FFFF_FFFF_FFFF
  /** `usize` on the 64-bit targets the collector runs on. */
  const USIZE_MAX: int := U64_MAX
  const I64_MAX: int := 0x7FFF_FFFF_FFFF_FFFF
  const I64_MIN: int := -0x8000_0000_0000_0000

  /** Rust's `char::is_whitespace`: the Unicode White_Space property. */
  predicate IsWhitespace(c: char) {
    ('\t' <= c <= '\r') || c == ' ' || c == '\U{85}' || c == '\U{A0}' || c == '\U{1680}'
    || ('\U{2000}' <= c <= '\U{200A}') || c == '\U{2028}' || c == '\U{2029}'
    || c == '\U{202F}' || c == '\U{205F}' || c == '\U{3000}'
  }

  predicate IsDigit(c: char) {
    '0' <= c <= '9'
  }

  predicate AllDigits(s: string) {
    forall i :: 0 <= i < |s| ==> IsDigit(s[i])
  }

  function DigitChar(d: nat): (c: char)
    requires d < 10
    ensures IsDigit(c) && c as int - '0' as int == d
  {
    ('0' as int + d) as char
  }

  /** The value of a string of decimal digits, most significant first. */
  function DigitsValue(s: string): nat
    requires AllDigits(s)
  {
    if s == [] then 0 else 10 * DigitsValue(s[..|s| - 1]) + (s[|s| - 1] as int - '0' as int)
  }

  /** The decimal rendering of an unsigned integer (`Display` for `u32`/`usize`). */
  function NatToString(n: nat): (s: string)
    ensures 0 < |s| && AllDigits(s)
    ensures s[0] == '0' ==> n == 0
  {
    if n < 10 then [DigitChar(n)] else NatToString(n / 10) + [DigitChar(n % 10)]
  }

  /** Reading back a rendered number gives the number. */
  lemma {:induction false} DigitsValueOfNatToString(n: nat)
    ensures DigitsValue(NatToString(n)) == n
  {
    if n >= 10 {
      var s := NatToString(n);
      assert s[..|s| - 1] == NatToString(n / 10);
      DigitsValueOfNatToString(n / 10);
    }
  }

  /** Distinct numbers are rendered as distinct strings. */
  lemma NatToStringInjective(a: nat, b: nat)
    requires NatToString(a) == NatToString(b)
    ensures a == b
  {
    DigitsValueOfNatToString(a);
    DigitsValueOfNatToString(b);
  }

  /**
    Rust's `from_str` for the primitive integer types: an optional `+` (or
    `-` for signed types) followed by at least one ASCII digit and nothing
    else, whose value lies in `[lo, hi]`. `None` is Rust's `ParseIntError`.
  */
  function ParseInt(s: string, signed: bool, lo: int, hi: int): (r: Option<int>)
    ensures r.Some? ==> lo <= r.value <= hi
    ensures r.Some? ==> s != [] && (IsDigit(s[0]) || s[0] == '+' || (signed && s[0] == '-'))
  {
    if s == [] then None
    else if (s[0] == '+' || s[0] == '-') && |s| == 1 then None
    else
      var negative := signed && s[0] == '-';
      var digits := if s[0] == '+' || negative then s[1..] else s;
      if !AllDigits(digits) then None
      else
        var v := if negative then -(DigitsValue(digits) as int) else DigitsValue(digits);
        if lo <= v <= hi then Some(v) else None
  }

  function ParseU32(s: string): Option<int> { ParseInt(s, false, 0, U32_MAX) }
  function ParseUsize(s: string): Option<int> { ParseInt(s, false, 0, USIZE_MAX) }
  function ParseI64(s: string): Option<int> { ParseInt(s, true, I64_MIN, I64_MAX) }

  /** `from_str` reads back every in-range rendering produced by `Display`. */
  lemma ParseIntOfNatToString(n: nat, signed: bool, lo: int, hi: int)
    requires lo <= n <= hi
    ensures ParseInt(NatToString(n), signed, lo, hi) == Some(n)
  {
    DigitsValueOfNatToString(n);
  }

  /** Unsigned parsing rejects any sign but `+`, and any non-digit. */
  lemma ParseUnsignedShape(s: string, lo: int, hi: int)
    requires ParseInt(s, false, lo, hi).Some?
    ensures s[0] == '+' ==> |s| > 1 && AllDigits(s[1..])
    ensures s[0] != '+' ==> AllDigits(s)
  {
  }

  // ---------------------------------------------------------------------
  // split(char) and its inverse
  // ---------------------------------------------------------------------

  /** Joins the pieces with `sep` between consecutive pieces. */
  function Join(parts: seq<string>, sep: char): string
    requires |parts| > 0
  {
    if |parts| == 1 then parts[0] else parts[0] + [sep] + Join(parts[1..], sep)
  }

  /** `s.split(sep)`: the maximal `sep`-free pieces, empty ones included. */
  function Split(s: string, sep: char): (parts: seq<string>)
    ensures |parts| > 0
  {
    if s == [] then [""]
    else
      var rest := Split(s[1..], sep);
      if s[0] == sep then [""] + rest else [[s[0]] + rest[0]] + rest[1..]
  }

  lemma {:induction false} SplitPiecesFree(s: string, sep: char)
    ensures forall i :: 0 <= i < |Split(s, sep)| ==> sep !in Split(s, sep)[i]
  {
    if s != [] {
      SplitPiecesFree(s[1..], sep);
    }
  }

  /** Joining the pieces of a split gives back the input. */
  lemma {:induction false} JoinSplit(s: string, sep: char)
    ensures Join(Split(s, sep), sep) == s
  {
    if s != [] {
      var rest := Split(s[1..], sep);
      JoinSplit(s[1..], sep);
      if s[0] != sep {
        if |rest| == 1 {
          assert Split(s, sep) == [[s[0]] + rest[0]];
        } else {
          assert Split(s, sep) == [[s[0]] + rest[0]] + rest[1..];
          assert Split(s, sep)[1..] == rest[1..];
        }
      } else {
        assert Split(s, sep)[1..] == rest;
      }
    }
  }

  /** Splitting a join of `sep`-free pieces gives back the pieces. */
  lemma {:induction false} SplitJoin(parts: seq<string>, sep: char)
    requires |parts| > 0
    requires forall i :: 0 <= i < |parts| ==> sep !in parts[i]
    ensures Split(Join(parts, sep), sep) == parts
  {
    if |parts| == 1 {
      SplitPiece(parts[0], [], sep);
      assert parts[0] + [] == parts[0];
      assert Split([], sep) == [""];
    } else {
      SplitJoin(parts[1..], sep);
      var tail := Join(parts[1..], sep);
      assert Join(parts, sep) == parts[0] + ([sep] + tail);
      SplitPiece(parts[0], [sep] + tail, sep);
      var pieces := Split([sep] + tail, sep);
      assert pieces == [""] + Split(tail, sep) by {
        assert ([sep] + tail)[1..] == tail;
      }
      assert pieces[0] == "" && pieces[1..] == parts[1..];
      assert parts[0] + pieces[0] == parts[0];
      assert parts == [parts[0]] + parts[1..];
    }
  }

  /** A `sep`-free prefix joins the first piece of what follows it. */
  lemma {:induction false} SplitPiece(w: string, t: string, sep: char)
    requires sep !in w
    ensures Split(w + t, sep) == [w + Split(t, sep)[0]] + Split(t, sep)[1..]
  {
    if w != [] {
      assert (w + t)[1..] == w[1..] + t;
      SplitPiece(w[1..], t, sep);
      var rest := Split(w[1..] + t, sep);
      assert rest[0] == w[1..] + Split(t, sep)[0];
      assert rest[1..] == Split(t, sep)[1..];
      assert [w[0]] + (w[1..] + Split(t, sep)[0]) == w + Split(t, sep)[0];
    } else {
      assert w + t == t;
      assert w + Split(t, sep)[0] == Split(t, sep)[0];
      assert Split(t, sep) == [Split(t, sep)[0]] + Split(t, sep)[1..];
    }
  }

  /** A text without `sep` is a single piece. */
  lemma SplitWithoutSep(s: string, sep: char)
    requires sep !in s
    ensures Split(s, sep) == [s]
  {
    SplitJoin([s], sep);
  }

  /** `s.splitn(2, sep)`: the text before the first `sep` and the rest, or `[s]`. */
  function SplitN2(s: string, sep: char): (parts: seq<string>)
    ensures 1 <= |parts| <= 2
    ensures |parts| == 1 <==> sep !in s
    ensures |parts| == 1 ==> parts[0] == s
    ensures |parts| == 2 ==> sep !in parts[0] && s == parts[0] + [sep] + parts[1]
  {
    var pieces := Split(s, sep);
    SplitPiecesFree(s, sep);
    JoinSplit(s, sep);
    if |pieces| == 1 then [s] else [pieces[0], Join(pieces[1..], sep)]
  }

  // ---------------------------------------------------------------------
  // lines()
  // ---------------------------------------------------------------------

  /** Drops one trailing carriage return. */
  function StripCR(line: string): string {
    if |line| > 0 && line[|line| - 1] == '\r' then line[..|line| - 1] else line
  }

  /**
    `s.lines()`: pieces between `\n`s; a piece followed by `\n` loses one
    trailing `\r`; the piece after a final `\n` (or of an empty input) is
    not a line.
  */
  function Lines(s: string): (lines: seq<string>)
  {
    LinesOfPieces(Split(s, '\n'))
  }

  /** The lines of the `\n`-separated pieces of a text. */
  function LinesOfPieces(parts: seq<string>): seq<string>
    requires |parts| > 0
  {
    if |parts| == 1 then (if parts[0] == "" then [] else [parts[0]])
    else [StripCR(parts[0])] + LinesOfPieces(parts[1..])
  }

  /** No line contains a line feed; an input without `\n` is one line or none. */
  lemma LinesShape(s: string)
    ensures forall i :: 0 <= i < |Lines(s)| ==> '\n' !in Lines(s)[i]
    ensures '\n' !in s ==> Lines(s) == (if s == "" then [] else [s])
  {
    SplitPiecesFree(s, '\n');
    LinesOfFreePieces(Split(s, '\n'));
    if '\n' !in s {
      SplitWithoutSep(s, '\n');
    }
  }

  lemma {:induction false} LinesOfFreePieces(parts: seq<string>)
    requires |parts| > 0
    requires forall i :: 0 <= i < |parts| ==> '\n' !in parts[i]
    ensures forall i :: 0 <= i < |LinesOfPieces(parts)| ==> '\n' !in LinesOfPieces(parts)[i]
  {
    if |parts| > 1 {
      LinesOfFreePieces(parts[1..]);
      var line := parts[0];
      if |line| > 0 && line[|line| - 1] == '\r' {
        assert forall k :: 0 <= k < |line| - 1 ==> StripCR(line)[k] == line[k];
      }
    }
  }

  /** Every line terminated by `\n`, as a text file holds them. */
  function Terminated(lines: seq<string>): string {
    if lines == [] then "" else lines[0] + "\n" + Terminated(lines[1..])
  }

  lemma {:induction false} TerminatedIsJoin(lines: seq<string>)
    ensures Terminated(lines) == Join(lines + [""], '\n')
  {
    if lines != [] {
      TerminatedIsJoin(lines[1..]);
      assert (lines + [""])[1..] == lines[1..] + [""];
    }
  }

  /** `lines()` recovers the lines of a text whose every line ends in `\n`. */
  lemma LinesOfTerminated(lines: seq<string>)
    requires forall i :: 0 <= i < |lines| ==> '\n' !in lines[i] && StripCR(lines[i]) == lines[i]
    ensures Lines(Terminated(lines)) == lines
  {
    SplitTerminated(lines);
    LinesOfPiecesTerminated(lines);
  }

  lemma SplitTerminated(lines: seq<string>)
    requires forall i :: 0 <= i < |lines| ==> '\n' !in lines[i]
    ensures Split(Terminated(lines), '\n') == lines + [""]
  {
    TerminatedIsJoin(lines);
    var parts := lines + [""];
    assert forall i :: 0 <= i < |parts| ==> '\n' !in parts[i];
    SplitJoin(parts, '\n');
  }

  lemma {:induction false} LinesOfPiecesTerminated(lines: seq<string>)
    requires forall i :: 0 <= i < |lines| ==> StripCR(lines[i]) == lines[i]
    ensures LinesOfPieces(lines + [""]) == lines
  {
    if lines != [] {
      assert (lines + [""])[1..] == lines[1..] + [""];
      LinesOfPiecesTerminated(lines[1..]);
      assert lines == [lines[0]] + lines[1..];
    }
  }

  // ---------------------------------------------------------------------
  // trim() and split_whitespace()
  // ---------------------------------------------------------------------

  /** `s.trim_start()`: the suffix after the leading whitespace. */
  function TrimStart(s: string): (r: string)
    ensures |r| <= |s| && r == s[|s| - |r|..]
    ensures forall i :: 0 <= i < |s| - |r| ==> IsWhitespace(s[i])
    ensures r == [] || !IsWhitespace(r[0])
  {
    s[LeadingSpace(s)..]
  }

  /** Length of the leading run of whitespace. */
  function LeadingSpace(s: string): (n: nat)
    ensures n <= |s|
    ensures forall i :: 0 <= i < n ==> IsWhitespace(s[i])
    ensures n < |s| ==> !IsWhitespace(s[n])
  {
    if |s| > 0 && IsWhitespace(s[0]) then 1 + LeadingSpace(s[1..]) else 0
  }

  /** `s.trim_end()`: the prefix before the trailing whitespace. */
  function TrimEnd(s: string): (r: string)
    ensures |r| <= |s| && r == s[..|r|]
    ensures forall i :: |r| <= i < |s| ==> IsWhitespace(s[i])
    ensures r == [] || !IsWhitespace(r[|r| - 1])
  {
    s[..|s| - TrailingSpace(s)]
  }

  /** Length of the trailing run of whitespace. */
  function TrailingSpace(s: string): (n: nat)
    ensures n <= |s|
    ensures forall i :: |s| - n <= i < |s| ==> IsWhitespace(s[i])
    ensures n < |s| ==> !IsWhitespace(s[|s| - n - 1])
  {
    if |s| > 0 && IsWhitespace(s[|s| - 1]) then 1 + TrailingSpace(s[..|s| - 1]) else 0
  }

  /** `s.trim()`. */
  function Trim(s: string): (r: string)
  {
    TrimEnd(TrimStart(s))
  }

  /**
    What `trim` returns: a contiguous piece of the input with only whitespace
    around it and no whitespace at either end.
  */
  lemma TrimSpec(s: string)
    ensures var a := |s| - |TrimStart(s)|;
      && a + |Trim(s)| <= |s| && Trim(s) == s[a..a + |Trim(s)|]
      && (forall i :: 0 <= i < a ==> IsWhitespace(s[i]))
      && (forall i :: a + |Trim(s)| <= i < |s| ==> IsWhitespace(s[i]))
    ensures Trim(s) == [] || (!IsWhitespace(Trim(s)[0]) && !IsWhitespace(Trim(s)[|Trim(s)| - 1]))
  {
    TrimmedSlice(s, |s| - |TrimStart(s)|, TrimStart(s), Trim(s));
  }

  /**
    The two halves of `trim` put together: whitespace is cut from the front
    of `s` to give `t`, then from the back of `t` to give `u`.
  */
  lemma TrimmedSlice(s: string, a: nat, t: string, u: string)
    requires a <= |s| && t == s[a..] && (forall i :: 0 <= i < a ==> IsWhitespace(s[i]))
    requires t == [] || !IsWhitespace(t[0])
    requires |u| <= |t| && u == t[..|u|] && (forall i :: |u| <= i < |t| ==> IsWhitespace(t[i]))
    requires u == [] || !IsWhitespace(u[|u| - 1])
    ensures a + |u| <= |s| && u == s[a..a + |u|]
    ensures forall i :: a + |u| <= i < |s| ==> IsWhitespace(s[i])
    ensures u == [] || (!IsWhitespace(u[0]) && !IsWhitespace(u[|u| - 1]))
  {
    forall i | a + |u| <= i < |s| ensures IsWhitespace(s[i]) {
      assert s[i] == t[i - a];
    }
    if u != [] {
      assert u[0] == t[0];
    }
  }

  /** Trimming twice is trimming once. */
  lemma TrimIdempotent(s: string)
    ensures Trim(Trim(s)) == Trim(s)
  {
    var r := Trim(s);
    if r != [] {
      assert !IsWhitespace(r[0]);
      assert TrimStart(r) == r;
      assert !IsWhitespace(r[|r| - 1]);
      assert TrimEnd(r) == r;
    } else {
      assert TrimStart(r) == [] && TrimEnd([]) == [];
    }
  }

  /** Length of the leading run of non-whitespace characters. */
  function TokenLength(s: string): (n: nat)
    ensures n <= |s|
    ensures forall i :: 0 <= i < n ==> !IsWhitespace(s[i])
    ensures n < |s| ==> IsWhitespace(s[n])
  {
    if s == [] || IsWhitespace(s[0]) then 0 else 1 + TokenLength(s[1..])
  }

  /** `s.split_whitespace()`: the maximal runs of non-whitespace characters. */
  function SplitWhitespace(s: string): (tokens: seq<string>)
    ensures forall i :: 0 <= i < |tokens| ==> tokens[i] != [] && NoWhitespace(tokens[i])
    decreases |s|
  {
    var t := TrimStart(s);
    if t == [] then []
    else
      var n := TokenLength(t);
      var rest := SplitWhitespace(t[n..]);
      LeadingToken(t);
      WordsCons(t[..n], rest);
      [t[..n]] + rest
  }

  /** The leading run of a string that does not start with whitespace is a word. */
  lemma LeadingToken(t: string)
    requires t != [] && !IsWhitespace(t[0])
    ensures 0 < TokenLength(t) && NoWhitespace(t[..TokenLength(t)])
  {
    var n := TokenLength(t);
    forall i | 0 <= i < n ensures !IsWhitespace(t[..n][i]) {
      assert t[..n][i] == t[i];
    }
  }

  /** A word in front of words gives words. */
  lemma WordsCons(w: string, rest: seq<string>)
    requires w != [] && NoWhitespace(w)
    requires forall i :: 0 <= i < |rest| ==> rest[i] != [] && NoWhitespace(rest[i])
    ensures forall i :: 0 <= i < |[w] + rest| ==> ([w] + rest)[i] != [] && NoWhitespace(([w] + rest)[i])
  {
    forall i | 0 <= i < |[w] + rest| ensures ([w] + rest)[i] != [] && NoWhitespace(([w] + rest)[i]) {
      if i > 0 {
        assert ([w] + rest)[i] == rest[i - 1];
      }
    }
  }

  predicate NoWhitespace(s: string) {
    forall i :: 0 <= i < |s| ==> !IsWhitespace(s[i])
  }

  /** A rendered number is one word. */
  lemma NatToStringIsWord(n: nat)
    ensures NatToString(n) != [] && NoWhitespace(NatToString(n))
  {
    var s := NatToString(n);
    forall i | 0 <= i < |s| ensures !IsWhitespace(s[i]) {
      assert IsDigit(s[i]);
    }
  }

  /** Tokens separated by single spaces. */
  function Unwords(tokens: seq<string>): string {
    if tokens == [] then "" else if |tokens| == 1 then tokens[0] else tokens[0] + " " + Unwords(tokens[1..])
  }

  /** `split_whitespace` recovers space-separated tokens. */
  lemma {:induction false} SplitWhitespaceUnwords(tokens: seq<string>)
    requires forall i :: 0 <= i < |tokens| ==> tokens[i] != [] && NoWhitespace(tokens[i])
    ensures SplitWhitespace(Unwords(tokens)) == tokens
  {
    if tokens == [] {
      SplitWhitespaceEmpty();
    } else if |tokens| == 1 {
      SplitWhitespaceOneWord(tokens[0]);
      assert tokens == [tokens[0]];
    } else {
      var tail := tokens[1..];
      SplitWhitespaceUnwords(tail);
      UnwordsCons(tokens[0], tail);
      assert tokens == [tokens[0]] + tail;
    }
  }

  /** A single word is its only token. */
  lemma SplitWhitespaceOneWord(w: string)
    requires w != [] && NoWhitespace(w)
    ensures SplitWhitespace(w) == [w]
  {
    WholeToken(w);
    SplitWhitespaceStep(w, |w|);
    assert w[..|w|] == w && w[|w|..] == [];
    SplitWhitespaceEmpty();
  }

  /** One step of `split_whitespace` on a string that starts with a token. */
  lemma SplitWhitespaceStep(s: string, n: nat)
    requires s != [] && !IsWhitespace(s[0]) && n == TokenLength(s)
    ensures SplitWhitespace(s) == [s[..n]] + SplitWhitespace(s[n..])
  {
    assert TrimStart(s) == s;
  }

  lemma {:induction false} WholeToken(w: string)
    requires NoWhitespace(w)
    ensures TokenLength(w) == |w|
  {
    if w != [] {
      assert NoWhitespace(w[1..]) by {
        forall i | 0 <= i < |w| - 1 ensures !IsWhitespace(w[1..][i]) {
          assert w[1..][i] == w[i + 1];
        }
      }
      WholeToken(w[1..]);
    }
  }

  lemma SplitWhitespaceEmpty()
    ensures SplitWhitespace([]) == []
  {
    assert TrimStart([]) == [];
  }

  lemma UnwordsCons(w: string, tail: seq<string>)
    requires w != [] && NoWhitespace(w) && tail != []
    requires SplitWhitespace(Unwords(tail)) == tail
    ensures SplitWhitespace(Unwords([w] + tail)) == [w] + tail
  {
    var rest := Unwords(tail);
    SplitWhitespaceSkip(rest);
    var spaced := " " + rest;
    assert IsWhitespace(spaced[0]);
    UnwordsUnfold(w, tail);
    SplitWhitespaceWord(w, spaced);
  }

  lemma UnwordsUnfold(w: string, tail: seq<string>)
    requires tail != []
    ensures Unwords([w] + tail) == w + (" " + Unwords(tail))
  {
    var ts := [w] + tail;
    assert |ts| > 1 && ts[0] == w && ts[1..] == tail;
  }

  /** A word followed by whitespace (or nothing) is the first token. */
  lemma SplitWhitespaceWord(w: string, t: string)
    requires w != [] && NoWhitespace(w)
    requires t == [] || IsWhitespace(t[0])
    ensures SplitWhitespace(w + t) == [w] + SplitWhitespace(t)
  {
    var s := w + t;
    TokenLengthOfWord(w, t);
    assert s[0] == w[0];
    assert TrimStart(s) == s;
    assert SplitWhitespace(s) == [s[..|w|]] + SplitWhitespace(s[|w|..]);
  }

  /** A leading space is skipped. */
  lemma SplitWhitespaceSkip(t: string)
    ensures SplitWhitespace(" " + t) == SplitWhitespace(t)
  {
    assert (" " + t)[1..] == t;
    assert TrimStart(" " + t) == TrimStart(t);
  }

  lemma {:induction false} TokenLengthOfWord(w: string, t: string)
    requires NoWhitespace(w)
    requires t == [] || IsWhitespace(t[0])
    ensures TokenLength(w + t) == |w| && (w + t)[..|w|] == w && (w + t)[|w|..] == t
  {
    if w != [] {
      assert (w + t)[1..] == w[1..] + t;
      TokenLengthOfWord(w[1..], t);
    } else {
      assert w + t == t;
    }
  }

  // ---------------------------------------------------------------------
  // replace()
  // ---------------------------------------------------------------------

  /** `s.replace(c, with)` for a one-character pattern. */
  function Replace(s: string, c: char, with: string): string {
    if s == [] then [] else (if s[0] == c then with else [s[0]]) + Replace(s[1..], c, with)
  }

  /** With a one-character replacement, every `c` is swapped and nothing else moves. */
  lemma {:induction false} ReplaceWithChar(s: string, c: char, d: char)
    ensures |Replace(s, c, [d])| == |s|
    ensures forall i :: 0 <= i < |s| ==> Replace(s, c, [d])[i] == (if s[i] == c then d else s[i])
  {
    if s != [] {
      ReplaceWithChar(s[1..], c, d);
      var r := Replace(s, c, [d]);
      assert r == [if s[0] == c then d else s[0]] + Replace(s[1..], c, [d]);
      forall i | 0 <= i < |s| ensures r[i] == (if s[i] == c then d else s[i]) {
        if i > 0 {
          assert r[i] == Replace(s[1..], c, [d])[i - 1];
        }
      }
    }
  }

  /** Removing `c` keeps every other character, in order. */
  lemma {:induction false} ReplaceRemoves(s: string, c: char)
    ensures c !in Replace(s, c, "")
    ensures c !in s ==> Replace(s, c, "") == s
    ensures |Replace(s, c, "")| <= |s|
  {
    if s != [] {
      ReplaceRemoves(s[1..], c);
      if c !in s {
        assert c !in s[1..];
        assert s == [s[0]] + s[1..];
      }
    }
  }

  /** `replace` works piece by piece. */
  lemma {:induction false} ReplaceAppend(a: string, b: string, c: char, with: string)
    ensures Replace(a + b, c, with) == Replace(a, c, with) + Replace(b, c, with)
  {
    if a == [] {
      assert a + b == b;
    } else {
      assert (a + b)[0] == a[0] && (a + b)[1..] == a[1..] + b;
      ReplaceAppend(a[1..], b, c, with);
    }
  }

  /** Removing the commas of a word followed by a comma gives the word. */
  lemma DropTrailingComma(w: string)
    requires ',' !in w
    ensures Replace(w + ",", ',', "") == w
  {
    ReplaceAppend(w, ",", ',', "");
    ReplaceRemoves(w, ',');
    assert Replace(",", ',', "") == "" + Replace([], ',', "");
  }
}
