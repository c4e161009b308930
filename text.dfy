/** The string built-ins the manifest parser and the format scorer rely on:
    `str.splitlines`, `str.strip`, `startswith`/`endswith`, searching for a
    character, ASCII digit runs, `int()` on text and `str()` on an integer.
    Characters are Unicode code points; digits are the ASCII ones. */
module Text {
  import opened Common

  // ---------------------------------------------------------------------
  // Character classes
  // ---------------------------------------------------------------------

  /** `str.isspace` for one character: the characters `str.strip()` removes. */
  predicate IsSpace(c: char)
  {
    var n := c as int;
    || 0x09 <= n <= 0x0D || 0x1C <= n <= 0x20 || n == 0x85 || n == 0xA0
    || n == 0x1680 || 0x2000 <= n <= 0x200A || n == 0x2028 || n == 0x2029
    || n == 0x202F || n == 0x205F || n == 0x3000
  }

  /** The line boundaries of `str.splitlines` (`"\r\n"` counts as one). */
  predicate IsLineBreak(c: char)
  {
    var n := c as int;
    || 0x0A <= n <= 0x0D || 0x1C <= n <= 0x1E || n == 0x85 || n == 0x2028 || n == 0x2029
  }

  predicate IsDigit(c: char) { '0' <= c <= '9' }

  predicate AllDigits(s: string) { forall i :: 0 <= i < |s| ==> IsDigit(s[i]) }

  predicate NoLineBreak(s: string) { forall i :: 0 <= i < |s| ==> !IsLineBreak(s[i]) }

  // ---------------------------------------------------------------------
  // str.splitlines
  // ---------------------------------------------------------------------

  /** Index of the first line boundary of `s`, or `|s|` when there is none. */
  function BreakIndex(s: string): (i: nat)
    ensures i <= |s| && NoLineBreak(s[..i])
    ensures i < |s| ==> IsLineBreak(s[i])
  {
    if s == [] || IsLineBreak(s[0]) then 0
    else
      var j := BreakIndex(s[1..]);
      assert s[..1 + j] == [s[0]] + s[1..][..j];
      1 + j
  }

  /** `s.splitlines()`: the lines without their boundaries; a boundary at the
      very end does not start an empty last line. */
  function SplitLines(s: string): (lines: seq<string>)
    ensures forall k :: 0 <= k < |lines| ==> NoLineBreak(lines[k])
    ensures s == [] <==> lines == []
    decreases |s|
  {
    if s == [] then []
    else
      var i := BreakIndex(s);
      if i == |s| then [s]
      else
        var next := if s[i] == '\r' && i + 1 < |s| && s[i + 1] == '\n' then i + 2 else i + 1;
        [s[..i]] + SplitLines(s[next..])
  }

  /** Text without line boundaries is one line, and a line boundary after a
      line starts the next one. */
  lemma SplitLinesOfLine(s: string)
    requires s != [] && NoLineBreak(s)
    ensures SplitLines(s) == [s]
  {
    BreakIndexAfter(s, []);
    assert s + [] == s;
  }

  lemma SplitLinesCons(line: string, rest: string)
    requires NoLineBreak(line)
    ensures SplitLines(line + "\n" + rest) == [line] + SplitLines(rest)
  {
    var s := line + "\n" + rest;
    BreakIndexAfter(line, "\n" + rest);
    assert line + "\n" + rest == line + ("\n" + rest);
    assert s[..|line|] == line;
    assert s[|line| + 1..] == rest;
  }

  /** `"\r\n"` ends a line as one boundary, not two. */
  lemma SplitLinesCrLf(line: string, rest: string)
    requires NoLineBreak(line)
    ensures SplitLines(line + "\r\n" + rest) == [line] + SplitLines(rest)
  {
    var s := line + "\r\n" + rest;
    BreakIndexAfter(line, "\r\n" + rest);
    assert line + "\r\n" + rest == line + ("\r\n" + rest);
    assert s[..|line|] == line;
    assert s[|line|] == '\r' && s[|line| + 1] == '\n';
    assert s[|line| + 2..] == rest;
  }

  /** Any other boundary character ends a line by itself; so does a `'\r'`
      that no `'\n'` follows. */
  lemma SplitLinesBreak(line: string, brk: char, rest: string)
    requires NoLineBreak(line) && IsLineBreak(brk)
    requires brk == '\r' ==> rest == [] || rest[0] != '\n'
    ensures SplitLines(line + [brk] + rest) == [line] + SplitLines(rest)
  {
    var s := line + [brk] + rest;
    BreakIndexAfter(line, [brk] + rest);
    assert line + [brk] + rest == line + ([brk] + rest);
    assert s[..|line|] == line;
    assert s[|line|] == brk;
    assert |line| + 1 < |s| ==> s[|line| + 1] == rest[0];
    assert s[|line| + 1..] == rest;
  }

  /** The first boundary of `line + tail` is the one that starts `tail`. */
  lemma {:induction false} BreakIndexAfter(line: string, tail: string)
    requires NoLineBreak(line) && (tail == [] || IsLineBreak(tail[0]))
    ensures BreakIndex(line + tail) == |line|
  {
    if line != [] {
      assert (line + tail)[0] == line[0];
      assert (line + tail)[1..] == line[1..] + tail;
      BreakIndexAfter(line[1..], tail);
    }
  }

  // ---------------------------------------------------------------------
  // str.strip
  // ---------------------------------------------------------------------

  /** `s.lstrip()`: drops the leading whitespace. */
  function TrimStart(s: string): (r: string)
    ensures |r| <= |s| && r == s[|s| - |r|..]
    ensures forall k :: 0 <= k < |s| - |r| ==> IsSpace(s[k])
    ensures r != [] ==> !IsSpace(r[0])
  {
    if |s| > 0 && IsSpace(s[0]) then TrimStart(s[1..]) else s
  }

  /** `s.rstrip()`: drops the trailing whitespace. */
  function TrimEnd(s: string): (r: string)
    ensures |r| <= |s| && r == s[..|r|]
    ensures forall k :: |r| <= k < |s| ==> IsSpace(s[k])
    ensures r != [] ==> !IsSpace(r[|r| - 1])
  {
    if |s| > 0 && IsSpace(s[|s| - 1]) then TrimEnd(s[..|s| - 1]) else s
  }

  /** `s.strip()`. */
  function Strip(s: string): string
  {
    TrimEnd(TrimStart(s))
  }

  /** Stripped text neither starts nor ends with whitespace, is a slice of
      the original, and stripping again changes nothing. */
  lemma StripProperties(s: string)
    ensures var r := Strip(s);
      r != [] ==> !IsSpace(r[0]) && !IsSpace(r[|r| - 1])
    ensures Strip(Strip(s)) == Strip(s)
  {
    var t := TrimStart(s);
    var r := TrimEnd(t);
    if r != [] {
      assert r[0] == t[0];
    }
    assert TrimStart(r) == r;
    TrimEndOfTrimmed(r);
  }

  lemma TrimEndOfTrimmed(r: string)
    requires r != [] ==> !IsSpace(r[|r| - 1])
    ensures TrimEnd(r) == r
  {
  }

  // ---------------------------------------------------------------------
  // Prefixes, suffixes and searching
  // ---------------------------------------------------------------------

  predicate StartsWith(s: string, prefix: string)
  {
    |prefix| <= |s| && s[..|prefix|] == prefix
  }

  predicate EndsWith(s: string, suffix: string)
  {
    |suffix| <= |s| && s[|s| - |suffix|..] == suffix
  }

  /** `s.find(c)`, as an option: the first index holding `c`. */
  function IndexOf(s: string, c: char): (r: Option<nat>)
    ensures r.Some? ==> r.value < |s| && s[r.value] == c
    ensures r.Some? ==> forall j :: 0 <= j < r.value ==> s[j] != c
    ensures r.None? ==> forall j :: 0 <= j < |s| ==> s[j] != c
  {
    if s == [] then None
    else if s[0] == c then Some(0)
    else match IndexOf(s[1..], c)
      case None => None
      case Some(i) => Some(i + 1)
  }

  /** `s.rfind(c)`, as an option: the last index holding `c`. */
  function LastIndexOf(s: string, c: char): (r: Option<nat>)
    ensures r.Some? ==> r.value < |s| && s[r.value] == c
    ensures r.Some? ==> forall j :: r.value < j < |s| ==> s[j] != c
    ensures r.None? ==> forall j :: 0 <= j < |s| ==> s[j] != c
  {
    if s == [] then None
    else if s[|s| - 1] == c then Some(|s| - 1)
    else LastIndexOf(s[..|s| - 1], c)
  }

  /** `s.split(c, 1)[1]`: what follows the first `c` (which must occur). */
  function AfterFirst(s: string, c: char): string
    requires IndexOf(s, c).Some?
  {
    s[IndexOf(s, c).value + 1..]
  }

  /** `s.split(c)[1]`: the field between the first and the second `c`, or
      up to the end when there is no second one. */
  function SecondField(s: string, c: char): (f: string)
    requires IndexOf(s, c).Some?
    ensures forall j :: 0 <= j < |f| ==> f[j] != c
    ensures EndsWith(s, f) || StartsWith(s[IndexOf(s, c).value + 1..], f + [c])
    ensures var after := s[IndexOf(s, c).value + 1..];
      StartsWith(after, f) && (|f| == |after| || after[|f|] == c)
  {
    var after := AfterFirst(s, c);
    match IndexOf(after, c)
    case None => after
    case Some(j) =>
      assert after[..j + 1] == after[..j] + [c];
      after[..j]
  }

  // ---------------------------------------------------------------------
  // Decimal numerals
  // ---------------------------------------------------------------------

  function DigitValue(c: char): (d: nat)
    requires IsDigit(c)
    ensures d < 10
  {
    c as nat - '0' as nat
  }

  function DigitChar(d: nat): (c: char)
    requires d < 10
    ensures IsDigit(c) && DigitValue(c) == d
  {
    ('0' as nat + d) as char
  }

  /** The value of a run of decimal digits, most significant first. */
  function DigitsValue(s: string): nat
    requires AllDigits(s)
  {
    if s == [] then 0 else 10 * DigitsValue(s[..|s| - 1]) + DigitValue(s[|s| - 1])
  }

  /** `str(n)` for `n >= 0`: no leading zero except in "0" itself. */
  function NatToString(n: nat): (s: string)
    ensures |s| >= 1 && AllDigits(s)
    ensures |s| > 1 ==> s[0] != '0'
  {
    if n < 10 then [DigitChar(n)] else NatToString(n / 10) + [DigitChar(n % 10)]
  }

  /** `str(n)`. */
  function IntToString(n: int): string
  {
    if n < 0 then "-" + NatToString(-n) else NatToString(n)
  }

  /** `int(s)` on text, restricted to ASCII digits: surrounding whitespace
      and one sign are allowed; anything else raises `ValueError` (`None`). */
  function ParseInt(s: string): (r: Option<int>)
  {
    var t := Strip(s);
    var signed := |t| > 0 && (t[0] == '+' || t[0] == '-');
    var digits := if signed then t[1..] else t;
    if |digits| == 0 || !AllDigits(digits) then None
    else
      var v: int := DigitsValue(digits);
      if signed && t[0] == '-' then Some(-v) else Some(v)
  }

  /** Reading a numeral back gives the number. */
  lemma {:induction false} NatToStringRoundTrip(n: nat)
    ensures DigitsValue(NatToString(n)) == n
  {
    if n >= 10 {
      var s := NatToString(n);
      NatToStringRoundTrip(n / 10);
      assert s[..|s| - 1] == NatToString(n / 10);
    }
  }

  /** `int(str(n)) == n`. */
  lemma ParseIntRoundTrip(n: int)
    ensures ParseInt(IntToString(n)) == Some(n)
  {
    var s := IntToString(n);
    var m: nat := if n < 0 then -n else n;
    NatToStringRoundTrip(m);
    NumeralUnstripped(n);
    if n < 0 {
      assert s[0] == '-' && s[1..] == NatToString(m);
    } else {
      assert IsDigit(s[0]);
    }
  }

  /** `int(s)` on a non-empty string of digits, leading zeros included, is
      its decimal value. */
  lemma ParseDigits(s: string)
    requires s != [] && AllDigits(s)
    ensures ParseInt(s) == Some(DigitsValue(s))
  {
    assert !IsSpace(s[0]) && !IsSpace(s[|s| - 1]);
    assert TrimStart(s) == s;
    TrimEndOfTrimmed(s);
  }

  /** A numeral has no whitespace to strip. */
  lemma NumeralUnstripped(n: int)
    ensures Strip(IntToString(n)) == IntToString(n)
  {
    var s := IntToString(n);
    assert !IsSpace(s[0]) && !IsSpace(s[|s| - 1]);
    assert TrimStart(s) == s;
    TrimEndOfTrimmed(s);
  }

  // ---------------------------------------------------------------------
  // Digit runs
  // ---------------------------------------------------------------------

  /** Length of the run of digits at the start of `s`. */
  function DigitRunLength(s: string): (n: nat)
    ensures n <= |s| && AllDigits(s[..n])
    ensures n < |s| ==> !IsDigit(s[n])
  {
    if s == [] || !IsDigit(s[0]) then 0
    else
      var j := DigitRunLength(s[1..]);
      assert s[..1 + j] == [s[0]] + s[1..][..j];
      1 + j
  }

  /** Index of the first digit of `s`, if any. */
  function FirstDigitIndex(s: string): (r: Option<nat>)
    ensures r.Some? ==> r.value < |s| && IsDigit(s[r.value])
    ensures r.Some? ==> forall j :: 0 <= j < r.value ==> !IsDigit(s[j])
    ensures r.None? ==> forall j :: 0 <= j < |s| ==> !IsDigit(s[j])
  {
    if s == [] then None
    else if IsDigit(s[0]) then Some(0)
    else match FirstDigitIndex(s[1..])
      case None => None
      case Some(i) => Some(i + 1)
  }

  /** `re.search(r"(\d+)", s).group(1)`: the digit run that starts at the
      first digit, taken whole (the run is maximal by `DigitRunLength`). */
  function FirstDigitRun(s: string): (r: Option<string>)
    ensures r.Some? ==> |r.value| >= 1 && AllDigits(r.value)
    ensures r.None? <==> forall j :: 0 <= j < |s| ==> !IsDigit(s[j])
    ensures r.Some? ==> var i := FirstDigitIndex(s).value;
      && StartsWith(s[i..], r.value)
      && (i + |r.value| == |s| || !IsDigit(s[i + |r.value|]))
  {
    match FirstDigitIndex(s)
    case None => None
    case Some(i) => Some(s[i..][..DigitRunLength(s[i..])])
  }
}
