/** The parse loop of `_extract_m3u8_variants` (xh_scraper.py:177-208): an
    HLS master playlist, already fetched, is read line by line; each
    `#EXT-X-STREAM-INF:` line gives the attributes of the next URI line,
    which becomes one variant format (section 4.3.4.2 of RFC 8216 describes
    the tag; the attribute list is read with the scraper's own regular
    expression, not with the grammar of section 4.2). */
module Manifest {
  import opened Common
  import opened Text
  import opened Formats

  const StreamInfTag: string := "#EXT-X-STREAM-INF:"

  // ---------------------------------------------------------------------
  // The attribute pattern ([A-Z0-9-]+)=("[^"]+"|[^,"]+)
  // ---------------------------------------------------------------------

  predicate IsNameChar(c: char) { 'A' <= c <= 'Z' || '0' <= c <= '9' || c == '-' }

  predicate NotQuote(c: char) { c != '"' }

  predicate NotCommaOrQuote(c: char) { c != ',' && c != '"' }

  /** Length of the longest prefix of `s` whose characters are all in the
      class; a greedy repetition takes exactly this many. */
  function Run(s: string, inClass: char -> bool): (n: nat)
    ensures n <= |s|
    ensures forall j :: 0 <= j < n ==> inClass(s[j])
    ensures n < |s| ==> !inClass(s[n])
  {
    if s != [] && inClass(s[0]) then 1 + Run(s[1..], inClass) else 0
  }

  /** A run is as long as the class holds and no longer. */
  lemma {:induction false} RunExact(s: string, n: nat, inClass: char -> bool)
    requires n <= |s| && (forall j :: 0 <= j < n ==> inClass(s[j]))
    requires n < |s| ==> !inClass(s[n])
    ensures Run(s, inClass) == n
  {
    if n > 0 {
      assert forall j :: 0 <= j < n - 1 ==> s[1..][j] == s[j + 1];
      assert n - 1 < |s| - 1 ==> s[1..][n - 1] == s[n];
      RunExact(s[1..], n - 1, inClass);
    }
  }

  /** One match of the pattern: the two groups and where the match ends. */
  datatype AttrMatch = AttrMatch(name: string, value: string, end: nat)

  /** The value group at the start of `v`: a quoted value needs a closing
      quote after at least one other character; when that fails the second
      alternative cannot start at a quote, so there is no value. */
  function ValueLength(v: string): (n: Option<nat>)
    ensures n.Some? ==> 1 <= n.value <= |v|
  {
    if |v| > 0 && v[0] == '"' then
      var r := Run(v[1..], NotQuote);
      if r >= 1 && r + 1 < |v| then Some(r + 2) else None
    else
      var r := Run(v, NotCommaOrQuote);
      if r >= 1 then Some(r) else None
  }

  /** The pattern tried at the start of `s`.  The name is the whole run of
      name characters (a shorter one is followed by a name character, not by
      `=`). */
  function AttrAt(s: string): (m: Option<AttrMatch>)
    ensures m.Some? ==> 0 < m.value.end <= |s|
  {
    var k := Run(s, IsNameChar);
    if k == 0 || k >= |s| || s[k] != '=' then None
    else match ValueLength(s[k + 1..])
      case None => None
      case Some(n) => Some(AttrMatch(s[..k], s[k + 1..k + 1 + n], k + 1 + n))
  }

  /** `attr_pat.findall(s)`: matches are looked for from left to right; where
      none starts, the search moves on by one character. */
  function FindAll(s: string): seq<(string, string)>
    decreases |s|
  {
    if s == [] then []
    else match AttrAt(s)
      case None => FindAll(s[1..])
      case Some(m) => [(m.name, m.value)] + FindAll(s[m.end..])
  }

  /** Length of the run of quotes at the start of `v`. */
  function LeadingQuotes(v: string): (n: nat)
    ensures n <= |v| && forall j :: 0 <= j < n ==> v[j] == '"'
    ensures n < |v| ==> v[n] != '"'
  {
    if |v| > 0 && v[0] == '"' then 1 + LeadingQuotes(v[1..]) else 0
  }

  /** `v.strip('"')`: every leading and trailing quote goes. */
  function StripQuotes(v: string): (r: string)
    ensures r != [] ==> r[0] != '"' && r[|r| - 1] != '"'
    decreases |v|
  {
    if |v| > 0 && v[0] == '"' then StripQuotes(v[1..])
    else if |v| > 0 && v[|v| - 1] == '"' then StripQuotes(v[..|v| - 1])
    else v
  }

  /** What `strip('"')` leaves starts right after the leading run of quotes
      and is followed only by quotes; with the ends of `StripQuotes` this
      pins it down. */
  lemma {:induction false} StripQuotesInfix(v: string)
    ensures var r := StripQuotes(v);
      && LeadingQuotes(v) + |r| <= |v| && r == v[LeadingQuotes(v)..LeadingQuotes(v) + |r|]
      && forall j :: LeadingQuotes(v) + |r| <= j < |v| ==> v[j] == '"'
    decreases |v|
  {
    if |v| > 0 && v[0] == '"' {
      StripQuotesInfix(v[1..]);
      var r := StripQuotes(v[1..]);
      var m := LeadingQuotes(v[1..]);
      assert v[1..][m..m + |r|] == v[m + 1..m + 1 + |r|];
    } else if |v| > 0 && v[|v| - 1] == '"' {
      var w := v[..|v| - 1];
      StripQuotesInfix(w);
      var r := StripQuotes(w);
      assert LeadingQuotes(w) == 0 by { assert w[0] == v[0]; }
      assert w[..|r|] == v[..|r|];
    }
  }

  /** The dict comprehension: a later pair with the same name wins. */
  function ToMap(pairs: seq<(string, string)>): (m: map<string, string>)
    ensures forall i :: 0 <= i < |pairs| ==> pairs[i].0 in m
    ensures forall k :: k in m ==> exists i :: 0 <= i < |pairs| && pairs[i].0 == k
    ensures m == map[] <==> pairs == []
  {
    if pairs == [] then map[]
    else
      var last := pairs[|pairs| - 1];
      var m := ToMap(pairs[..|pairs| - 1])[last.0 := StripQuotes(last.1)];
      assert forall i :: 0 <= i < |pairs| - 1 ==> pairs[..|pairs| - 1][i] == pairs[i];
      m
  }

  /** The value a name maps to is the quote-stripped value of its last pair. */
  lemma {:induction false} ToMapLastWins(pairs: seq<(string, string)>, i: nat)
    requires i < |pairs|
    requires forall j :: i < j < |pairs| ==> pairs[j].0 != pairs[i].0
    ensures ToMap(pairs)[pairs[i].0] == StripQuotes(pairs[i].1)
  {
    if i < |pairs| - 1 {
      var init := pairs[..|pairs| - 1];
      assert init[i] == pairs[i];
      assert forall j :: i < j < |init| ==> init[j] == pairs[j];
      ToMapLastWins(init, i);
    }
  }

  /** The attributes of a `#EXT-X-STREAM-INF:` line: the pairs found after
      its first colon, as a map. */
  function Attributes(line: string): map<string, string>
    requires StartsWith(line, StreamInfTag)
  {
    assert line[17] == StreamInfTag[17];
    ToMap(FindAll(AfterFirst(line, ':')))
  }

  // The attribute list written by a playlist generator, and its reading.

  predicate IsName(n: string) { |n| >= 1 && forall j :: 0 <= j < |n| ==> IsNameChar(n[j]) }

  /** A value written bare (no comma, no quote) or quoted (no quote inside). */
  predicate IsBareValue(v: string) { |v| >= 1 && forall j :: 0 <= j < |v| ==> NotCommaOrQuote(v[j]) }

  predicate IsQuotedValue(v: string)
  {
    |v| >= 3 && v[0] == '"' && v[|v| - 1] == '"' && forall j :: 1 <= j < |v| - 1 ==> NotQuote(v[j])
  }

  predicate IsAttr(a: (string, string)) { IsName(a.0) && (IsBareValue(a.1) || IsQuotedValue(a.1)) }

  /** `NAME=VALUE,NAME=VALUE,...` */
  function Render(attrs: seq<(string, string)>): string
  {
    if attrs == [] then ""
    else if |attrs| == 1 then attrs[0].0 + "=" + attrs[0].1
    else attrs[0].0 + "=" + attrs[0].1 + "," + Render(attrs[1..])
  }

  /** The pattern matches one written attribute exactly, whatever follows it
      after a comma. */
  lemma AttrAtWritten(a: (string, string), tail: string)
    requires IsAttr(a) && (tail == [] || tail[0] == ',')
    ensures AttrAt(a.0 + "=" + a.1 + tail) == Some(AttrMatch(a.0, a.1, |a.0| + 1 + |a.1|))
  {
    var s := a.0 + "=" + a.1 + tail;
    WrittenParts(a.0, a.1, tail);
    NameRunWritten(a.0, "=" + (a.1 + tail));
    ValueLengthWritten(a.1, tail);
    AttrAtOf(s, |a.0|, |a.1|);
  }

  /** Where the name, the `=` and the value sit in `name=value tail`. */
  lemma WrittenParts(name: string, value: string, tail: string)
    ensures var s := name + "=" + value + tail;
      && s == name + ("=" + (value + tail))
      && s[|name| + 1..] == value + tail
      && s[|name| + 1..|name| + 1 + |value|] == value
  {
    var s := name + "=" + value + tail;
    assert s[|name| + 1..] == value + tail;
    assert (value + tail)[..|value|] == value;
  }

  /** The match at the start of `s`, from the lengths of its two groups. */
  lemma AttrAtOf(s: string, k: nat, n: nat)
    requires 0 < k < |s| && Run(s, IsNameChar) == k && s[k] == '='
    requires ValueLength(s[k + 1..]) == Some(n)
    ensures AttrAt(s) == Some(AttrMatch(s[..k], s[k + 1..k + 1 + n], k + 1 + n))
  {
    var rest := s[k + 1..];
    assert ValueLength(rest).Some? && ValueLength(rest).value == n;
  }

  /** A written name followed by `=` is matched whole. */
  lemma NameRunWritten(name: string, rest: string)
    requires IsName(name) && rest != [] && rest[0] == '='
    ensures Run(name + rest, IsNameChar) == |name|
    ensures (name + rest)[..|name|] == name && (name + rest)[|name|] == '='
  {
    var s := name + rest;
    assert forall j :: 0 <= j < |name| ==> s[j] == name[j];
    RunExact(s, |name|, IsNameChar);
  }

  /** A written value, followed by nothing or by a comma, is matched whole. */
  lemma ValueLengthWritten(v: string, tail: string)
    requires (IsBareValue(v) || IsQuotedValue(v)) && (tail == [] || tail[0] == ',')
    ensures ValueLength(v + tail) == Some(|v|)
  {
    var w := v + tail;
    if IsQuotedValue(v) {
      var inner := w[1..];
      assert forall j :: 0 <= j < |v| - 2 ==> inner[j] == v[j + 1];
      assert inner[|v| - 2] == v[|v| - 1];
      RunExact(inner, |v| - 2, NotQuote);
    } else {
      assert forall j :: 0 <= j < |v| ==> w[j] == v[j];
      RunExact(w, |v|, NotCommaOrQuote);
    }
  }

  /** Reading a written attribute list gives back its pairs, in order. */
  lemma {:induction false} FindAllRender(attrs: seq<(string, string)>)
    requires forall i :: 0 <= i < |attrs| ==> IsAttr(attrs[i])
    ensures FindAll(Render(attrs)) == attrs
  {
    if attrs != [] {
      var a := attrs[0];
      if |attrs| == 1 {
        FindAllAfterAttr(a, "");
        assert a.0 + "=" + a.1 + "" == Render(attrs);
      } else {
        var rest := Render(attrs[1..]);
        assert Render(attrs) == a.0 + "=" + a.1 + ("," + rest);
        FindAllAfterAttr(a, "," + rest);
        FindAllSkipsComma(rest);
        FindAllRender(attrs[1..]);
        assert attrs == [a] + attrs[1..];
      }
    }
  }

  /** A written attribute is read as one pair, and the search goes on right
      after it. */
  lemma FindAllAfterAttr(a: (string, string), tail: string)
    requires IsAttr(a) && (tail == [] || tail[0] == ',')
    ensures FindAll(a.0 + "=" + a.1 + tail) == [a] + FindAll(tail)
  {
    var s := a.0 + "=" + a.1 + tail;
    AttrAtWritten(a, tail);
    assert s[|a.0| + 1 + |a.1|..] == tail;
  }

  /** No match starts at a comma. */
  lemma FindAllSkipsComma(rest: string)
    ensures FindAll("," + rest) == FindAll(rest)
  {
    var s := "," + rest;
    assert Run(s, IsNameChar) == 0;
    assert s[1..] == rest;
  }

  // ---------------------------------------------------------------------
  // One variant
  // ---------------------------------------------------------------------

  /** `f"hls-{height or 'unk'}p"`. */
  function FormatIdFor(height: Option<int>): string
  {
    if height.None? || height.value == 0 then "hls-unkp" else "hls-" + IntToString(height.value) + "p"
  }

  /** The id says "unk" exactly when the height is missing or zero. */
  lemma FormatIdUnknown(height: Option<int>)
    ensures FormatIdFor(height) == "hls-unkp" <==> height.None? || height.value == 0
  {
    if height.Some? && height.value != 0 {
      var s := IntToString(height.value);
      var n := if height.value < 0 then -height.value else height.value;
      assert s[|s| - 1] == NatToString(n)[|NatToString(n)| - 1];
      assert ("hls-" + s + "p")[|s| + 3] == s[|s| - 1];
      assert IsDigit(s[|s| - 1]) && "hls-unkp"[6] == 'k';
    }
  }

  /** `height`: the integer after the first `x` of `RESOLUTION`, when that
      attribute holds an `x`; `int()` raises on anything else after it. */
  function HeightOf(attrs: map<string, string>): (h: Result<Option<int>>)
  {
    if "RESOLUTION" in attrs && IndexOf(attrs["RESOLUTION"], 'x').Some? then
      match ParseInt(SecondField(attrs["RESOLUTION"], 'x'))
      case None => Raised(ValueError)
      case Some(n) => Ok(Some(n))
    else Ok(None)
  }

  /** `tbr`: `BANDWIDTH / 1000` when `BANDWIDTH` is a non-empty digit string. */
  function TbrFor(attrs: map<string, string>): (t: Option<real>)
    ensures t.Some? <==> "BANDWIDTH" in attrs && attrs["BANDWIDTH"] != "" && AllDigits(attrs["BANDWIDTH"])
    ensures t.Some? ==> ParseInt(attrs["BANDWIDTH"]).Some?
    ensures t.Some? ==> t.value == ParseInt(attrs["BANDWIDTH"]).value as real / 1000.0
    ensures t.Some? ==> t.value >= 0.0
  {
    if "BANDWIDTH" in attrs && attrs["BANDWIDTH"] != "" && AllDigits(attrs["BANDWIDTH"]) then
      ParseDigits(attrs["BANDWIDTH"]);
      Some(DigitsValue(attrs["BANDWIDTH"]) as real / 1000.0)
    else None
  }

  /** A resolution written `<width>x<height>` gives that height, whatever
      the width text is, as long as it holds no `x`. */
  lemma HeightOfResolution(attrs: map<string, string>, width: string, height: int)
    requires "RESOLUTION" in attrs && attrs["RESOLUTION"] == width + "x" + IntToString(height)
    requires forall j :: 0 <= j < |width| ==> width[j] != 'x'
    ensures HeightOf(attrs) == Ok(Some(height))
  {
    var r := attrs["RESOLUTION"];
    var h := IntToString(height);
    assert r[|width|] == 'x';
    var i := IndexOf(r, 'x').value;
    assert !(i < |width|) && !(|width| < i);
    assert AfterFirst(r, 'x') == h;
    assert forall j :: 0 <= j < |h| ==> h[j] != 'x' by {
      var m: nat := if height < 0 then -height else height;
      assert AllDigits(NatToString(m));
    }
    ParseIntRoundTrip(height);
  }

  /** The height is absent exactly when there is no `RESOLUTION` or it holds
      no `x`; with an `x`, it is a number or the call raises. */
  lemma HeightAbsent(attrs: map<string, string>)
    ensures HeightOf(attrs) == Ok(None) <==>
              !("RESOLUTION" in attrs && exists j :: 0 <= j < |attrs["RESOLUTION"]| && attrs["RESOLUTION"][j] == 'x')
  {
  }

  /** A bandwidth written as a decimal numeral gives that many bits per
      second in kbit/s, as an exact ratio. */
  lemma TbrOfBandwidth(attrs: map<string, string>, bandwidth: nat)
    requires "BANDWIDTH" in attrs && attrs["BANDWIDTH"] == NatToString(bandwidth)
    ensures TbrFor(attrs) == Some(bandwidth as real / 1000.0)
  {
    NatToStringRoundTrip(bandwidth);
  }

  /** The variant for URI `line` under `attrs`. */
  function MakeVariant(attrs: map<string, string>, line: string, base: string, lib: UrlLib): (r: Result<Format>)
    ensures r.Raised? <==> HeightOf(attrs).Raised?
  {
    match HeightOf(attrs)
    case Raised(e) => Raised(e)
    case Ok(height) =>
      Ok(Variant(lib.join(base, line), FormatIdFor(height), "mp4", "m3u8", height, TbrFor(attrs)))
  }

  /** What every variant the loop emits looks like. */
  predicate WellFormed(f: Format)
  {
    && f.Variant? && f.ext == "mp4" && f.protocol == "m3u8"
    && f.formatId == FormatIdFor(f.height)
    && (f.tbr.Some? ==> f.tbr.value >= 0.0)
  }

  // ---------------------------------------------------------------------
  // The loop
  // ---------------------------------------------------------------------

  /** `current_inf` and `variants` between two lines. */
  datatype ParseState = ParseState(pending: map<string, string>, variants: seq<Format>)

  const Start: ParseState := ParseState(map[], [])

  predicate IsInfLine(line: string) { StartsWith(line, StreamInfTag) }

  /** A line that names a URI: not blank and not a tag or comment. */
  predicate IsUriLine(line: string) { line != "" && !StartsWith(line, "#") }

  /** What the loop makes of one line once it is stripped: a tag with its
      attributes, a URI, or anything else (blank lines, other tags and
      comments), which it skips. */
  datatype LineKind = InfLine(attrs: map<string, string>) | UriLine(uri: string) | OtherLine

  /** The tests of the loop body, in their order. */
  function Classify(raw: string): (k: LineKind)
    ensures k.InfLine? <==> IsInfLine(Strip(raw))
    ensures k.UriLine? <==> !IsInfLine(Strip(raw)) && IsUriLine(Strip(raw))
  {
    var line := Strip(raw);
    if IsInfLine(line) then InfLine(Attributes(line))
    else if IsUriLine(line) then UriLine(line)
    else OtherLine
  }

  /** Every line of the text, classified. */
  function Classified(lines: seq<string>): (kinds: seq<LineKind>)
    ensures |kinds| == |lines|
  {
    if lines == [] then [] else Classified(lines[..|lines| - 1]) + [Classify(lines[|lines| - 1])]
  }

  lemma {:induction false} ClassifiedAt(lines: seq<string>, i: nat)
    requires i < |lines|
    ensures Classified(lines)[i] == Classify(lines[i])
  {
    if i < |lines| - 1 {
      assert lines[..|lines| - 1][i] == lines[i];
      ClassifiedAt(lines[..|lines| - 1], i);
    }
  }

  /** One iteration of the loop.  A URI line with nothing pending is
      skipped. */
  function Step(st: ParseState, k: LineKind, base: string, lib: UrlLib): Result<ParseState>
  {
    match k
    case InfLine(attrs) => Ok(ParseState(attrs, st.variants))
    case UriLine(uri) =>
      if st.pending == map[] then Ok(st)
      else (match MakeVariant(st.pending, uri, base, lib)
        case Raised(e) => Raised(e)
        case Ok(v) => Ok(ParseState(map[], st.variants + [v])))
    case OtherLine => Ok(st)
  }

  /** The loop over `kinds` from state `st`; an exception ends it. */
  function Parse(st: ParseState, kinds: seq<LineKind>, base: string, lib: UrlLib): Result<ParseState>
    decreases |kinds|
  {
    if kinds == [] then Ok(st)
    else match Parse(st, kinds[..|kinds| - 1], base, lib)
      case Raised(e) => Raised(e)
      case Ok(mid) => Step(mid, kinds[|kinds| - 1], base, lib)
  }

  /** `playlist_url.rsplit("/", 1)[0] + "/"`. */
  function BaseOf(url: string): (b: string)
    ensures |b| >= 1 && b[|b| - 1] == '/'
    ensures StartsWith(url, b[..|b| - 1])
    ensures forall j :: |b| - 1 < j < |url| ==> url[j] != '/'
    ensures LastIndexOf(url, '/').Some? ==> b == url[..LastIndexOf(url, '/').value + 1]
    ensures LastIndexOf(url, '/').None? ==> b == url + "/"
  {
    match LastIndexOf(url, '/')
    case None => url + "/"
    case Some(i) =>
      assert url[..i + 1] == url[..i] + [url[i]];
      url[..i] + "/"
  }

  /** What `_extract_m3u8_variants` returns for the playlist text it fetched. */
  function Variants(playlistUrl: string, text: string, lib: UrlLib): Result<seq<Format>>
  {
    match Parse(Start, Classified(SplitLines(text)), BaseOf(playlistUrl), lib)
    case Raised(e) => Raised(e)
    case Ok(st) => Ok(st.variants)
  }

  /** The body of the loop on line `i`: `current_inf` and `variants` after
      it, or the exception it raises. */
  method ProcessLine(currentInf: map<string, string>, variants: seq<Format>, lines: seq<string>, i: nat,
                     base: string, lib: UrlLib)
    returns (r: Result<ParseState>)
    requires i < |lines|
    ensures r == Step(ParseState(currentInf, variants), Classified(lines)[i], base, lib)
  {
    ClassifiedAt(lines, i);
    var line := Strip(lines[i]);
    if StartsWith(line, StreamInfTag) {
      return Ok(ParseState(Attributes(line), variants));
    } else if line != "" && !StartsWith(line, "#") && currentInf != map[] {
      var v := MakeVariant(currentInf, line, base, lib);
      if v.Raised? {
        return Raised(v.error);
      }
      return Ok(ParseState(map[], variants + [v.value]));
    }
    return Ok(ParseState(currentInf, variants));
  }

  /** The loop of `_extract_m3u8_variants`, from the fetched text on. */
  method ExtractVariants(playlistUrl: string, text: string, lib: UrlLib) returns (r: Result<seq<Format>>)
    ensures r == Variants(playlistUrl, text, lib)
  {
    var base := BaseOf(playlistUrl);
    var lines := SplitLines(text);
    r := ParseLines(lines, base, lib);
  }

  /** The `for` loop itself, over the lines of the text. */
  method ParseLines(lines: seq<string>, base: string, lib: UrlLib) returns (r: Result<seq<Format>>)
    ensures r == match Parse(Start, Classified(lines), base, lib)
      case Raised(e) => Raised(e)
      case Ok(st) => Ok(st.variants)
  {
    var variants: seq<Format> := [];
    var currentInf: map<string, string> := map[];
    ghost var kinds := Classified(lines);
    var i := 0;
    while i < |lines|
      invariant 0 <= i <= |lines|
      invariant Parse(Start, kinds[..i], base, lib) == Ok(ParseState(currentInf, variants))
    {
      var next := ProcessLine(currentInf, variants, lines, i, base, lib);
      ParseSnoc(Start, kinds, i, base, lib);
      if next.Raised? {
        RaisedPersists(Start, kinds, i + 1, base, lib);
        return Raised(next.error);
      }
      currentInf, variants := next.value.pending, next.value.variants;
      i := i + 1;
    }
    assert kinds[..|lines|] == kinds;
    return Ok(variants);
  }

  // ---------------------------------------------------------------------
  // Properties of the loop
  // ---------------------------------------------------------------------

  /** The loop over the first `i + 1` lines is one more step after the
      loop over the first `i`. */
  lemma ParseSnoc(st: ParseState, kinds: seq<LineKind>, i: nat, base: string, lib: UrlLib)
    requires i < |kinds|
    ensures Parse(st, kinds[..i + 1], base, lib) ==
      match Parse(st, kinds[..i], base, lib)
      case Raised(e) => Raised(e)
      case Ok(mid) => Step(mid, kinds[i], base, lib)
  {
    assert kinds[..i + 1][..i] == kinds[..i];
  }

  /** Once a line raises, the whole loop raises that exception. */
  lemma {:induction false} RaisedPersists(st: ParseState, kinds: seq<LineKind>, n: nat, base: string, lib: UrlLib)
    requires n <= |kinds| && Parse(st, kinds[..n], base, lib).Raised?
    ensures Parse(st, kinds, base, lib) == Parse(st, kinds[..n], base, lib)
  {
    if n < |kinds| {
      var init := kinds[..|kinds| - 1];
      assert init[..n] == kinds[..n];
      RaisedPersists(st, init, n, base, lib);
    } else {
      assert kinds[..n] == kinds;
    }
  }

  /** The loop over two stretches of lines is the loop over the second one
      from where the first one left off. */
  lemma {:induction false} ParseAppend(st: ParseState, a: seq<LineKind>, b: seq<LineKind>, base: string, lib: UrlLib)
    ensures Parse(st, a + b, base, lib) ==
      match Parse(st, a, base, lib)
      case Raised(e) => Raised(e)
      case Ok(mid) => Parse(mid, b, base, lib)
  {
    if b == [] {
      assert a + b == a;
    } else {
      assert (a + b)[..|a + b| - 1] == a + b[..|b| - 1];
      ParseAppend(st, a, b[..|b| - 1], base, lib);
    }
  }

  /** Variants are only ever appended: those of a prefix of the lines come
      first, in the same order. */
  lemma {:induction false} ParseExtends(st: ParseState, kinds: seq<LineKind>, base: string, lib: UrlLib)
    requires Parse(st, kinds, base, lib).Ok?
    ensures var out := Parse(st, kinds, base, lib).value.variants;
      |st.variants| <= |out| && out[..|st.variants|] == st.variants
  {
    if kinds != [] {
      var init := kinds[..|kinds| - 1];
      ParseExtends(st, init, base, lib);
      var mid := Parse(st, init, base, lib).value;
      var out := Parse(st, kinds, base, lib).value.variants;
      assert out == mid.variants || out == mid.variants + [out[|out| - 1]];
      assert out[..|mid.variants|] == mid.variants;
      assert out[..|st.variants|] == out[..|mid.variants|][..|st.variants|];
    }
  }

  /** Every variant emitted is well formed: `ext` "mp4", `protocol` "m3u8",
      a format id made from its height, a non-negative bitrate. */
  lemma {:induction false} ParseWellFormed(st: ParseState, kinds: seq<LineKind>, base: string, lib: UrlLib)
    requires forall k :: 0 <= k < |st.variants| ==> WellFormed(st.variants[k])
    requires Parse(st, kinds, base, lib).Ok?
    ensures var out := Parse(st, kinds, base, lib).value.variants;
      forall k :: 0 <= k < |out| ==> WellFormed(out[k])
  {
    if kinds != [] {
      ParseWellFormed(st, kinds[..|kinds| - 1], base, lib);
    }
  }

  /** Number of `#EXT-X-STREAM-INF:` lines. */
  function InfCount(kinds: seq<LineKind>): nat
  {
    if kinds == [] then 0
    else InfCount(kinds[..|kinds| - 1]) + if kinds[|kinds| - 1].InfLine? then 1 else 0
  }

  /** Number of URI lines. */
  function UriCount(kinds: seq<LineKind>): nat
  {
    if kinds == [] then 0
    else UriCount(kinds[..|kinds| - 1]) + if kinds[|kinds| - 1].UriLine? then 1 else 0
  }

  /** Each `#EXT-X-STREAM-INF:` line yields at most one variant (its map is
      cleared when the variant is emitted), and each URI line at most one. */
  lemma {:induction false} VariantCountBounds(st: ParseState, kinds: seq<LineKind>, base: string, lib: UrlLib)
    requires Parse(st, kinds, base, lib).Ok?
    ensures var out := Parse(st, kinds, base, lib).value;
      && |out.variants| + (if out.pending != map[] then 1 else 0)
         <= |st.variants| + (if st.pending != map[] then 1 else 0) + InfCount(kinds)
      && |out.variants| <= |st.variants| + UriCount(kinds)
  {
    if kinds != [] {
      VariantCountBounds(st, kinds[..|kinds| - 1], base, lib);
    }
  }

  /** From the start, the number of variants is at most the number of
      `#EXT-X-STREAM-INF:` lines and at most the number of URI lines, and
      every variant is well formed. */
  lemma VariantsAtMostTags(text: string, playlistUrl: string, lib: UrlLib)
    requires Variants(playlistUrl, text, lib).Ok?
    ensures |Variants(playlistUrl, text, lib).value| <= InfCount(Classified(SplitLines(text)))
    ensures |Variants(playlistUrl, text, lib).value| <= UriCount(Classified(SplitLines(text)))
    ensures forall k :: 0 <= k < |Variants(playlistUrl, text, lib).value| ==>
              WellFormed(Variants(playlistUrl, text, lib).value[k])
  {
    var kinds := Classified(SplitLines(text));
    VariantCountBounds(Start, kinds, BaseOf(playlistUrl), lib);
    ParseWellFormed(Start, kinds, BaseOf(playlistUrl), lib);
  }

  /** Lines that are neither tags nor URIs leave the state as it is. */
  lemma {:induction false} OtherLinesKeep(st: ParseState, others: seq<LineKind>, base: string, lib: UrlLib)
    requires forall k :: 0 <= k < |others| ==> others[k].OtherLine?
    ensures Parse(st, others, base, lib) == Ok(st)
  {
    if others != [] {
      OtherLinesKeep(st, others[..|others| - 1], base, lib);
    }
  }

  /** A `#EXT-X-STREAM-INF:` line that meets another one before any URI line
      is replaced by it: the first one's attributes are never used. */
  lemma LaterTagReplaces(st: ParseState, first: map<string, string>, others: seq<LineKind>,
                         second: map<string, string>, base: string, lib: UrlLib)
    requires forall k :: 0 <= k < |others| ==> others[k].OtherLine?
    ensures Parse(st, [InfLine(first)] + others + [InfLine(second)], base, lib) ==
              Ok(ParseState(second, st.variants))
  {
    var a := [InfLine(first)] + others;
    ParseAppend(st, a, [InfLine(second)], base, lib);
    ParseAppend(st, [InfLine(first)], others, base, lib);
    assert [InfLine(first)][..0] == [];
    OtherLinesKeep(ParseState(first, st.variants), others, base, lib);
    assert [InfLine(second)][..0] == [];
  }

  /** A `#EXT-X-STREAM-INF:` line without any attribute the pattern accepts
      yields no variant, whatever follows it up to the next such line. */
  lemma {:induction false} EmptyTagYieldsNothing(st: ParseState, more: seq<LineKind>, base: string, lib: UrlLib)
    requires forall k :: 0 <= k < |more| ==> !more[k].InfLine?
    ensures Parse(st, [InfLine(map[])] + more, base, lib) == Ok(ParseState(map[], st.variants))
  {
    if more == [] {
      assert [InfLine(map[])] + more == [InfLine(map[])];
      assert [InfLine(map[])][..0] == [];
    } else {
      var init := more[..|more| - 1];
      assert ([InfLine(map[])] + more)[..|more|] == [InfLine(map[])] + init;
      EmptyTagYieldsNothing(st, init, base, lib);
    }
  }

  /** A tag with attributes followed by a URI line yields exactly one
      variant, at that URI joined to the base and built from those
      attributes, and leaves nothing pending (so a second URI line yields
      nothing more). */
  lemma TagThenUri(st: ParseState, attrs: map<string, string>, uri: string, base: string, lib: UrlLib)
    requires attrs != map[] && HeightOf(attrs).Ok?
    ensures Parse(st, [InfLine(attrs), UriLine(uri)], base, lib) ==
      Ok(ParseState(map[], st.variants + [MakeVariant(attrs, uri, base, lib).value]))
    ensures MakeVariant(attrs, uri, base, lib).value.url == lib.join(base, uri)
    ensures MakeVariant(attrs, uri, base, lib).value.height == HeightOf(attrs).value
    ensures MakeVariant(attrs, uri, base, lib).value.formatId == FormatIdFor(HeightOf(attrs).value)
    ensures MakeVariant(attrs, uri, base, lib).value.tbr == TbrFor(attrs)
  {
    assert [InfLine(attrs), UriLine(uri)][..1] == [InfLine(attrs)];
    assert [InfLine(attrs)][..0] == [];
    assert Parse(st, [InfLine(attrs)], base, lib) == Ok(ParseState(attrs, st.variants));
  }
}
