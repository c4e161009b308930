/** The format records the scraper collects, the height it reads from a
    direct format's id (xh_scraper.py:247-248), and `get_best_format`
    (xh_scraper.py:285-297): the first format of maximal score. */
module Formats {
  import opened Common
  import opened Text

  /** A format dictionary.  `Variant` is one entry of an HLS master
      playlist (xh_scraper.py:196-205); `Direct` is a URL the page lists
      directly (xh_scraper.py:238-249).  A key a record lacks reads as
      `None` through `dict.get`. */
  datatype Format =
    | Variant(url: string, formatId: string, ext: string, protocol: string,
              height: Option<int>, tbr: Option<real>)
    | Direct(url: string, formatId: string, quality: Option<string>, height: Option<int>)

  /** `f.get("quality")`. */
  function QualityOf(f: Format): Option<string>
  {
    if f.Direct? then f.quality else None
  }

  /** `f.get("tbr")`. */
  function TbrOf(f: Format): Option<real>
  {
    if f.Variant? then f.tbr else None
  }

  // ---------------------------------------------------------------------
  // re.search(r"(\d{3,4})p", fmt_id)
  // ---------------------------------------------------------------------

  /** The pattern tried at position `p`: four digits and a `p` first (the
      repetition is greedy), then three digits and a `p`. */
  function HeightAt(s: string, p: nat): (h: Option<nat>)
    ensures h.Some? ==> 0 <= h.value < 10000
  {
    if p + 5 <= |s| && AllDigits(s[p..p + 4]) && s[p + 4] == 'p' then
      DigitsBound(s[p..p + 4]);
      assert Power10(4) == 10000;
      Some(DigitsValue(s[p..p + 4]))
    else if p + 4 <= |s| && AllDigits(s[p..p + 3]) && s[p + 3] == 'p' then
      DigitsBound(s[p..p + 3]);
      assert Power10(3) == 1000;
      Some(DigitsValue(s[p..p + 3]))
    else None
  }

  /** The leftmost match at or after `p`. */
  function HeightFrom(s: string, p: nat): (h: Option<nat>)
    ensures h.Some? ==> exists q ::
              p <= q < |s| && HeightAt(s, q) == h && forall r :: p <= r < q ==> HeightAt(s, r).None?
    ensures h.None? ==> forall q :: p <= q < |s| ==> HeightAt(s, q).None?
    decreases |s| - p
  {
    if p >= |s| then None
    else if HeightAt(s, p).Some? then HeightAt(s, p)
    else HeightFrom(s, p + 1)
  }

  /** The height of a direct format: `int(m.group(1))` for the first
      `\d{3,4}p` in its id, `None` without one. */
  function DirectHeight(formatId: string): (h: Option<int>)
    ensures h.Some? ==> 0 <= h.value < 10000
    ensures h.Some? ==> exists q ::
              && 0 <= q < |formatId| && HeightAt(formatId, q) == Some(h.value)
              && forall r :: 0 <= r < q ==> HeightAt(formatId, r).None?
    ensures h.None? <==> forall q :: 0 <= q < |formatId| ==> HeightAt(formatId, q).None?
  {
    match HeightFrom(formatId, 0)
    case None => None
    case Some(v) => Some(v)
  }

  lemma {:induction false} DigitsBound(s: string)
    requires AllDigits(s)
    ensures DigitsValue(s) < Power10(|s|)
  {
    if s != [] {
      DigitsBound(s[..|s| - 1]);
    }
  }

  function Power10(n: nat): (p: nat)
    ensures p >= 1
  {
    if n == 0 then 1 else 10 * Power10(n - 1)
  }

  /** A direct format named like an HLS variant, `hls-<h>p` with a three- or
      four-digit height, is given that height back. */
  lemma DirectHeightOfVariantId(h: int)
    requires 100 <= h < 10000
    ensures DirectHeight("hls-" + IntToString(h) + "p") == Some(h)
  {
    var digits := NatToString(h);
    var s := "hls-" + digits + "p";
    NatToStringRoundTrip(h);
    NatToStringLength(h);
    if h < 1000 {
      assert s[4..7] == digits && s[7] == 'p';
      assert HeightAt(s, 4) == Some(h);
    } else {
      assert s[4..8] == digits && s[8] == 'p';
      assert HeightAt(s, 4) == Some(h);
    }
    forall q | 0 <= q < 4
      ensures HeightAt(s, q).None?
    {
      assert !IsDigit(s[3]);
    }
    assert HeightFrom(s, 4) == Some(h);
    assert HeightFrom(s, 3) == Some(h);
    assert HeightFrom(s, 2) == Some(h);
    assert HeightFrom(s, 1) == Some(h);
  }

  /** `str(n)` of a number with three (four) digits has three (four)
      characters. */
  lemma NatToStringLength(n: nat)
    ensures 100 <= n < 1000 ==> |NatToString(n)| == 3
    ensures 1000 <= n < 10000 ==> |NatToString(n)| == 4
  {
    if 100 <= n < 10000 {
      assert |NatToString(n / 100)| == if n < 1000 then 1 else 2;
      assert |NatToString(n / 10)| == if n < 1000 then 2 else 3;
    }
  }

  // ---------------------------------------------------------------------
  // get_best_format
  // ---------------------------------------------------------------------

  /** `int(x)` on a float: truncation toward zero. */
  function TruncReal(x: real): (n: int)
    ensures x >= 0.0 ==> n as real <= x < n as real + 1.0
    ensures x < 0.0 ==> n as real - 1.0 < x <= n as real
  {
    if x >= 0.0 then x.Floor else -((-x).Floor)
  }

  /** The text `_score` searches for a number:
      `str(f.get("quality") or f.get("format_id") or "")`. */
  function ScoreText(f: Format): string
  {
    match QualityOf(f)
    case Some(q) => if q != "" then q else f.formatId
    case None => f.formatId
  }

  /** `_score(f)`: a non-zero height; else a non-zero bitrate, truncated;
      else the first digit run of the quality or the id; else 0. */
  function Score(f: Format): int
  {
    if f.height.Some? && f.height.value != 0 then f.height.value
    else if TbrOf(f).Some? && TbrOf(f).value != 0.0 then TruncReal(TbrOf(f).value)
    else match FirstDigitRun(ScoreText(f))
      case Some(d) => DigitsValue(d)
      case None => 0
  }

  /** The index `max(formats, key=_score)` picks: a later format replaces the
      current choice only when its score is strictly greater. */
  function BestIndex(formats: seq<Format>): (i: nat)
    requires |formats| >= 1
    ensures i < |formats|
    ensures forall j :: 0 <= j < |formats| ==> Score(formats[j]) <= Score(formats[i])
    ensures forall j :: 0 <= j < i ==> Score(formats[j]) < Score(formats[i])
  {
    if |formats| == 1 then 0
    else
      var i := BestIndex(formats[..|formats| - 1]);
      if Score(formats[|formats| - 1]) > Score(formats[i]) then |formats| - 1 else i
  }

  /** `get_best_format(formats)`: `None` for an empty list. */
  function BestFormat(formats: seq<Format>): (b: Option<Format>)
    ensures b.None? <==> formats == []
    ensures b.Some? ==> b.value in formats
  {
    if formats == [] then None else Some(formats[BestIndex(formats)])
  }

  /** The choice is the first format of maximal score: any index with a
      maximal score and no earlier format as good is the one chosen. */
  lemma BestIsFirstMaximal(formats: seq<Format>, k: nat)
    requires k < |formats|
    requires forall j :: 0 <= j < |formats| ==> Score(formats[j]) <= Score(formats[k])
    requires forall j :: 0 <= j < k ==> Score(formats[j]) < Score(formats[k])
    ensures BestFormat(formats) == Some(formats[k]) && BestIndex(formats) == k
  {
    var i := BestIndex(formats);
    assert !(i < k) && !(k < i);
  }

  /** Appending formats that score no higher than the current choice keeps it. */
  lemma BestStableUnderWeakerAppend(formats: seq<Format>, more: seq<Format>)
    requires |formats| >= 1
    requires forall j :: 0 <= j < |more| ==> Score(more[j]) <= Score(formats[BestIndex(formats)])
    ensures BestFormat(formats + more) == BestFormat(formats)
  {
    var all := formats + more;
    var k := BestIndex(formats);
    forall j | 0 <= j < |all|
      ensures Score(all[j]) <= Score(all[k])
    {
      if j >= |formats| {
        assert all[j] == more[j - |formats|];
      }
    }
    BestIsFirstMaximal(all, k);
  }

  /** A format with a non-zero height scores its height; a variant without
      one but with a non-zero bitrate scores the bitrate in whole kbit/s. */
  lemma ScoreOfVariant(f: Format)
    requires f.Variant?
    ensures f.height.Some? && f.height.value != 0 ==> Score(f) == f.height.value
    ensures (f.height.None? || f.height.value == 0) && f.tbr.Some? && f.tbr.value > 0.0 ==>
              Score(f) as real <= f.tbr.value < Score(f) as real + 1.0
  {
  }
}
