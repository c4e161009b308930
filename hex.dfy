/** The byte layer of an obfuscated path: `bytes.fromhex` on the hex run and
    `int.from_bytes(..., "little", signed=True)` on the seed bytes
    (xh_scraper.py:152-153), each with the encoder that inverts it. */
module Hex {
  import opened Common
  import opened FixedWidth

  predicate IsByte(b: int) { 0 <= b < 256 }

  predicate AllBytes(bs: seq<int>) { forall i :: 0 <= i < |bs| ==> IsByte(bs[i]) }

  /** The character class `[0-9a-fA-F]`. */
  predicate IsHexDigit(c: char)
  {
    '0' <= c <= '9' || 'a' <= c <= 'f' || 'A' <= c <= 'F'
  }

  predicate AllHex(s: string) { forall i :: 0 <= i < |s| ==> IsHexDigit(s[i]) }

  function HexDigitValue(c: char): (v: nat)
    requires IsHexDigit(c)
    ensures v < 16
  {
    if '0' <= c <= '9' then c as nat - '0' as nat
    else if 'a' <= c <= 'f' then c as nat - 'a' as nat + 10
    else c as nat - 'A' as nat + 10
  }

  /** The lower-case digit for a value below 16. */
  function HexDigitChar(v: nat): (c: char)
    requires v < 16
    ensures IsHexDigit(c) && HexDigitValue(c) == v
  {
    if v < 10 then ('0' as nat + v) as char else ('a' as nat + v - 10) as char
  }

  function HexPairs(s: string): (bs: seq<int>)
    requires AllHex(s) && |s| % 2 == 0
    ensures |bs| == |s| / 2 && AllBytes(bs)
  {
    if s == [] then []
    else [16 * HexDigitValue(s[0]) + HexDigitValue(s[1])] + HexPairs(s[2..])
  }

  /** Byte `i` of the pairs is the value of digits `2i` (high) and `2i + 1`. */
  lemma {:induction false} HexPairsDigits(s: string)
    requires AllHex(s) && |s| % 2 == 0
    ensures forall i :: 0 <= i < |s| / 2 ==>
              HexPairs(s)[i] == 16 * HexDigitValue(s[2 * i]) + HexDigitValue(s[2 * i + 1])
  {
    if s != [] {
      var t := s[2..];
      HexPairsDigits(t);
      forall i | 1 <= i < |s| / 2
        ensures HexPairs(s)[i] == 16 * HexDigitValue(s[2 * i]) + HexDigitValue(s[2 * i + 1])
      {
        assert HexPairs(s)[i] == HexPairs(t)[i - 1];
        assert t[2 * (i - 1)] == s[2 * i] && t[2 * (i - 1) + 1] == s[2 * i + 1];
      }
    }
  }

  /** `bytes.fromhex(s)` on a run of hex digits: a run of odd length raises
      `ValueError`; otherwise every two digits make one byte. */
  function FromHex(s: string): (r: Result<seq<int>>)
    requires AllHex(s)
    ensures r.Ok? <==> |s| % 2 == 0
    ensures r.Raised? ==> r.error == ValueError
    ensures r.Ok? ==> |r.value| == |s| / 2 && AllBytes(r.value)
  {
    if |s| % 2 == 1 then Raised(ValueError) else Ok(HexPairs(s))
  }

  /** What `bytes.fromhex` decodes: byte `i` has digit `2i` as its high
      nibble and digit `2i + 1` as its low one. */
  lemma FromHexDigits(s: string)
    requires AllHex(s) && |s| % 2 == 0
    ensures forall i :: 0 <= i < |s| / 2 ==>
              FromHex(s).value[i] == 16 * HexDigitValue(s[2 * i]) + HexDigitValue(s[2 * i + 1])
  {
    HexPairsDigits(s);
  }

  /** Lower-case hex text of a byte string, as the obfuscating side writes it. */
  function ToHex(bs: seq<int>): (s: string)
    requires AllBytes(bs)
    ensures |s| == 2 * |bs| && AllHex(s)
  {
    if bs == [] then []
    else [HexDigitChar(bs[0] / 16), HexDigitChar(bs[0] % 16)] + ToHex(bs[1..])
  }

  lemma {:induction false} ToHexDigits(bs: seq<int>, i: nat)
    requires AllBytes(bs) && i < |bs|
    ensures HexDigitValue(ToHex(bs)[2 * i]) == bs[i] / 16
    ensures HexDigitValue(ToHex(bs)[2 * i + 1]) == bs[i] % 16
  {
    if i > 0 {
      ToHexDigits(bs[1..], i - 1);
      assert ToHex(bs)[2 * i] == ToHex(bs[1..])[2 * (i - 1)];
      assert ToHex(bs)[2 * i + 1] == ToHex(bs[1..])[2 * (i - 1) + 1];
    }
  }

  /** `bytes.fromhex` inverts the encoder. */
  lemma HexRoundTrip(bs: seq<int>)
    requires AllBytes(bs)
    ensures FromHex(ToHex(bs)) == Ok(bs)
  {
    var h := ToHex(bs);
    var ds := HexPairs(h);
    HexPairsDigits(h);
    assert |ds| == |bs|;
    forall i | 0 <= i < |bs|
      ensures ds[i] == bs[i]
    {
      ToHexDigits(bs, i);
      var hi, lo := bs[i] / 16, bs[i] % 16;
      assert ds[i] == 16 * hi + lo;
    }
    assert ds == bs;
  }

  // ---------------------------------------------------------------------
  // The seed: four bytes, little-endian, two's complement
  // ---------------------------------------------------------------------

  /** `int.from_bytes(b, "little", signed=True)` for four bytes. */
  function SignedLE32(b: seq<int>): (v: int)
    requires |b| == 4 && AllBytes(b)
    ensures -TWO31 <= v < TWO31
    ensures Cong32(v, b[0] + 0x100 * b[1] + 0x1_0000 * b[2] + 0x100_0000 * b[3])
  {
    var u := b[0] + 0x100 * b[1] + 0x1_0000 * b[2] + 0x100_0000 * b[3];
    if u >= TWO31 then u - TWO32 else u
  }

  /** The four little-endian bytes of a signed 32-bit seed. */
  function SeedBytes(v: int): (b: seq<int>)
    requires -TWO31 <= v < TWO31
    ensures |b| == 4 && AllBytes(b)
  {
    var u := v % TWO32;
    [u % 0x100, u / 0x100 % 0x100, u / 0x1_0000 % 0x100, u / 0x100_0000]
  }

  lemma SeedRoundTrip(v: int)
    requires -TWO31 <= v < TWO31
    ensures SignedLE32(SeedBytes(v)) == v
  {
    var u := v % TWO32;
    var b := SeedBytes(v);
    BytesOfWord(u);
    assert b[0] + 0x100 * b[1] + 0x1_0000 * b[2] + 0x100_0000 * b[3] == u;
  }

  /** Writing back the seed read from four bytes gives those bytes. */
  lemma SeedBytesRoundTrip(b: seq<int>)
    requires |b| == 4 && AllBytes(b)
    ensures SeedBytes(SignedLE32(b)) == b
  {
    var u := b[0] + 0x100 * b[1] + 0x1_0000 * b[2] + 0x100_0000 * b[3];
    var v := SignedLE32(b);
    DivModUnique(v, TWO32, if u >= TWO31 then -1 else 0, u);
    var q1, q2 := b[1] + 0x100 * b[2] + 0x1_0000 * b[3], b[2] + 0x100 * b[3];
    DivModUnique(u, 0x100, q1, b[0]);
    DivModUnique(q1, 0x100, q2, b[1]);
    DivModUnique(u, 0x1_0000, q2, b[0] + 0x100 * b[1]);
    DivModUnique(q2, 0x100, b[3], b[2]);
    DivModUnique(u, 0x100_0000, b[3], b[0] + 0x100 * b[1] + 0x1_0000 * b[2]);
  }

  /** A 32-bit word is the sum of its four bytes. */
  lemma BytesOfWord(u: int)
    requires 0 <= u < TWO32
    ensures u % 0x100 + 0x100 * (u / 0x100 % 0x100) + 0x1_0000 * (u / 0x1_0000 % 0x100)
            + 0x100_0000 * (u / 0x100_0000) == u
  {
    var q1, q2, q3 := u / 0x100, u / 0x1_0000, u / 0x100_0000;
    DivModUnique(u, 0x1_0000, q1 / 0x100, u % 0x100 + 0x100 * (q1 % 0x100));
    DivModUnique(u, 0x100_0000, q2 / 0x100, u % 0x1_0000 + 0x1_0000 * (q2 % 0x100));
  }
}
