/** The URL decipherer `_decipher_format_url` (xh_scraper.py:146-159) and
    the path pattern `_HEX_RE` it matches (xh_scraper.py:95).

    A path `/<hex>{12,}<rest>` carries, once hex-decoded, an algorithm id
    (byte 0), a little-endian signed seed (bytes 1-4) and a ciphertext (the
    remaining bytes).  The ciphertext is XORed with the keystream and read as
    ISO-8859-1, one character per byte, and the plaintext becomes the new
    path prefix in front of `rest`. */
module Decipher {
  import opened Common
  import opened FixedWidth
  import opened Keystream
  import opened Hex

  // ---------------------------------------------------------------------
  // The path pattern ^/(?P<hex>[0-9a-fA-F]{12,})(?P<rest>[/,].+)$
  // ---------------------------------------------------------------------

  predicate IsSep(c: char) { c == '/' || c == ',' }

  predicate NoNewline(s: string) { forall i :: 0 <= i < |s| ==> s[i] != '\n' }

  /** The `rest` group: a separator and at least one more character, none of
      them a newline (`.` does not match one). */
  predicate IsRest(rest: string)
  {
    |rest| >= 2 && IsSep(rest[0]) && NoNewline(rest)
  }

  /** `path` matches with groups `hex` and `rest`; `$` also matches before
      a final newline, which no group takes. */
  predicate HexPathShape(path: string, hex: string, rest: string)
  {
    && |hex| >= 12 && AllHex(hex) && IsRest(rest)
    && (path == "/" + hex + rest || path == "/" + hex + rest + "\n")
  }

  /** Length of the run of hex digits at the start of `s`. */
  function HexRunLength(s: string): (n: nat)
    ensures n <= |s|
    ensures forall i :: 0 <= i < n ==> IsHexDigit(s[i])
    ensures n < |s| ==> !IsHexDigit(s[n])
  {
    if s == [] || !IsHexDigit(s[0]) then 0 else 1 + HexRunLength(s[1..])
  }

  /** `$` matches at the end of the string or before a final newline; the
      groups end there. */
  function DropFinalNewline(tail: string): (body: string)
    ensures tail == body || tail == body + "\n"
  {
    if |tail| > 0 && tail[|tail| - 1] == '\n' then tail[..|tail| - 1] else tail
  }

  /** `_HEX_RE.match(path)`, giving the groups `hex` and `rest`.  The hex run
      is greedy and a separator is never a hex digit, so the run is exactly
      the maximal one after the leading slash. */
  function MatchHexPath(path: string): (m: Option<(string, string)>)
    ensures m.Some? ==> |m.value.0| >= 12 && AllHex(m.value.0)
  {
    if |path| == 0 || path[0] != '/' then None
    else
      var n := HexRunLength(path[1..]);
      var body := DropFinalNewline(path[1 + n..]);
      if n >= 12 && IsRest(body) then Some((path[1..1 + n], body)) else None
  }

  /** The match is sound: the groups it gives decompose the path as the
      pattern describes. */
  lemma MatchHexPathSound(path: string)
    ensures MatchHexPath(path).Some? ==>
              HexPathShape(path, MatchHexPath(path).value.0, MatchHexPath(path).value.1)
  {
    if MatchHexPath(path).Some? {
      var n := HexRunLength(path[1..]);
      assert path == "/" + path[1..1 + n] + path[1 + n..];
    }
  }

  /** The match is complete: every decomposition the pattern admits is the
      one `MatchHexPath` finds. */
  lemma MatchHexPathComplete(path: string, hex: string, rest: string)
    requires HexPathShape(path, hex, rest)
    ensures MatchHexPath(path) == Some((hex, rest))
  {
    var tail := path[1 + |hex|..];
    ShapeSplit(path, hex, rest);
    HexRunSplit(hex, tail);
    DropNewlineOfRest(tail, rest);
  }

  lemma ShapeSplit(path: string, hex: string, rest: string)
    requires HexPathShape(path, hex, rest)
    ensures |path| > 1 + |hex| && path[0] == '/'
    ensures path[1..] == hex + path[1 + |hex|..] && path[1..1 + |hex|] == hex
    ensures path[1 + |hex|..] == rest || path[1 + |hex|..] == rest + "\n"
  {
    if path == "/" + hex + rest {
      assert path[1 + |hex|..] == rest;
    } else {
      assert path[1 + |hex|..] == rest + "\n";
    }
  }

  /** A hex run followed by a separator is exactly as long as the run. */
  lemma HexRunSplit(hex: string, tail: string)
    requires AllHex(hex) && |tail| > 0 && IsSep(tail[0])
    ensures HexRunLength(hex + tail) == |hex|
  {
    var s := hex + tail;
    assert s[|hex|] == tail[0];
    HexRunOfPrefix(s, |hex|);
  }

  lemma DropNewlineOfRest(tail: string, rest: string)
    requires IsRest(rest) && (tail == rest || tail == rest + "\n")
    ensures DropFinalNewline(tail) == rest
  {
    if tail == rest {
      assert tail[|tail| - 1] != '\n';
    } else {
      assert tail[..|tail| - 1] == rest;
    }
  }

  /** Whether the pattern matches at all is exactly whether the path has
      the shape it describes. */
  lemma MatchHexPathExact(path: string)
    ensures MatchHexPath(path).Some? <==> exists hex, rest :: HexPathShape(path, hex, rest)
  {
    if exists hex, rest :: HexPathShape(path, hex, rest) {
      var hex, rest :| HexPathShape(path, hex, rest);
      MatchHexPathComplete(path, hex, rest);
    } else {
      MatchHexPathSound(path);
    }
  }

  lemma {:induction false} HexRunOfPrefix(s: string, n: nat)
    requires n < |s| && (forall i :: 0 <= i < n ==> IsHexDigit(s[i])) && !IsHexDigit(s[n])
    ensures HexRunLength(s) == n
  {
    if n > 0 {
      assert IsHexDigit(s[0]);
      assert forall i :: 0 <= i < n - 1 ==> s[1..][i] == s[i + 1];
      HexRunOfPrefix(s[1..], n - 1);
    }
  }

  // ---------------------------------------------------------------------
  // The deciphered path
  // ---------------------------------------------------------------------

  /** `b ^ k` for each ciphertext byte and its keystream byte. */
  function XorWith(bs: seq<int>, ks: seq<int>): (out: seq<int>)
    requires |bs| == |ks| && AllBytes(bs) && AllBytes(ks)
    ensures |out| == |bs| && AllBytes(out)
    ensures forall i :: 0 <= i < |bs| ==> out[i] == Xor(bs[i], ks[i])
  {
    forall i | 0 <= i < |bs|
      ensures IsByte(Xor(bs[i], ks[i]))
    {
      Pow2Is32();
      XorBounded(bs[i], ks[i], 8);
    }
    seq(|bs|, i requires 0 <= i < |bs| => Xor(bs[i], ks[i]))
  }

  /** `.decode("latin-1")`: every byte is the code point of one character. */
  function Latin1(bs: seq<int>): (s: string)
    requires AllBytes(bs)
    ensures |s| == |bs| && forall i :: 0 <= i < |bs| ==> s[i] as int == bs[i]
  {
    seq(|bs|, i requires 0 <= i < |bs| => bs[i] as char)
  }

  /** What deciphering does to a path. */
  datatype PathOutcome =
    | NotObfuscated            // the pattern does not match: the URL is returned as it is
    | Deciphered(path: string) // the new path
    | UnknownAlgorithm(id: int) // the generator refused the id: `None` is returned
    | OddHexLength             // `bytes.fromhex` raised ValueError

  /** The plaintext the decoded bytes carry: `None` when byte 0 names no
      algorithm; otherwise the ciphertext (bytes 5 on) XORed with the
      keystream seeded from bytes 1-4, read as ISO-8859-1. */
  function Plaintext(data: seq<int>): Option<string>
    requires |data| >= 5 && AllBytes(data)
  {
    match AlgorithmFor(data[0])
    case None => None
    case Some(alg) =>
      var ks := Keystream.Keystream(StepFn(alg), ToSigned32(SignedLE32(data[1..5])), |data| - 5);
      Some(Latin1(XorWith(data[5..], ks)))
  }

  function DecipherPath(path: string): PathOutcome
  {
    match MatchHexPath(path)
    case None => NotObfuscated
    case Some((hex, rest)) =>
      match FromHex(hex)
      case Raised(_) => OddHexLength
      case Ok(data) =>
        match Plaintext(data)
        case None => UnknownAlgorithm(data[0])
        case Some(plain) => Deciphered("/" + plain + rest)
  }

  /** `_decipher_format_url(url)`: the URL itself, a rebuilt URL, `None`
      (`Ok(None)`) for an unknown algorithm, or the `ValueError` of
      `bytes.fromhex`, which is not caught. */
  function DecipherUrl(url: string, lib: UrlLib): Result<Option<string>>
  {
    match DecipherPath(lib.pathOf(url))
    case NotObfuscated => Ok(Some(url))
    case Deciphered(p) => Ok(Some(lib.replacePath(url, p)))
    case UnknownAlgorithm(_) => Ok(None)
    case OddHexLength => Raised(ValueError)
  }

  /** `bytearray(b ^ next(gen) for b in cipher)`: one keystream byte is
      drawn per ciphertext byte, in order. */
  method XorKeystream(gen: ByteGenerator, cipher: seq<int>) returns (out: seq<int>)
    requires AllBytes(cipher) && gen.Valid()
    modifies gen
    ensures gen.s == RegisterAfter(gen.step, old(gen.s), |cipher|)
    ensures out == XorWith(cipher, Keystream.Keystream(gen.step, old(gen.s), |cipher|))
  {
    ghost var s0 := gen.s;
    ghost var ks := Keystream.Keystream(gen.step, s0, |cipher|);
    out := [];
    var i := 0;
    while i < |cipher|
      invariant 0 <= i <= |cipher|
      invariant gen.s == RegisterAfter(gen.step, s0, i)
      invariant |out| == i
      invariant forall t :: 0 <= t < i ==> out[t] == Xor(cipher[t], ks[t])
    {
      var k := gen.Next();
      assert k == ks[i];
      out := out + [Xor(cipher[i], k)];
      i := i + 1;
    }
  }

  /** The generator half of `_decipher_format_url`: build the generator
      from the id and seed bytes, then XOR the ciphertext with its bytes. */
  method DecipherData(data: seq<int>) returns (plain: Option<string>)
    requires |data| >= 5 && AllBytes(data)
    ensures plain == Plaintext(data)
  {
    var created := ByteGenerator.Create(data[0], SignedLE32(data[1..5]));
    if created.None? {
      return None;
    }
    var gen := created.value;
    assert AlgorithmFor(data[0]) == Some(gen.algorithm);
    var bytes := XorKeystream(gen, data[5..]);
    return Some(Latin1(bytes));
  }

  /** `_decipher_format_url` as the source runs it: match the path, decode
      the hex run, decipher the bytes and rebuild the URL. */
  method DecipherFormatUrl(url: string, lib: UrlLib) returns (r: Result<Option<string>>)
    ensures r == DecipherUrl(url, lib)
  {
    var m := MatchHexPath(lib.pathOf(url));
    if m.None? {
      return Ok(Some(url));
    }
    var hex, rest := m.value.0, m.value.1;
    var decoded := FromHex(hex);
    if decoded.Raised? {
      return Raised(ValueError);
    }
    var plain := DecipherData(decoded.value);
    if plain.None? {
      return Ok(None);
    }
    return Ok(Some(lib.replacePath(url, "/" + plain.value + rest)));
  }

  // ---------------------------------------------------------------------
  // Properties
  // ---------------------------------------------------------------------

  /** A path outside the pattern leaves the URL unchanged. */
  lemma UnmatchedUrlUnchanged(url: string, lib: UrlLib)
    requires forall hex, rest :: !HexPathShape(lib.pathOf(url), hex, rest)
    ensures DecipherUrl(url, lib) == Ok(Some(url))
  {
    MatchHexPathExact(lib.pathOf(url));
  }

  /** A matching path raises exactly when its hex run has odd length. */
  lemma MatchedPathOddRaises(path: string, hex: string, rest: string)
    requires HexPathShape(path, hex, rest)
    ensures DecipherPath(path) == OddHexLength <==> |hex| % 2 == 1
  {
    MatchHexPathComplete(path, hex, rest);
  }

  /** A matching path of even length decodes to at least six bytes, and
      yields `None` exactly when its first byte names no algorithm; no
      partially deciphered path is ever produced for it. */
  lemma MatchedPathUnknownAlgorithm(path: string, hex: string, rest: string)
    requires HexPathShape(path, hex, rest) && |hex| % 2 == 0
    ensures |FromHex(hex).value| >= 6
    ensures DecipherPath(path).UnknownAlgorithm? <==> !(1 <= FromHex(hex).value[0] <= 7)
    ensures DecipherPath(path).UnknownAlgorithm? ==> DecipherPath(path).id == FromHex(hex).value[0]
  {
    MatchHexPathComplete(path, hex, rest);
  }

  /** A matching path with a known algorithm id becomes `"/" + plain + rest`,
      `plain` being what the decoded bytes carry. */
  lemma MatchedPathDeciphered(path: string, hex: string, rest: string)
    requires HexPathShape(path, hex, rest) && |hex| % 2 == 0
    requires 1 <= FromHex(hex).value[0] <= 7
    ensures Plaintext(FromHex(hex).value).Some?
    ensures DecipherPath(path) == Deciphered("/" + Plaintext(FromHex(hex).value).value + rest)
  {
    MatchHexPathComplete(path, hex, rest);
  }

  /** The plaintext has one character per ciphertext byte: byte `i` XORed
      with keystream byte `i` of the generator seeded from bytes 1-4; there
      is none exactly when byte 0 names no algorithm. */
  lemma PlaintextDeciphers(data: seq<int>)
    requires |data| >= 5 && AllBytes(data)
    ensures Plaintext(data).None? <==> !(1 <= data[0] <= 7)
    ensures Plaintext(data).Some? ==>
      var ks := Keystream.Keystream(StepFn(AlgorithmFor(data[0]).value), ToSigned32(SignedLE32(data[1..5])), |data| - 5);
      && |Plaintext(data).value| == |data| - 5
      && forall i :: 0 <= i < |data| - 5 ==> Plaintext(data).value[i] as int == Xor(data[5 + i], ks[i])
  {
  }

  // ---------------------------------------------------------------------
  // The obfuscating side, and the round trip
  // ---------------------------------------------------------------------

  predicate IsLatin1(s: string) { forall i :: 0 <= i < |s| ==> s[i] as int < 256 }

  function Codes(s: string): (bs: seq<int>)
    requires IsLatin1(s)
    ensures |bs| == |s| && AllBytes(bs)
    ensures forall i :: 0 <= i < |s| ==> bs[i] == s[i] as int
  {
    seq(|s|, i requires 0 <= i < |s| => s[i] as int)
  }

  /** The bytes an obfuscated path carries for `plain`: the algorithm id, the
      seed, and `plain` XORed with the keystream. */
  function Encipher(alg: Algorithm, seed: int, plain: string): (data: seq<int>)
    requires -TWO31 <= seed < TWO31 && IsLatin1(plain)
    ensures |data| == 5 + |plain| && AllBytes(data)
  {
    var ks := Keystream.Keystream(StepFn(alg), ToSigned32(seed), |plain|);
    [IdOf(alg)] + SeedBytes(seed) + XorWith(Codes(plain), ks)
  }

  function ObfuscatedPath(alg: Algorithm, seed: int, plain: string, rest: string): string
    requires -TWO31 <= seed < TWO31 && IsLatin1(plain)
  {
    "/" + ToHex(Encipher(alg, seed, plain)) + rest
  }

  /** XORing twice with the same keystream gives back the text. */
  lemma UnXorPlain(plain: string, ks: seq<int>)
    requires IsLatin1(plain) && |ks| == |plain| && AllBytes(ks)
    ensures Latin1(XorWith(XorWith(Codes(plain), ks), ks)) == plain
  {
    var out := Latin1(XorWith(XorWith(Codes(plain), ks), ks));
    forall i | 0 <= i < |plain|
      ensures out[i] == plain[i]
    {
      XorCancel(plain[i] as int, ks[i]);
    }
  }

  /** Where the id, the seed and the ciphertext sit in the obfuscated bytes. */
  lemma EncipherLayout(alg: Algorithm, seed: int, plain: string)
    requires -TWO31 <= seed < TWO31 && IsLatin1(plain)
    ensures var data := Encipher(alg, seed, plain);
      && AlgorithmFor(data[0]) == Some(alg)
      && SignedLE32(data[1..5]) == seed
      && data[5..] == XorWith(Codes(plain), Keystream.Keystream(StepFn(alg), ToSigned32(seed), |plain|))
  {
    var data := Encipher(alg, seed, plain);
    assert data[1..5] == SeedBytes(seed);
    SeedRoundTrip(seed);
  }

  /** Obfuscation inverts deciphering: re-enciphering the plaintext of any
      decoded bytes with a known id, under the same id and seed, gives those
      bytes back. */
  lemma ObfuscationInvertsDecipher(data: seq<int>)
    requires |data| >= 5 && AllBytes(data) && 1 <= data[0] <= 7
    ensures Plaintext(data).Some? && IsLatin1(Plaintext(data).value)
    ensures Encipher(AlgorithmFor(data[0]).value, SignedLE32(data[1..5]), Plaintext(data).value) == data
  {
    var alg := AlgorithmFor(data[0]).value;
    var seed := SignedLE32(data[1..5]);
    var ks := Keystream.Keystream(StepFn(alg), ToSigned32(seed), |data| - 5);
    var plain := Plaintext(data).value;
    var cipher := data[5..];
    assert plain == Latin1(XorWith(cipher, ks));
    assert Codes(plain) == XorWith(cipher, ks);
    var back := XorWith(Codes(plain), ks);
    forall i | 0 <= i < |cipher|
      ensures back[i] == cipher[i]
    {
      XorCancel(cipher[i], ks[i]);
    }
    assert back == cipher;
    SeedBytesRoundTrip(data[1..5]);
    assert data == [data[0]] + data[1..5] + cipher;
  }

  /** Deciphering inverts obfuscation, for every algorithm, seed and
      non-empty plaintext of byte-sized characters (an empty one leaves a
      hex run of 10 digits, which the pattern does not accept). */
  lemma DecipherInvertsObfuscation(alg: Algorithm, seed: int, plain: string, rest: string)
    requires -TWO31 <= seed < TWO31 && IsLatin1(plain) && |plain| >= 1 && IsRest(rest)
    ensures DecipherPath(ObfuscatedPath(alg, seed, plain, rest)) == Deciphered("/" + plain + rest)
  {
    var data := Encipher(alg, seed, plain);
    var hex := ToHex(data);
    var path := ObfuscatedPath(alg, seed, plain, rest);
    assert path == "/" + hex + rest;
    MatchHexPathComplete(path, hex, rest);
    HexRoundTrip(data);
    EncipherLayout(alg, seed, plain);
    UnXorPlain(plain, Keystream.Keystream(StepFn(alg), ToSigned32(seed), |plain|));
  }
}
