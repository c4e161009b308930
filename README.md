# xHamster scraper: URL de-obfuscation and format selection, in Dafny

This project models the network-free core of `xh_scraper.py`, the xHamster
video scraper, and proves properties of that model. The core has four parts.

- **Fixed-width arithmetic** (`fixed_width.dfy`):
  - `to_signed_32`;
  - Python's unbounded `^`, `|`, `&`, `<<` and `>>` on `int`;
  - the facts that these respect congruence modulo 2^32.
- **The keystream generator `_ByteGenerator`** (`keystream.dfy`):
  - seven recurrences over one register `self._s`, chosen by an algorithm id;
  - a class `ByteGenerator` with the register as a field;
  - each `_algoN` as a method proved against a step function;
  - `__next__` yields the low byte of a step's result.
  - The emitted bytes depend only on the seed modulo 2^32. They equal those of a reference written in JavaScript's 32-bit arithmetic (`ToInt32`, `Math.imul`, `>>>`), as the class's docstring claims.
- **The URL decipherer** (`hex.dfy`, `decipher.dfy`):
  - the path pattern `_HEX_RE`;
  - `bytes.fromhex` and `int.from_bytes(..., "little", signed=True)`;
  - the XOR with the keystream, read as ISO-8859-1;
  - the rebuilt path `"/" + plain + rest`;
  - `_decipher_format_url` as a method proved against a function;
  - the obfuscating side, with the round trip proved.
- **Formats** (`text.dfy`, `formats.dfy`, `manifest.dfy`, `collect.dfy`):
  - the line loop of `_extract_m3u8_variants` over an HLS master playlist, which pairs `#EXT-X-STREAM-INF:` tags with the URI lines after them;
  - the nested `_add` of `extract_video_info`, as a class `FormatCollector` whose `formats` list and `seen` set are updated in place;
  - `get_best_format`, which picks the first format of maximal score.

`common.dfy` holds `Option` and `Result` and the exceptions that escape. It also holds `UrlLib`, the uninterpreted `urlparse(...).path`, `_replace(path=...).geturl()` and `urljoin` functions.

The model follows what the code does, including where that departs from
its own docstrings or from what the scraper evidently aims at:

- `to_signed_32` (xh_scraper.py:14-16) keeps the sign of its argument, so its result lies in [0, 2^32) or (-2^32, 0].
  - The docstring's "(int32)" range [-2^31, 2^31) does not hold for the value: `FixedWidth.ToSigned32LeavesInt32Range`.
  - The bytes still agree with 32-bit arithmetic: `Keystream.KeystreamDependsOnResidue`.
- An unknown algorithm id makes `_decipher_format_url` return `None` (xh_scraper.py:154-157). `_add` then keeps the still-ciphered URL (xh_scraper.py:234) instead of dropping that candidate.
- A matching path whose hex run has odd length raises `ValueError` from `bytes.fromhex` (xh_scraper.py:152). Nothing catches it, so the exception leaves `_add`.
- A variant without a (non-zero) height gets the id `"hls-unkp"` (xh_scraper.py:199).
- `tbr` is `BANDWIDTH / 1000` as an exact ratio, not truncated (xh_scraper.py:195).
- The `rest` group needs at least one character after its `/` or `,`, and `$` also matches before a final newline (xh_scraper.py:95).

## Model

| member | source | states |
|---|---|---|
| FixedWidth.ToSigned32 | xh_scraper.py:14-16 | the result is congruent to `n` modulo 2^32, lies in [0, 2^32) for `n >= 0` and in (-2^32, 0] for `n < 0` |
| FixedWidth.ToSigned32IsPyMod | xh_scraper.py:16 | `to_signed_32(n)` is Python's floored `n % (±2^32)`, the sign of the modulus following `n` |
| FixedWidth.ToSigned32LeavesInt32Range | xh_scraper.py:14-16 | 2^31 is left as 2^31 where a 32-bit register holds -2^31, so the docstring's "(int32)" claim does not hold for the value |
| FixedWidth.ToSigned32AsInt32 | xh_scraper.py:14-16 | reading `to_signed_32(n)` as an int32 gives the int32 of `n` |
| FixedWidth.XorCong32 | xh_scraper.py:39-41 | `^` of operands congruent modulo 2^32 gives congruent results |
| FixedWidth.OrCong32 | xh_scraper.py:54 | `|` of operands congruent modulo 2^32 gives congruent results |
| FixedWidth.MulCong32 | xh_scraper.py:47 | `*` respects congruence modulo 2^32 |
| FixedWidth.AddCong32 | xh_scraper.py:45 | `+` respects congruence modulo 2^32 |
| FixedWidth.ShlCong32 | xh_scraper.py:39 | `<<` respects congruence modulo 2^32 |
| FixedWidth.Low32OfCong | xh_scraper.py:40 | `s & 0xFFFFFFFF` depends only on `s` modulo 2^32 |
| FixedWidth.LowIsAnd | xh_scraper.py:40 | `a & (2^k - 1)` is `a` modulo 2^k, for negative `a` too |
| FixedWidth.XorCancel | xh_scraper.py:158 | XOR with the same value twice gives the value back |
| FixedWidth.XorBounded | xh_scraper.py:158 | the XOR of two values below 2^k is below 2^k (a byte XOR a byte is a byte) |
| Keystream.AlgorithmFor | xh_scraper.py:26-30 | an algorithm exists exactly for the ids 1 to 7, and it carries that id |
| Keystream.ShiftAmount | xh_scraper.py:69 | the shift of algorithm 6 is below 32 and is the top five bits of the register's low 32 bits |
| Keystream.LowByte | xh_scraper.py:80 | `x & 0xFF` lies in 0..255 and is `x` modulo 256 |
| Keystream.Keystream | xh_scraper.py:79-80 | `n` bytes, each in 0..255 |
| Keystream.ByteGenerator.constructor | xh_scraper.py:26-31 | the chosen algorithm, its step function and the register `to_signed_32(seed)` |
| Keystream.ByteGenerator.Create | xh_scraper.py:26-31 | construction fails exactly for an id outside 1..7, before any byte is drawn; otherwise the register is `to_signed_32(seed)` |
| Keystream.ByteGenerator.Algo1 | xh_scraper.py:34-36 | the register and the result after `_algo1` are those of the LCG step `Step1` |
| Keystream.ByteGenerator.Algo2 | xh_scraper.py:38-42 | the register and the result after `_algo2` are those of the xorshift step `Step2` |
| Keystream.ByteGenerator.Algo3 | xh_scraper.py:44-50 | the register after `_algo3` is the first add step; the result is the mixed value of `Step3` |
| Keystream.ByteGenerator.Algo4 | xh_scraper.py:52-57 | the register after `_algo4` is the first add step; the result is the rotate-and-mix value of `Step4` |
| Keystream.ByteGenerator.Algo5 | xh_scraper.py:59-64 | the register and the result after `_algo5` are those of `Step5` |
| Keystream.ByteGenerator.Algo6 | xh_scraper.py:66-70 | the register after `_algo6` is the LCG step; the result is the shifted value of `Step6` |
| Keystream.ByteGenerator.Algo7 | xh_scraper.py:72-77 | the register after `_algo7` is the first add step; the result is the mixed value of `Step7` |
| Keystream.ByteGenerator.Next | xh_scraper.py:79-80 | `__next__` moves the register one step and yields the low byte of the step's result, always in 0..255 |
| Keystream.StoredRegister | xh_scraper.py:34-77 | algorithms 1, 2 and 5 store the value they return; 3, 4, 6 and 7 store only their first add or LCG step |
| Keystream.RegisterBounded | xh_scraper.py:31-77 | every register value the generator holds lies in (-2^32, 2^32) |
| Keystream.AlgorithmMatchesJs | xh_scraper.py:33-77 | each of the seven steps, on registers congruent modulo 2^32, gives congruent registers and results in Python's and in 32-bit arithmetic |
| Keystream.KeystreamsAgree | xh_scraper.py:79-80 | step functions that agree modulo 2^32 yield the same bytes from congruent registers |
| Keystream.KeystreamMatchesJs | xh_scraper.py:20-21 | the Python generator and the 32-bit reference emit identical byte streams from congruent seeds |
| Keystream.KeystreamDependsOnResidue | xh_scraper.py:31 | the bytes depend only on the seed modulo 2^32 and equal those of the 32-bit reference seeded with its int32 |
| Hex.FromHex | xh_scraper.py:152 | `bytes.fromhex` on a hex run succeeds exactly for even length, giving half as many bytes; odd length raises `ValueError` |
| Hex.FromHexDigits | xh_scraper.py:152 | byte `i` has digit `2i` as its high nibble and digit `2i + 1` as its low one |
| Hex.HexRoundTrip | xh_scraper.py:152 | `bytes.fromhex` inverts lower-case hex encoding |
| Hex.SignedLE32 | xh_scraper.py:153 | the little-endian signed seed lies in [-2^31, 2^31) and is congruent to the unsigned little-endian value of the four bytes |
| Hex.SeedRoundTrip | xh_scraper.py:153 | reading back the four little-endian bytes of a signed 32-bit seed gives the seed |
| Hex.SeedBytesRoundTrip | xh_scraper.py:153 | writing back the seed read from four bytes gives those bytes |
| Decipher.MatchHexPath | xh_scraper.py:95 | a match has a hex group of at least 12 hex digits |
| Decipher.MatchHexPathSound | xh_scraper.py:95 | the groups found decompose the path as `/` + hex + rest (+ an optional final newline) |
| Decipher.MatchHexPathComplete | xh_scraper.py:95 | every decomposition the pattern admits is the one found |
| Decipher.MatchHexPathExact | xh_scraper.py:95 | the pattern matches exactly when such a decomposition exists |
| Decipher.XorWith | xh_scraper.py:158 | each output byte is the XOR of the ciphertext byte and the keystream byte at the same index |
| Decipher.Latin1 | xh_scraper.py:158 | one character per byte, whose code point is the byte |
| Decipher.XorKeystream | xh_scraper.py:158 | the comprehension draws one keystream byte per ciphertext byte, in order; the output is the XOR with the keystream and the register has advanced by the ciphertext's length |
| Decipher.DecipherData | xh_scraper.py:153-158 | building the generator and XORing gives the plaintext `Plaintext` describes, or `None` for an unknown id |
| Decipher.DecipherFormatUrl | xh_scraper.py:146-159 | the method computes `DecipherUrl`: the URL itself, the rebuilt URL, `None`, or the uncaught `ValueError` |
| Decipher.UnmatchedUrlUnchanged | xh_scraper.py:148-150 | a path outside the pattern returns the URL unchanged |
| Decipher.MatchedPathOddRaises | xh_scraper.py:152 | a matching path raises exactly when its hex run has odd length |
| Decipher.MatchedPathUnknownAlgorithm | xh_scraper.py:153-157 | an even matching hex run decodes to at least six bytes, and yields `None` exactly when byte 0 is outside 1..7 |
| Decipher.MatchedPathDeciphered | xh_scraper.py:158-159 | with a known id the new path is `"/" + plain + rest` |
| Decipher.PlaintextDeciphers | xh_scraper.py:153-158 | `plain` has `len(data) - 5` characters, character `i` being `data[5+i]` XOR keystream byte `i` of the generator seeded from bytes 1-4 |
| Decipher.UnXorPlain | xh_scraper.py:158 | XORing a text twice with the same keystream gives it back |
| Decipher.EncipherLayout | xh_scraper.py:153 | the obfuscated bytes carry the algorithm id at 0, the seed at 1-4 and the ciphertext from 5 on |
| Decipher.ObfuscationInvertsDecipher | xh_scraper.py:153-158 | re-enciphering the plaintext of any decoded bytes with a known id, under the same id and seed, gives the bytes back |
| Decipher.DecipherInvertsObfuscation | xh_scraper.py:146-159 | deciphering an obfuscated path gives `"/" + plain + rest` back, for every algorithm, seed and non-empty byte-sized plaintext |
| Text.SplitLinesOfLine | xh_scraper.py:183 | a non-empty text without line boundaries is one line |
| Text.SplitLines | xh_scraper.py:183 | no line holds a line break, and only the empty text has no lines |
| Text.SplitLinesCons | xh_scraper.py:183 | a line followed by `\n` is split off as the first line |
| Text.SplitLinesCrLf | xh_scraper.py:183 | a line followed by `\r\n` is split off as the first line, the pair counting as one boundary |
| Text.SplitLinesBreak | xh_scraper.py:183 | a line followed by any other boundary character, or by a `\r` with no `\n` after it, is split off as the first line |
| Text.TrimStart | xh_scraper.py:184 | only leading whitespace is removed, and all of it |
| Text.TrimEnd | xh_scraper.py:184 | only trailing whitespace is removed, and all of it |
| Text.StripProperties | xh_scraper.py:184 | `strip()` leaves an infix with no whitespace at either end, and is idempotent |
| Text.IndexOf | xh_scraper.py:193 | the first index holding the character, or none when it does not occur |
| Text.SecondField | xh_scraper.py:193 | `split("x")[1]` is the text right after the first `x`, up to the second `x` or the end, and holds no `x` |
| Text.ParseIntRoundTrip | xh_scraper.py:193 | `int(str(n)) == n` |
| Text.FirstDigitRun | xh_scraper.py:294 | the run of digits starting at the first digit, taken whole (the next character is not a digit); none exactly when the text has no digit |
| Text.FirstDigitIndex | xh_scraper.py:294 | the index of the first digit; none exactly when there is none |
| Text.ParseDigits | xh_scraper.py:195 | `int()` of a non-empty digit string, leading zeros included, is its decimal value |
| Formats.HeightFrom | xh_scraper.py:247 | the leftmost position where `(\d{3,4})p` matches, or none |
| Formats.DirectHeight | xh_scraper.py:247-248 | the height from the leftmost `\d{3,4}p` of the id, below 10000; none exactly when no position matches |
| Formats.DirectHeightOfVariantId | xh_scraper.py:247-248 | an id `hls-<h>p` with a three- or four-digit `h` is given height `h` |
| Formats.TruncReal | xh_scraper.py:293 | `int()` on a float truncates toward zero |
| Formats.BestIndex | xh_scraper.py:297 | the index chosen has a maximal score and every earlier format scores strictly less |
| Formats.BestFormat | xh_scraper.py:285-297 | `None` exactly for an empty list; otherwise a member of the list |
| Formats.BestIsFirstMaximal | xh_scraper.py:297 | the first format of maximal score is exactly the one chosen |
| Formats.BestStableUnderWeakerAppend | xh_scraper.py:297 | appending formats that score no higher keeps the choice |
| Formats.ScoreOfVariant | xh_scraper.py:289-293 | a non-zero height is the score; otherwise a positive bitrate is the score in whole kbit/s |
| Manifest.BaseOf | xh_scraper.py:177 | the base is the URL up to and including its last `/`, or the whole URL plus `/` when it has none |
| Manifest.Run | xh_scraper.py:180 | the longest prefix whose characters are in the class |
| Manifest.AttrAt | xh_scraper.py:180 | a match of the attribute pattern ends within the text and after its start |
| Manifest.AttrAtWritten | xh_scraper.py:180 | the pattern matches a written `NAME=VALUE` whole, whatever follows after a comma |
| Manifest.LeadingQuotes | xh_scraper.py:187 | the length of the maximal run of quotes at the start |
| Manifest.StripQuotes | xh_scraper.py:187 | no quote is left at either end of the result |
| Manifest.StripQuotesInfix | xh_scraper.py:187 | the result starts right after the leading run of quotes and is followed only by quotes; with the ends above, it is exactly `v.strip('"')` |
| Manifest.ToMap | xh_scraper.py:186-189 | the keys of the map are exactly the names found; it is empty exactly when no pair is found |
| Manifest.ToMapLastWins | xh_scraper.py:186-189 | a name maps to the quote-stripped value of its last pair |
| Manifest.FindAllRender | xh_scraper.py:180-188 | `findall` on a written `NAME=VALUE,...` list gives its pairs back, in order |
| Manifest.FormatIdUnknown | xh_scraper.py:199 | the id is `hls-unkp` exactly when the height is missing or zero |
| Manifest.HeightOfResolution | xh_scraper.py:192-193 | `RESOLUTION=<w>x<h>` gives height `h` |
| Manifest.HeightAbsent | xh_scraper.py:192-193 | the height is absent exactly when `RESOLUTION` is missing or holds no `x` |
| Manifest.TbrFor | xh_scraper.py:194-195 | a bitrate is present exactly when `BANDWIDTH` is a non-empty digit string, and is then `int(BANDWIDTH) / 1000`, non-negative |
| Manifest.TbrOfBandwidth | xh_scraper.py:194-195 | a decimal `BANDWIDTH` gives `BANDWIDTH / 1000` exactly |
| Manifest.MakeVariant | xh_scraper.py:191-205 | building a variant raises exactly when reading the height raises |
| Manifest.Classify | xh_scraper.py:184-190 | a stripped line is a tag line exactly when it starts with `#EXT-X-STREAM-INF:`, and a URI line exactly when it is not one, is non-blank and does not start with `#` |
| Manifest.ClassifiedAt | xh_scraper.py:183-184 | line `i` of the text is classified on its own |
| Manifest.ProcessLine | xh_scraper.py:184-206 | the loop body on line `i` is one `Step` of the line's classification |
| Manifest.ParseLines | xh_scraper.py:183-208 | the loop returns the variants of `Parse` over the classified lines, or the exception it raised |
| Manifest.ExtractVariants | xh_scraper.py:177-208 | the method computes `Variants` for the fetched text |
| Manifest.ParseSnoc | xh_scraper.py:183 | the loop over one more line is one more step |
| Manifest.RaisedPersists | xh_scraper.py:183-206 | once a line raises, the whole loop raises that exception |
| Manifest.ParseAppend | xh_scraper.py:183 | the loop over two stretches of lines is the loop over the second, from the state after the first |
| Manifest.ParseExtends | xh_scraper.py:196 | variants are only appended: the earlier ones stay in front, in order |
| Manifest.ParseWellFormed | xh_scraper.py:196-205 | every emitted variant has `ext` "mp4", `protocol` "m3u8", the id for its height and a non-negative bitrate |
| Manifest.VariantCountBounds | xh_scraper.py:185-206 | each tag line yields at most one variant and each variant consumes one URI line |
| Manifest.VariantsAtMostTags | xh_scraper.py:183-208 | no more variants than tag lines, nor than URI lines, and all well formed |
| Manifest.OtherLinesKeep | xh_scraper.py:183-190 | lines that are neither tags nor URIs change nothing |
| Manifest.LaterTagReplaces | xh_scraper.py:185-189 | a tag reached from a dangling tag across lines that are neither tags nor URIs replaces it, the first tag's attributes unused |
| Manifest.EmptyTagYieldsNothing | xh_scraper.py:190 | a tag with no parsable attribute, followed by no other tag, yields nothing |
| Manifest.TagThenUri | xh_scraper.py:190-206 | a tag with attributes followed by a URI yields exactly one variant, whose URL is `urljoin(base, uri)` and whose height, format id and bitrate come from that tag's `RESOLUTION` and `BANDWIDTH`; the pending map is cleared |
| Collect.Resolve | xh_scraper.py:234 | `decipher(furl) or furl` raises exactly when the decipherer raises; it is the deciphered URL when that is non-empty, and `furl` itself when the decipherer returns `None` or an empty URL |
| Collect.DecipheredUrlStored | xh_scraper.py:234-249 | a URL whose path deciphers to `p` is marked seen and listed under the rebuilt URL, not under the ciphered one |
| Collect.FormatCollector.constructor | xh_scraper.py:228-229 | `formats` and `seen` start empty |
| Collect.FormatCollector.Add | xh_scraper.py:231-249 | one call of `_add` updates `formats` and `seen` as `AddSpec` describes and keeps direct URLs distinct and seen |
| Collect.EmptyUrlIgnored | xh_scraper.py:232-233 | a missing or empty URL changes nothing |
| Collect.UnknownAlgorithmKeepsUrl | xh_scraper.py:154-157 | when the id is unknown, the still-ciphered URL is what gets marked seen and added |
| Collect.SeenUrlSkipped | xh_scraper.py:235-236 | a URL that resolves to one already seen changes nothing |
| Collect.AddGrows | xh_scraper.py:235-249 | `formats` is only appended to; `seen` grows by the resolved URL, even when the playlist fetch then raises, and by nothing when the URL is empty or the decipherer raises |
| Collect.AddIdempotent | xh_scraper.py:235-237 | repeating a call that raised nothing changes nothing more |
| Collect.AddKeepsDirectUrlsDistinct | xh_scraper.py:235-249 | every call keeps the direct formats' URLs distinct and in `seen` |

## Left out

- HTTP is not modelled. That covers `download_webpage`, the session, headers, proxies, timeouts, `raise_for_status` and the age-gate retry. The playlist fetch in `_add` is a parameter `fetch` that gives the text or a `TransportError`.
- Cookie loading, the ffmpeg download and the `__main__` block are not modelled. They are file I/O, an external process and command-line glue.
- The page scraping of `extract_video_info` is not modelled. That covers `_VIDEO_RE`, the HTML and JSON regular expressions, `json.loads` and the calls of `_add` over the `hls` and `standard` sources. `_add` is modelled for any URL, id and quality it may be called with.
- `urlparse`, `geturl` and `urljoin` are uninterpreted functions in `UrlLib`. Only the path and the joined URL are used.
- Python's `\d`, `str.isdigit` and `int()` are limited to ASCII digits. The model does not accept Unicode digits or underscores inside numerals.
- `str.strip()` and `str.splitlines()` use explicit lists of whitespace and line-break characters.
- `tbr` is the exact ratio `BANDWIDTH / 1000` as a `real`. Python stores the nearest double instead, whose `int()` agrees with the ratio's floor for every `BANDWIDTH` below about 2^53; `_score` reads `tbr` only through `int()` (xh_scraper.py:292-293).
- Manifest.TbrFor: returns the ratio where `int(bw) / 1000` (xh_scraper.py:195) raises, namely OverflowError for a `BANDWIDTH` of about 312 digits or more, whose quotient exceeds the double range, and CPython's ValueError for a numeral of more than 4300 digits.
- Manifest.HeightOf: returns the height where `int()` (xh_scraper.py:193) raises CPython's ValueError for a numeral of more than 4300 digits.
- Formats.Score: returns the digit run's value where `int(m.group(1))` (xh_scraper.py:295) raises CPython's ValueError for a run of more than 4300 digits.
- `errors="ignore"` of the Latin-1 decode has no effect, because ISO-8859-1 maps every byte, so it is not modelled.
- Keystream.KeystreamMatchesJs: the reference for the "identical to JavaScript" claim is written over `int` with explicit 32-bit reduction (`ToInt32`), not over Dafny's `bv32`.
