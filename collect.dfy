/** The nested `_add` of `extract_video_info` (xh_scraper.py:231-249): every
    URL the page lists is deciphered, deduplicated against the URLs already
    seen, and either expanded into the variants of its HLS master playlist
    or recorded as one direct format.  The fetch of a playlist is a
    parameter: it gives the playlist text or the transport error. */
module Collect {
  import opened Common
  import opened Text
  import opened Formats
  import Manifest
  import Decipher

  /** `self._decipher_format_url(furl) or furl`: a `None` or an empty result
      falls back to the URL as given; a `ValueError` escapes. */
  function Resolve(furl: string, lib: UrlLib): (r: Result<string>)
    requires furl != ""
    ensures r.Raised? <==> Decipher.DecipherUrl(furl, lib).Raised?
    ensures r.Ok? ==> r.value != ""
    ensures Decipher.DecipherUrl(furl, lib) == Ok(None) ==> r == Ok(furl)
    ensures Decipher.DecipherUrl(furl, lib).Ok? && Decipher.DecipherUrl(furl, lib).value.Some? ==>
              r == Ok(if Decipher.DecipherUrl(furl, lib).value.value == "" then furl
                      else Decipher.DecipherUrl(furl, lib).value.value)
  {
    match Decipher.DecipherUrl(furl, lib)
    case Raised(e) => Raised(e)
    case Ok(None) => Ok(furl)
    case Ok(Some(u)) => if u == "" then Ok(furl) else Ok(u)
  }

  /** The `formats` list and the `seen` set `_add` closes over. */
  datatype Collected = Collected(formats: seq<Format>, seen: set<string>)

  /** The state after one call of `_add`, and the exception it raised, if
      any. */
  datatype Added = Added(raised: Option<Error>, state: Collected)

  /** `_add` once the URL is resolved to `u`: a URL seen before is skipped;
      otherwise it is marked seen first, then a playlist (a URL ending in
      `.m3u8`) contributes its variants and anything else one direct
      format.  A playlist that cannot be fetched or parsed raises with the
      URL already marked seen. */
  function AddResolved(c: Collected, u: string, formatId: string, quality: Option<string>,
                       lib: UrlLib, fetch: string -> Result<string>): Added
  {
    if u in c.seen then Added(None, c)
    else
      var seen := c.seen + {u};
      if EndsWith(u, ".m3u8") then
        match fetch(u)
        case Raised(e) => Added(Some(e), Collected(c.formats, seen))
        case Ok(text) =>
          match Manifest.Variants(u, text, lib)
          case Raised(e) => Added(Some(e), Collected(c.formats, seen))
          case Ok(vs) => Added(None, Collected(c.formats + vs, seen))
      else Added(None, Collected(c.formats + [Direct(u, formatId, quality, DirectHeight(formatId))], seen))
  }

  /** `_add(furl, fmt_id, quality)`.  A missing or empty URL is ignored; a
      `ValueError` of the decipherer escapes before anything changes. */
  function AddSpec(c: Collected, furl: Option<string>, formatId: string, quality: Option<string>,
                   lib: UrlLib, fetch: string -> Result<string>): Added
  {
    if furl.None? || furl.value == "" then Added(None, c)
    else match Resolve(furl.value, lib)
      case Raised(e) => Added(Some(e), c)
      case Ok(u) => AddResolved(c, u, formatId, quality, lib, fetch)
  }

  /** The closure's state as an object: `_add` updates both fields in place. */
  class FormatCollector {
    var formats: seq<Format>
    var seen: set<string>

    /** No direct format is listed twice, and each one's URL is seen. */
    ghost predicate Valid()
      reads this
    {
      DirectUrlsDistinct(Collected(formats, seen))
    }

    constructor ()
      ensures formats == [] && seen == {}
      ensures Valid()
    {
      formats := [];
      seen := {};
    }

    /** `_add(furl, fmt_id, quality)`; `raised` is the exception that escapes. */
    method Add(furl: Option<string>, formatId: string, quality: Option<string>,
               lib: UrlLib, fetch: string -> Result<string>)
      returns (raised: Option<Error>)
      requires Valid()
      modifies this
      ensures Added(raised, Collected(formats, seen)) ==
                AddSpec(old(Collected(formats, seen)), furl, formatId, quality, lib, fetch)
      ensures Valid()
    {
      AddKeepsDirectUrlsDistinct(Collected(formats, seen), furl, formatId, quality, lib, fetch);
      if furl.None? || furl.value == "" {
        return None;
      }
      var deciphered := Decipher.DecipherFormatUrl(furl.value, lib);
      if deciphered.Raised? {
        return Some(deciphered.error);
      }
      var u := furl.value;
      if deciphered.value.Some? && deciphered.value.value != "" {
        u := deciphered.value.value;
      }
      if u in seen {
        return None;
      }
      seen := seen + {u};
      if EndsWith(u, ".m3u8") {
        var text := fetch(u);
        if text.Raised? {
          return Some(text.error);
        }
        var variants := Manifest.ExtractVariants(u, text.value, lib);
        if variants.Raised? {
          return Some(variants.error);
        }
        formats := formats + variants.value;
      } else {
        formats := formats + [Direct(u, formatId, quality, DirectHeight(formatId))];
      }
      return None;
    }
  }

  // ---------------------------------------------------------------------
  // Properties
  // ---------------------------------------------------------------------

  /** A missing or empty URL changes nothing. */
  lemma EmptyUrlIgnored(c: Collected, furl: Option<string>, formatId: string, quality: Option<string>,
                        lib: UrlLib, fetch: string -> Result<string>)
    requires furl.None? || furl.value == ""
    ensures AddSpec(c, furl, formatId, quality, lib, fetch) == Added(None, c)
  {
  }

  /** A URL whose algorithm id the generator refuses is not dropped: the
      still-ciphered URL itself is what gets marked seen and added. */
  lemma UnknownAlgorithmKeepsUrl(c: Collected, furl: string, formatId: string, quality: Option<string>,
                                 lib: UrlLib, fetch: string -> Result<string>)
    requires furl != "" && Decipher.DecipherUrl(furl, lib) == Ok(None) && furl !in c.seen
    ensures furl in AddSpec(c, Some(furl), formatId, quality, lib, fetch).state.seen
    ensures !EndsWith(furl, ".m3u8") ==>
              AddSpec(c, Some(furl), formatId, quality, lib, fetch).state.formats ==
              c.formats + [Direct(furl, formatId, quality, DirectHeight(formatId))]
  {
  }

  /** A URL whose path deciphers to `p` is recorded under the rebuilt URL
      (when that is not empty): it is the one marked seen, and a direct
      format is listed under it. */
  lemma DecipheredUrlStored(c: Collected, furl: string, p: string, formatId: string, quality: Option<string>,
                            lib: UrlLib, fetch: string -> Result<string>)
    requires furl != "" && Decipher.DecipherPath(lib.pathOf(furl)) == Decipher.Deciphered(p)
    requires lib.replacePath(furl, p) != "" && lib.replacePath(furl, p) !in c.seen
    ensures Resolve(furl, lib) == Ok(lib.replacePath(furl, p))
    ensures lib.replacePath(furl, p) in AddSpec(c, Some(furl), formatId, quality, lib, fetch).state.seen
    ensures !EndsWith(lib.replacePath(furl, p), ".m3u8") ==>
              AddSpec(c, Some(furl), formatId, quality, lib, fetch) ==
              Added(None, Collected(c.formats + [Direct(lib.replacePath(furl, p), formatId, quality, DirectHeight(formatId))],
                                    c.seen + {lib.replacePath(furl, p)}))
  {
  }

  /** A URL that resolves to one already seen changes nothing. */
  lemma SeenUrlSkipped(c: Collected, furl: string, formatId: string, quality: Option<string>,
                       lib: UrlLib, fetch: string -> Result<string>)
    requires furl != "" && Resolve(furl, lib).Ok? && Resolve(furl, lib).value in c.seen
    ensures AddSpec(c, Some(furl), formatId, quality, lib, fetch) == Added(None, c)
  {
  }

  /** The list is only appended to and the set only grows: by the resolved
      URL, even when an exception escapes later, and by nothing when the URL
      is empty or the decipherer raises. */
  lemma AddGrows(c: Collected, furl: Option<string>, formatId: string, quality: Option<string>,
                 lib: UrlLib, fetch: string -> Result<string>)
    ensures var a := AddSpec(c, furl, formatId, quality, lib, fetch).state;
      |c.formats| <= |a.formats| && a.formats[..|c.formats|] == c.formats
    ensures furl.Some? && furl.value != "" && Resolve(furl.value, lib).Ok? ==>
              AddSpec(c, furl, formatId, quality, lib, fetch).state.seen
                == c.seen + {Resolve(furl.value, lib).value}
    ensures furl.None? || furl.value == "" || Resolve(furl.value, lib).Raised? ==>
              AddSpec(c, furl, formatId, quality, lib, fetch).state == c
  {
    if furl.Some? && furl.value != "" && Resolve(furl.value, lib).Ok? {
      AddResolvedGrows(c, Resolve(furl.value, lib).value, formatId, quality, lib, fetch);
    }
  }

  lemma AddResolvedGrows(c: Collected, u: string, formatId: string, quality: Option<string>,
                         lib: UrlLib, fetch: string -> Result<string>)
    ensures var a := AddResolved(c, u, formatId, quality, lib, fetch).state;
      && |c.formats| <= |a.formats| && a.formats[..|c.formats|] == c.formats
      && a.seen == c.seen + {u}
  {
    var a := AddResolved(c, u, formatId, quality, lib, fetch).state;
    if u in c.seen {
      assert c.seen + {u} == c.seen;
    }
    assert a.formats[..|c.formats|] == c.formats;
  }

  /** Calling `_add` again with the same arguments after a call that raised
      nothing changes nothing more. */
  lemma AddIdempotent(c: Collected, furl: Option<string>, formatId: string, quality: Option<string>,
                      lib: UrlLib, fetch: string -> Result<string>)
    requires AddSpec(c, furl, formatId, quality, lib, fetch).raised.None?
    ensures var a := AddSpec(c, furl, formatId, quality, lib, fetch).state;
      AddSpec(a, furl, formatId, quality, lib, fetch) == Added(None, a)
  {
  }

  /** What the collected state keeps: no two direct formats share a URL,
      and every direct format's URL is in `seen`. */
  ghost predicate DirectUrlsDistinct(c: Collected)
  {
    && (forall i, j :: 0 <= i < j < |c.formats| && c.formats[i].Direct? && c.formats[j].Direct? ==>
          c.formats[i].url != c.formats[j].url)
    && forall i :: 0 <= i < |c.formats| && c.formats[i].Direct? ==> c.formats[i].url in c.seen
  }

  /** `_add` keeps that invariant, whatever it is called with. */
  lemma AddKeepsDirectUrlsDistinct(c: Collected, furl: Option<string>, formatId: string, quality: Option<string>,
                                   lib: UrlLib, fetch: string -> Result<string>)
    requires DirectUrlsDistinct(c)
    ensures DirectUrlsDistinct(AddSpec(c, furl, formatId, quality, lib, fetch).state)
  {
    if furl.Some? && furl.value != "" && Resolve(furl.value, lib).Ok? {
      var u := Resolve(furl.value, lib).value;
      AddResolvedKeeps(c, u, formatId, quality, lib, fetch);
    }
  }

  lemma AddResolvedKeeps(c: Collected, u: string, formatId: string, quality: Option<string>,
                         lib: UrlLib, fetch: string -> Result<string>)
    requires DirectUrlsDistinct(c)
    ensures DirectUrlsDistinct(AddResolved(c, u, formatId, quality, lib, fetch).state)
  {
    if u !in c.seen {
      if !EndsWith(u, ".m3u8") {
        AppendDirectKeeps(c, Direct(u, formatId, quality, DirectHeight(formatId)));
      } else if fetch(u).Ok? && Manifest.Variants(u, fetch(u).value, lib).Ok? {
        Manifest.VariantsAtMostTags(fetch(u).value, u, lib);
        AppendVariantsKeeps(c, Manifest.Variants(u, fetch(u).value, lib).value, u);
      } else {
        GrowSeenKeeps(c, u);
      }
    }
  }

  lemma AppendDirectKeeps(c: Collected, d: Format)
    requires DirectUrlsDistinct(c) && d.Direct? && d.url !in c.seen
    ensures DirectUrlsDistinct(Collected(c.formats + [d], c.seen + {d.url}))
  {
    var fs := c.formats + [d];
    assert forall k :: 0 <= k < |c.formats| ==> fs[k] == c.formats[k];
  }

  lemma AppendVariantsKeeps(c: Collected, vs: seq<Format>, u: string)
    requires DirectUrlsDistinct(c)
    requires forall k :: 0 <= k < |vs| ==> Manifest.WellFormed(vs[k])
    ensures DirectUrlsDistinct(Collected(c.formats + vs, c.seen + {u}))
  {
    var fs := c.formats + vs;
    assert forall k :: 0 <= k < |fs| && fs[k].Direct? ==> k < |c.formats| && fs[k] == c.formats[k];
  }

  lemma GrowSeenKeeps(c: Collected, u: string)
    requires DirectUrlsDistinct(c)
    ensures DirectUrlsDistinct(Collected(c.formats, c.seen + {u}))
  {
  }
}
