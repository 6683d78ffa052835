/**
 * The `download` table of the photo handler: each tabled device format
 * appends a fixed crop suffix to the photo's full-size URL. The table has
 * six entries while the format union has seven tags, so resolving is a
 * partial function: `IPad` has no entry.
 */
module Crop {
  import opened Wrappers
  import opened Images

  /**
   * The crop suffix the table appends for a format, as written in the table:
   * every row is a `fit=crop` query addition that gives the height first.
   */
  function CropSuffix(f: Format): (suffix: Option<string>)
    ensures suffix.Some? ==> |suffix.value| > 12 && suffix.value[..12] == "&fit=crop&h="
  {
    match f
    case Q4k => Some("&fit=crop&h=2160&w=3840")
    case Mac => Some("&fit=crop&h=1964&w=3024")
    case Iphone13Pro => Some("&fit=crop&h=2532&w=1170")
    case GalaxyA51 => Some("&fit=crop&h=2400&w=1080")
    case GalaxyJ7Pro => Some("&fit=crop&h=1920&w=1080")
    case GalaxyS9P => Some("&fit=crop&h=2960&w=1440")
    case IPad => None
  }

  /** `download[format]`: the full URL with the format's crop suffix, or nothing for an untabled tag. */
  function Resolve(url: string, f: Format): (r: Option<string>)
    ensures r.None? <==> f == IPad
  {
    match CropSuffix(f)
    case None => None
    case Some(suffix) => Some(url + suffix)
  }

  /** A resolved URL is the full URL followed by a non-empty crop suffix. */
  lemma ResolveExtends(url: string, f: Format)
    requires f != IPad
    ensures |Resolve(url, f).value| > |url| && Resolve(url, f).value[..|url|] == url
  {
    var suffix := CropSuffix(f).value;
    assert (url + suffix)[..|url|] == url;
  }

  /** Two rows of the table: the iPhone 13 Pro and the 4K crops. */
  lemma ResolveExamples(url: string)
    ensures Resolve(url, Iphone13Pro) == Some(url + "&fit=crop&h=2532&w=1170")
    ensures Resolve(url, Q4k) == Some(url + "&fit=crop&h=2160&w=3840")
  {
  }

  /** Six of the seven tags are tabled; `IPad` is the only one missing. */
  lemma OnlyIPadUntabled()
    ensures forall f: Format :: CropSuffix(f).None? <==> f == IPad
  {
  }

  /** Two tabled formats resolving to the same URL are the same format. */
  lemma ResolveInjective(url: string, f: Format, g: Format)
    requires Resolve(url, f).Some? && Resolve(url, g).Some?
    requires Resolve(url, f) == Resolve(url, g)
    ensures f == g
  {
    var sf, sg := CropSuffix(f).value, CropSuffix(g).value;
    assert (url + sf)[|url|..] == sf;
    assert (url + sg)[|url|..] == sg;
  }
}
