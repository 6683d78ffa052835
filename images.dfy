/**
 * The request body accepted by the photo endpoint: a list of images, each
 * one subject string and the list of device formats wanted for it.
 */
module Images {
  import opened Wrappers

  /** The closed union of the seven device format tags. */
  datatype Format = Q4k | Mac | Iphone13Pro | GalaxyA51 | GalaxyJ7Pro | GalaxyS9P | IPad

  /** One requested image: the search subject and its formats, in order, duplicates allowed. */
  datatype Image = Image(subject: string, formats: seq<Format>)

  /** The whole request body. */
  datatype Images = Images(images: seq<Image>)

  /** The string literal that spells a format tag on the wire. */
  function FormatName(f: Format): string
  {
    match f
    case Q4k => "q4k"
    case Mac => "mac"
    case Iphone13Pro => "iphone13Pro"
    case GalaxyA51 => "galaxyA51"
    case GalaxyJ7Pro => "galaxyJ7Pro"
    case GalaxyS9P => "galaxyS9P"
    case IPad => "iPad"
  }

  /** Membership in the literal union: the tag a string spells, if any. */
  function ParseFormat(s: string): (r: Option<Format>)
  {
    if s == "q4k" then Some(Q4k)
    else if s == "mac" then Some(Mac)
    else if s == "iphone13Pro" then Some(Iphone13Pro)
    else if s == "galaxyA51" then Some(GalaxyA51)
    else if s == "galaxyJ7Pro" then Some(GalaxyJ7Pro)
    else if s == "galaxyS9P" then Some(GalaxyS9P)
    else if s == "iPad" then Some(IPad)
    else None
  }

  /** The spelling of a tag parses back to that tag, and is a non-empty word without a dash. */
  lemma FormatNameParses(f: Format)
    ensures ParseFormat(FormatName(f)) == Some(f)
    ensures |FormatName(f)| > 0 && '-' !in FormatName(f)
  {
  }

  /** A string is accepted as a tag exactly when it is the spelling of that tag. */
  lemma ParseFormatExact(s: string, f: Format)
    ensures ParseFormat(s) == Some(f) <==> s == FormatName(f)
  {
  }

  /** Distinct tags are spelled differently. */
  lemma FormatNameInjective(f: Format, g: Format)
    requires FormatName(f) == FormatName(g)
    ensures f == g
  {
    FormatNameParses(f);
    FormatNameParses(g);
  }
}
