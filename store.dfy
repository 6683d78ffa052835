/**
 * The blob side of the photo handler: the name each variant is stored
 * under, the container the bytes are written to, and what a sequence of
 * writes leaves in it.
 */
module Store {
  import opened Wrappers
  import opened Images

  newtype Byte = b: int | 0 <= b < 256

  /** The bytes of one downloaded variant. */
  type Bytes = seq<Byte>

  /** The blob name of a variant: `<subject>-<format>.jpg`, which starts with the subject and a dash and ends with `.jpg`. */
  function BlobName(subject: string, f: Format): (name: string)
    ensures |name| == |subject| + 1 + |FormatName(f)| + 4
    ensures name[..|subject|] == subject && name[|subject|] == '-' && name[|name| - 4..] == ".jpg"
  {
    subject + "-" + FormatName(f) + ".jpg"
  }

  /** Between the subject's dash and `.jpg` a blob name holds exactly the format's spelling. */
  lemma BlobNameSpelling(subject: string, f: Format)
    ensures var name := BlobName(subject, f);
            name[|subject| + 1..|name| - 4] == FormatName(f)
  {
  }

  /** Index of the last `-` in a string, if there is one. */
  function LastDash(s: string): (r: Option<nat>)
    ensures r.Some? ==> r.value < |s| && s[r.value] == '-' && '-' !in s[r.value + 1..]
    ensures r.None? ==> '-' !in s
    decreases |s|
  {
    if |s| == 0 then None
    else if s[|s| - 1] == '-' then Some(|s| - 1)
    else
      var r := LastDash(s[..|s| - 1]);
      assert r.Some? ==> s[r.value + 1..] == s[..|s| - 1][r.value + 1..] + [s[|s| - 1]];
      assert r.None? ==> s == s[..|s| - 1] + [s[|s| - 1]];
      r
  }

  /** Recovers subject and format from a blob name; the inverse of `BlobName`. */
  function ParseBlobName(name: string): (r: Option<(string, Format)>)
  {
    if |name| < 4 || name[|name| - 4..] != ".jpg" then None
    else
      var stem := name[..|name| - 4];
      match LastDash(stem)
      case None => None
      case Some(k) =>
        match ParseFormat(stem[k + 1..])
        case None => None
        case Some(f) => Some((stem[..k], f))
  }

  /** The last dash of `a + "-" + b` is the one between them when `b` has none. */
  lemma LastDashSplit(a: string, b: string)
    requires '-' !in b
    ensures LastDash(a + "-" + b) == Some(|a|)
  {
    var s := a + "-" + b;
    assert s[|a|] == '-';
    assert s[|a| + 1..] == b;
  }

  /** Parsing a blob name gives back the subject and format it was built from. */
  lemma ParseBlobNameRoundTrip(subject: string, f: Format)
    ensures ParseBlobName(BlobName(subject, f)) == Some((subject, f))
  {
    var name := BlobName(subject, f);
    var stem := subject + "-" + FormatName(f);
    assert name == stem + ".jpg";
    assert name[..|name| - 4] == stem;
    assert name[|name| - 4..] == ".jpg";
    FormatNameParses(f);
    LastDashSplit(subject, FormatName(f));
    assert stem[|subject| + 1..] == FormatName(f);
    assert stem[..|subject|] == subject;
  }

  /** Every name the parser accepts is the blob name of what it returns. */
  lemma ParseBlobNameSound(name: string)
    requires ParseBlobName(name).Some?
    ensures BlobName(ParseBlobName(name).value.0, ParseBlobName(name).value.1) == name
  {
    var stem := name[..|name| - 4];
    var k := LastDash(stem).value;
    var (subject, f) := ParseBlobName(name).value;
    ParseFormatExact(stem[k + 1..], f);
    assert stem == stem[..k] + "-" + stem[k + 1..];
    assert name == stem + name[|name| - 4..];
  }

  /** The subject `moon` in the `mac` format is stored as `moon-mac.jpg`. */
  lemma BlobNameExample()
    ensures BlobName("moon", Mac) == "moon-mac.jpg"
  {
  }

  /** Distinct (subject, format) pairs never share a blob; equal pairs always do. */
  lemma BlobNameInjective(s1: string, f1: Format, s2: string, f2: Format)
    ensures BlobName(s1, f1) == BlobName(s2, f2) <==> s1 == s2 && f1 == f2
  {
    ParseBlobNameRoundTrip(s1, f1);
    ParseBlobNameRoundTrip(s2, f2);
  }

  /** The store after applying writes in order; a later write to a key replaces an earlier one. */
  function Overlay(m: map<string, Bytes>, writes: seq<(string, Bytes)>): map<string, Bytes>
  {
    Applied(m, writes, |writes|)
  }

  /** The store after the first `n` writes. */
  function Applied(m: map<string, Bytes>, writes: seq<(string, Bytes)>, n: nat): map<string, Bytes>
    requires n <= |writes|
    decreases n
  {
    if n == 0 then m else Applied(m, writes, n - 1)[writes[n - 1].0 := writes[n - 1].1]
  }

  /** The first `n` writes of two runs that agree on them leave the same store. */
  lemma {:induction false} AppliedPrefix(m: map<string, Bytes>, a: seq<(string, Bytes)>, b: seq<(string, Bytes)>, n: nat)
    requires n <= |a| && n <= |b|
    requires forall i :: 0 <= i < n ==> a[i] == b[i]
    ensures Applied(m, a, n) == Applied(m, b, n)
    decreases n
  {
    if n > 0 {
      AppliedPrefix(m, a, b, n - 1);
    }
  }

  /** One more write updates the store at its key. */
  lemma OverlaySnoc(m: map<string, Bytes>, writes: seq<(string, Bytes)>, name: string, data: Bytes)
    ensures Overlay(m, writes + [(name, data)]) == Overlay(m, writes)[name := data]
  {
    var w := writes + [(name, data)];
    assert w[|writes|] == (name, data);
    AppliedPrefix(m, w, writes, |writes|);
  }

  /** No write names the key. */
  predicate Spares(writes: seq<(string, Bytes)>, k: string)
  {
    forall i :: 0 <= i < |writes| ==> writes[i].0 != k
  }

  /** Two runs of writes one after the other spare a key exactly when each does. */
  lemma SparesAppend(a: seq<(string, Bytes)>, b: seq<(string, Bytes)>, k: string)
    ensures Spares(a + b, k) <==> Spares(a, k) && Spares(b, k)
  {
    assert forall i :: 0 <= i < |a| ==> (a + b)[i] == a[i];
    assert forall i :: 0 <= i < |b| ==> (a + b)[|a| + i] == b[i];
  }

  /** A key none of the first `n` writes names keeps its old presence and contents. */
  lemma {:induction false} AppliedUntouched(m: map<string, Bytes>, writes: seq<(string, Bytes)>, n: nat, k: string)
    requires n <= |writes| && Spares(writes, k)
    ensures k in Applied(m, writes, n) <==> k in m
    ensures k in m ==> Applied(m, writes, n)[k] == m[k]
    decreases n
  {
    if n > 0 {
      AppliedUntouched(m, writes, n - 1, k);
    }
  }

  /** A key no write names keeps its old presence and contents. */
  lemma OverlayUntouched(m: map<string, Bytes>, writes: seq<(string, Bytes)>, k: string)
    requires Spares(writes, k)
    ensures k in Overlay(m, writes) <==> k in m
    ensures k in m ==> Overlay(m, writes)[k] == m[k]
  {
    AppliedUntouched(m, writes, |writes|, k);
  }

  /** After `n` writes, a key holds the bytes of write `j` when no later one of them names it. */
  lemma {:induction false} AppliedLastWrite(m: map<string, Bytes>, writes: seq<(string, Bytes)>, j: nat, n: nat)
    requires j < n <= |writes|
    requires forall i :: j < i < n ==> writes[i].0 != writes[j].0
    ensures writes[j].0 in Applied(m, writes, n) && Applied(m, writes, n)[writes[j].0] == writes[j].1
    decreases n
  {
    if j < n - 1 {
      AppliedLastWrite(m, writes, j, n - 1);
    }
  }

  /** A key holds the bytes of the last write that names it. */
  lemma OverlayLastWrite(m: map<string, Bytes>, writes: seq<(string, Bytes)>, j: nat)
    requires j < |writes|
    requires forall i :: j < i < |writes| ==> writes[i].0 != writes[j].0
    ensures writes[j].0 in Overlay(m, writes) && Overlay(m, writes)[writes[j].0] == writes[j].1
  {
    AppliedLastWrite(m, writes, j, |writes|);
  }

  /** Applying `a` and then the first `n` writes of `b` is applying the first `|a| + n` writes of `a + b`. */
  lemma {:induction false} AppliedAppend(m: map<string, Bytes>, a: seq<(string, Bytes)>, b: seq<(string, Bytes)>, n: nat)
    requires n <= |b|
    ensures Applied(m, a + b, |a| + n) == Applied(Overlay(m, a), b, n)
    decreases n
  {
    if n > 0 {
      AppliedAppend(m, a, b, n - 1);
      assert (a + b)[|a| + n - 1] == b[n - 1];
    } else {
      AppliedPrefix(m, a + b, a, |a|);
    }
  }

  /** Applying two batches of writes one after the other is applying their concatenation. */
  lemma OverlayAppend(m: map<string, Bytes>, a: seq<(string, Bytes)>, b: seq<(string, Bytes)>)
    ensures Overlay(m, a + b) == Overlay(Overlay(m, a), b)
  {
    AppliedAppend(m, a, b, |b|);
  }

  /** The public URL of a blob in a container. */
  function BlobUrl(containerUrl: string, name: string): string
  {
    containerUrl + "/" + name
  }

  /** The blob container the handler writes its variants to. */
  class BlobContainer {
    const url: string
    var blobs: map<string, Bytes>

    constructor (url: string, blobs: map<string, Bytes>)
      ensures this.url == url && this.blobs == blobs
    {
      this.url := url;
      this.blobs := blobs;
    }

    /** Writes `data` under `name`, replacing any earlier blob of that name. */
    method Upload(name: string, data: Bytes)
      modifies this
      ensures blobs == old(blobs)[name := data]
    {
      blobs := blobs[name := data];
    }
  }
}
