/**
 * What the photo handler computes, as functions of its inputs: for each
 * requested format of an image the variant URL, the bytes downloaded and the
 * blob written; for each image the result record; for the whole request the
 * list of records or the failure that turns the reply into a server error.
 *
 * Everything runs in request order. A failing format or image does not stop
 * the others: they still download and upload, and the first failure in
 * request order is the one reported.
 */
module Assembly {
  import opened Wrappers
  import opened Images
  import opened Crop
  import opened Store
  import opened Photos

  /** The downloader: the bytes behind a URL, or `None` when the request fails. */
  type Fetch = string -> Option<Bytes>

  datatype Downloaded = Downloaded(imageUrl: string)

  datatype Uploaded = Uploaded(blobName: string, blobUrl: string)

  /** The record pushed onto `results` for one image. */
  datatype SubjectResult = SubjectResult(subject: string, url: string, download: seq<Downloaded>, upload: seq<Uploaded>)

  /** Why a request ends in a server error. */
  datatype Failure =
    | ConfigError(message: string)
    | PhotoRequestFailed(subject: string)
    | NoPhoto(subject: string)
    | UntabledFormat(subject: string, format: Format)
    | DownloadFailed(url: string)

  /** Keeps an earlier failure; otherwise records `e`. */
  function First(earlier: Option<Failure>, e: Failure): Option<Failure>
  {
    if earlier.Some? then earlier else Some(e)
  }

  /**
   * One format of one image: its variant URL and bytes, or why it cannot be
   * had. It succeeds exactly when the format is tabled and the download of
   * its URL succeeds; the URL is then the resolved one and the bytes are
   * those downloaded. A tabled format whose download fails names its URL.
   */
  function Variant(subject: string, base: string, f: Format, fetch: Fetch): (r: Result<(string, Bytes), Failure>)
    ensures r.Success? <==> Resolve(base, f).Some? && fetch(Resolve(base, f).value).Some?
    ensures r.Success? ==> Resolve(base, f) == Some(r.value.0) && fetch(r.value.0) == Some(r.value.1)
    ensures r.Failure? && f == IPad ==> r.error == UntabledFormat(subject, f)
    ensures r.Failure? && f != IPad ==> r.error == DownloadFailed(Resolve(base, f).value)
  {
    match Resolve(base, f)
    case None => Failure(UntabledFormat(subject, f))
    case Some(url) =>
      match fetch(url)
      case None => Failure(DownloadFailed(url))
      case Some(bytes) => Success((url, bytes))
  }

  /** The state of the format loop of one image: the blob writes made so far and the two lists. */
  datatype FormatsOutcome = FormatsOutcome(
    writes: seq<(string, Bytes)>,
    downloaded: seq<Downloaded>,
    uploaded: seq<Uploaded>,
    failure: Option<Failure>)

  /** The variants of one image's photo, format by format. */
  type Variants = Format -> Result<(string, Bytes), Failure>

  /** The variants of the photo at `base` for the image of `subject`. */
  function VariantsOf(subject: string, base: string, fetch: Fetch): Variants
  {
    (f: Format) => Variant(subject, base, f, fetch)
  }

  /** The blob names of one image's variants, format by format. */
  type Names = Format -> string

  /** The blob names of the variants of the image of `subject`. */
  function NamesOf(subject: string): Names
  {
    (f: Format) => BlobName(subject, f)
  }

  /**
   * The format loop of one image over `formats`: one download entry, one
   * upload entry and one write per format that succeeds, so one of each per
   * format, duplicates included, when none fails.
   */
  function FormatsSpec(containerUrl: string, subject: string, base: string,
                       formats: seq<Format>, fetch: Fetch): (o: FormatsOutcome)
    ensures |o.downloaded| == |o.uploaded| == |o.writes| <= |formats|
    ensures o.failure.None? ==> |o.downloaded| == |formats|
  {
    FormatsCount(containerUrl, NamesOf(subject), VariantsOf(subject, base, fetch), formats, |formats|);
    FormatsUpTo(containerUrl, NamesOf(subject), VariantsOf(subject, base, fetch), formats, |formats|)
  }

  /**
   * The format loop's state after the first `n` formats, each format's
   * blob name given by `name` and its variant by `variant`.
   */
  function FormatsUpTo(containerUrl: string, name: Names, variant: Variants,
                       formats: seq<Format>, n: nat): FormatsOutcome
    requires n <= |formats|
    decreases n
  {
    if n == 0 then FormatsOutcome([], [], [], None)
    else
      var o := FormatsUpTo(containerUrl, name, variant, formats, n - 1);
      var f := formats[n - 1];
      match variant(f)
      case Failure(e) => o.(failure := First(o.failure, e))
      case Success((url, bytes)) =>
        FormatsOutcome(o.writes + [(name(f), bytes)], o.downloaded + [Downloaded(url)],
                       o.uploaded + [Uploaded(name(f), BlobUrl(containerUrl, name(f)))], o.failure)
  }

  /**
   * Each format whose variant succeeds adds one download entry, one upload
   * entry and one write; when none of the first `n` fails, each of them did.
   */
  lemma {:induction false} FormatsCount(containerUrl: string, name: Names, variant: Variants,
                                        formats: seq<Format>, n: nat)
    requires n <= |formats|
    ensures var o := FormatsUpTo(containerUrl, name, variant, formats, n);
            |o.downloaded| == |o.uploaded| == |o.writes| <= n
    ensures var o := FormatsUpTo(containerUrl, name, variant, formats, n);
            o.failure.None? ==> |o.downloaded| == n
    decreases n
  {
    if n > 0 {
      FormatsCount(containerUrl, name, variant, formats, n - 1);
    }
  }

  /** What one image leaves behind: its blob writes, the tracked locations and its record or failure. */
  datatype ImageOutcome = ImageOutcome(writes: seq<(string, Bytes)>, tracked: seq<string>, result: Result<SubjectResult, Failure>)

  /**
   * One image, given the photo source's answer to its query. It tracks at
   * most one location; its record, when it has one, needs a photo and
   * carries the image's subject and one download and one upload entry per
   * requested format.
   */
  function ImageSpec(containerUrl: string, image: Image, response: Option<seq<Photo>>, fetch: Fetch): (io: ImageOutcome)
    ensures |io.tracked| <= 1
    ensures io.result.Success? ==>
              && response.Some? && response.value != []
              && io.result.value.subject == image.subject
              && |io.result.value.download| == |io.result.value.upload| == |image.formats|
  {
    match response
    case None => ImageOutcome([], [], Failure(PhotoRequestFailed(image.subject)))
    case Some(photos) =>
      if photos == [] then ImageOutcome([], [], Failure(NoPhoto(image.subject)))
      else
        var p := photos[|photos| - 1];
        var o := FormatsSpec(containerUrl, image.subject, p.full, image.formats, fetch);
        ImageOutcome(o.writes, [p.downloadLocation],
          if o.failure.Some? then Failure(o.failure.value)
          else Success(SubjectResult(image.subject, p.full, o.downloaded, o.uploaded)))
  }

  /** The state of the image loop. */
  datatype RunState = RunState(
    writes: seq<(string, Bytes)>,
    tracked: seq<string>,
    results: seq<SubjectResult>,
    failure: Option<Failure>)

  /** What one image contributes, given the image and its position in the request. */
  type Step = (Image, nat) -> ImageOutcome

  /** The image loop over `images`, each image handled by `step`: one record per image when none fails. */
  function Run(images: seq<Image>, step: Step): (s: RunState)
    ensures |s.results| <= |images|
    ensures s.failure.None? ==> |s.results| == |images|
  {
    RunCount(images, step, |images|);
    RunUpTo(images, step, |images|)
  }

  /** The image loop's state after the first `n` images. */
  function RunUpTo(images: seq<Image>, step: Step, n: nat): RunState
    requires n <= |images|
    decreases n
  {
    if n == 0 then RunState([], [], [], None)
    else Absorb(RunUpTo(images, step, n - 1), step(images[n - 1], n - 1))
  }

  /** The image loop holds at most one record per image, and one per image when none fails. */
  lemma {:induction false} RunCount(images: seq<Image>, step: Step, n: nat)
    requires n <= |images|
    ensures |RunUpTo(images, step, n).results| <= n
    ensures RunUpTo(images, step, n).failure.None? ==> |RunUpTo(images, step, n).results| == n
    decreases n
  {
    if n > 0 {
      RunCount(images, step, n - 1);
    }
  }

  /** The image loop's state after one more image: its writes are appended and its record pushed, or its failure noted. */
  function Absorb(s: RunState, io: ImageOutcome): RunState
  {
    RunState(s.writes + io.writes, s.tracked + io.tracked,
      if io.result.Success? then s.results + [io.result.value] else s.results,
      if io.result.Failure? then First(s.failure, io.result.error) else s.failure)
  }

  /**
   * The handler's step: the image at position `n` is the photo source's
   * request number `calls + n`, `calls` being the requests made before.
   */
  function HandlerStep(containerUrl: string, random: (string, nat) -> Option<seq<Photo>>, calls: nat, fetch: Fetch): Step
  {
    (image: Image, n: nat) => ImageSpec(containerUrl, image, Answer(random, image.subject, calls + n), fetch)
  }

  /** The handler's image loop: at most one record per image, and one per image when none fails. */
  function RunSpec(containerUrl: string, images: seq<Image>,
                   random: (string, nat) -> Option<seq<Photo>>, calls: nat, fetch: Fetch): (s: RunState)
    ensures |s.results| <= |images|
    ensures s.failure.None? ==> |s.results| == |images|
  {
    Run(images, HandlerStep(containerUrl, random, calls, fetch))
  }

  /** One more image of the handler's loop absorbs that image's outcome for the photo source's request number `calls + i`. */
  lemma HandlerRunStep(containerUrl: string, images: seq<Image>,
                       random: (string, nat) -> Option<seq<Photo>>, calls: nat, fetch: Fetch, i: nat)
    requires i < |images|
    ensures var step := HandlerStep(containerUrl, random, calls, fetch);
            RunUpTo(images, step, i + 1)
              == Absorb(RunUpTo(images, step, i), ImageSpec(containerUrl, images[i], Answer(random, images[i].subject, calls + i), fetch))
  {
  }

  /** The subjects of the images, in order: the queries the photo source receives. */
  function Subjects(images: seq<Image>): seq<string>
    decreases |images|
  {
    if images == [] then [] else Subjects(images[..|images| - 1]) + [images[|images| - 1].subject]
  }

  /** The queries of a one-longer prefix add the next image's subject. */
  lemma SubjectsStep(images: seq<Image>, i: nat)
    requires i < |images|
    ensures Subjects(images[..i + 1]) == Subjects(images[..i]) + [images[i].subject]
  {
    var p := images[..i + 1];
    assert p[..i] == images[..i] && p[i] == images[i];
  }

  /** The queries are one per image, each with that image's subject. */
  lemma {:induction false} SubjectsEach(images: seq<Image>)
    ensures |Subjects(images)| == |images|
    ensures forall i :: 0 <= i < |images| ==> Subjects(images)[i] == images[i].subject
    decreases |images|
  {
    if images != [] {
      var n := |images| - 1;
      SubjectsEach(images[..n]);
      assert forall i :: 0 <= i < n ==> images[..n][i] == images[i];
    }
  }
}
