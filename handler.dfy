/**
 * The HTTP handler that fetches one random photo per requested subject,
 * downloads a crop of it for every requested device format, uploads each
 * crop to the blob container and replies with the list of results.
 */
module Handler {
  import opened Wrappers
  import opened Images
  import opened Crop
  import opened Store
  import opened Photos
  import opened Assembly
  import opened AssemblyLemmas

  /** What the request validator made of the body: the typed request or its error message. */
  datatype Validation = Valid(request: Images) | Invalid(message: string)

  datatype ResponseBody = Results(results: seq<SubjectResult>) | Message(text: string) | ServerError(failure: Failure)

  datatype Response = Response(status: int, body: ResponseBody)

  const MissingConnectionString := "Azure Storage Connection string not found"

  /** A connection string counts as present when it is defined and not empty. */
  predicate Configured(connectionString: Option<string>)
  {
    connectionString.Some? && connectionString.value != ""
  }

  /**
   * The reply to a validated, configured request once every image has been
   * processed: status 200 with the records, or status 500 with the failure.
   */
  function Reply(s: RunState): (res: Response)
    ensures res.status == 200 || res.status == 500
    ensures res.status == 200 <==> s.failure.None?
    ensures res.status == 200 <==> res.body.Results?
    ensures res.body.Results? ==> res.body.results == s.results
    ensures res.body.ServerError? ==> s.failure == Some(res.body.failure)
    ensures !res.body.Message?
  {
    if s.failure.None? then Response(200, Results(s.results)) else Response(500, ServerError(s.failure.value))
  }

  /**
   * A validated, configured request is answered with status 200 and its
   * records exactly when every image is delivered; otherwise with status
   * 500 and the first failure in request order.
   */
  lemma ReplyStatus(containerUrl: string, images: seq<Image>,
                    random: (string, nat) -> Option<seq<Photo>>, calls: nat, fetch: Fetch)
    ensures var s := RunSpec(containerUrl, images, random, calls, fetch);
            && (Reply(s).status == 200
                <==> forall i :: 0 <= i < |images| ==> Delivered(images[i], Answer(random, images[i].subject, calls + i), fetch))
            && (Reply(s).status == 200 ==> Reply(s).body == Results(s.results))
            && (Reply(s).status != 200 ==> Reply(s) == Response(500, ServerError(s.failure.value)))
            && (Reply(s).status != 200 ==>
                  exists i :: 0 <= i < |images|
                    && HandlerStep(containerUrl, random, calls, fetch)(images[i], i).result == Failure(s.failure.value)
                    && forall j :: 0 <= j < i ==> HandlerStep(containerUrl, random, calls, fetch)(images[j], j).result.Success?)
  {
    RunSucceeds(containerUrl, images, random, calls, fetch);
    RunSpecFirstFailure(containerUrl, images, random, calls, fetch);
  }

  /** The format loop of one image. */
  method ProcessFormats(container: BlobContainer, subject: string, base: string, formats: seq<Format>, fetch: Fetch)
    returns (downloaded: seq<Downloaded>, uploaded: seq<Uploaded>, failure: Option<Failure>)
    modifies container
    ensures var o := FormatsSpec(container.url, subject, base, formats, fetch);
            && container.blobs == Overlay(old(container.blobs), o.writes)
            && downloaded == o.downloaded && uploaded == o.uploaded && failure == o.failure
  {
    downloaded, uploaded, failure := [], [], None;
    ghost var writes: seq<(string, Bytes)> := [];
    var i := 0;
    while i < |formats|
      invariant 0 <= i <= |formats|
      invariant FormatsUpTo(container.url, NamesOf(subject), VariantsOf(subject, base, fetch), formats, i)
                == FormatsOutcome(writes, downloaded, uploaded, failure)
      invariant container.blobs == Overlay(old(container.blobs), writes)
    {
      var f := formats[i];
      assert VariantsOf(subject, base, fetch)(f) == Variant(subject, base, f, fetch);
      assert NamesOf(subject)(f) == BlobName(subject, f);
      var url := Resolve(base, f);
      if url.None? {
        failure := First(failure, UntabledFormat(subject, f));
      } else {
        var response := fetch(url.value);
        if response.None? {
          failure := First(failure, DownloadFailed(url.value));
        } else {
          var blobName := BlobName(subject, f);
          OverlaySnoc(old(container.blobs), writes, blobName, response.value);
          container.Upload(blobName, response.value);
          writes := writes + [(blobName, response.value)];
          downloaded := downloaded + [Downloaded(url.value)];
          uploaded := uploaded + [Uploaded(blobName, BlobUrl(container.url, blobName))];
        }
      }
      i := i + 1;
    }
  }

  /**
   * One image: one photo request, its last photo, one tracking call, the
   * format loop, and then its record pushed onto `results`; a failure is
   * kept unless an earlier image already failed. `st` is the image loop's
   * state before this image, `blobs0` and `tracked0` the store and the
   * tracked locations before the loop, `calls` the photo requests made so far.
   */
  method ProcessImage(api: PhotoApi, container: BlobContainer, image: Image, fetch: Fetch,
                      results: seq<SubjectResult>, failure: Option<Failure>,
                      ghost st: RunState, ghost blobs0: map<string, Bytes>, ghost tracked0: seq<string>, ghost calls: nat)
    returns (results': seq<SubjectResult>, failure': Option<Failure>)
    requires container.blobs == Overlay(blobs0, st.writes) && api.tracked == tracked0 + st.tracked
    requires results == st.results && failure == st.failure && calls == |api.queries|
    modifies api, container
    ensures api.queries == old(api.queries) + [image.subject]
    ensures var s := Absorb(st, ImageSpec(container.url, image, Answer(api.random, image.subject, calls), fetch));
            && container.blobs == Overlay(blobs0, s.writes) && api.tracked == tracked0 + s.tracked
            && results' == s.results && failure' == s.failure
  {
    var response := api.GetRandom(image.subject);
    if response.None? {
      results', failure' := results, First(failure, PhotoRequestFailed(image.subject));
      assert st.writes + [] == st.writes;
      return;
    }
    var url, location := ExtractPhoto(response.value);
    if url.None? {
      results', failure' := results, First(failure, NoPhoto(image.subject));
      assert st.writes + [] == st.writes;
      return;
    }
    api.TrackDownload(location.value);
    var downloaded, uploaded, formatFailure := ProcessFormats(container, image.subject, url.value, image.formats, fetch);
    OverlayAppend(blobs0, st.writes, FormatsSpec(container.url, image.subject, url.value, image.formats, fetch).writes);
    if formatFailure.Some? {
      results', failure' := results, First(failure, formatFailure.value);
    } else {
      results', failure' := results + [SubjectResult(image.subject, url.value, downloaded, uploaded)], failure;
    }
  }

  /**
   * The image loop's body for image `i`: the loop's state over the first `i`
   * images becomes its state over the first `i + 1`; `calls` is the number
   * of photo requests made before the loop.
   */
  method ProcessImageAt(api: PhotoApi, container: BlobContainer, images: seq<Image>, i: nat, fetch: Fetch,
                        results: seq<SubjectResult>, failure: Option<Failure>,
                        ghost blobs0: map<string, Bytes>, ghost tracked0: seq<string>, ghost calls: nat)
    returns (results': seq<SubjectResult>, failure': Option<Failure>)
    requires i < |images| && |api.queries| == calls + i
    requires var s := RunUpTo(images, HandlerStep(container.url, api.random, calls, fetch), i);
             && container.blobs == Overlay(blobs0, s.writes) && api.tracked == tracked0 + s.tracked
             && results == s.results && failure == s.failure
    modifies api, container
    ensures api.queries == old(api.queries) + [images[i].subject]
    ensures var s := RunUpTo(images, HandlerStep(container.url, api.random, calls, fetch), i + 1);
            && container.blobs == Overlay(blobs0, s.writes) && api.tracked == tracked0 + s.tracked
            && results' == s.results && failure' == s.failure
  {
    ghost var st := RunUpTo(images, HandlerStep(container.url, api.random, calls, fetch), i);
    HandlerRunStep(container.url, images, api.random, calls, fetch, i);
    results', failure' := ProcessImage(api, container, images[i], fetch, results, failure, st, blobs0, tracked0, calls + i);
  }

  /** The image loop: every image is processed, in request order. */
  method ProcessImages(api: PhotoApi, container: BlobContainer, images: seq<Image>, fetch: Fetch)
    returns (results: seq<SubjectResult>, failure: Option<Failure>)
    modifies api, container
    ensures api.queries == old(api.queries) + Subjects(images)
    ensures var s := RunSpec(container.url, images, api.random, |old(api.queries)|, fetch);
            container.blobs == Overlay(old(container.blobs), s.writes) && api.tracked == old(api.tracked) + s.tracked
            && results == s.results && failure == s.failure
  {
    results, failure := [], None;
    ghost var calls := |api.queries|;
    var i := 0;
    while i < |images|
      invariant 0 <= i <= |images|
      invariant api.queries == old(api.queries) + Subjects(images[..i])
      invariant |api.queries| == calls + i
      invariant var s := RunUpTo(images, HandlerStep(container.url, api.random, calls, fetch), i);
                && container.blobs == Overlay(old(container.blobs), s.writes) && api.tracked == old(api.tracked) + s.tracked
                && results == s.results && failure == s.failure
    {
      SubjectsStep(images, i);
      results, failure := ProcessImageAt(api, container, images, i, fetch, results, failure,
                                         old(container.blobs), old(api.tracked), calls);
      i := i + 1;
    }
    assert images[..i] == images;
  }

  /**
   * The handler: validation, then the connection-string check, then the
   * image loop; a bad body is a client error and a missing connection string
   * or any failure of the run is a server error.
   */
  method HandleRequest(validation: Validation, connectionString: Option<string>,
                       api: PhotoApi, container: BlobContainer, fetch: Fetch)
    returns (res: Response)
    modifies api, container
    ensures validation.Invalid? ==>
      res == Response(400, Message(validation.message)) && unchanged(api, container)
    ensures validation.Valid? && !Configured(connectionString) ==>
      res == Response(500, ServerError(ConfigError(MissingConnectionString))) && unchanged(api, container)
    ensures validation.Valid? && Configured(connectionString) ==>
      var images := validation.request.images;
      var s := RunSpec(container.url, images, api.random, |old(api.queries)|, fetch);
      && res == Reply(s)
      && container.blobs == Overlay(old(container.blobs), s.writes)
      && api.queries == old(api.queries) + Subjects(images)
      && api.tracked == old(api.tracked) + s.tracked
  {
    if validation.Invalid? {
      return Response(400, Message(validation.message));
    }
    if !Configured(connectionString) {
      return Response(500, ServerError(ConfigError(MissingConnectionString)));
    }
    var results, failure := ProcessImages(api, container, validation.request.images, fetch);
    if failure.Some? {
      res := Response(500, ServerError(failure.value));
    } else {
      res := Response(200, Results(results));
    }
  }
}
