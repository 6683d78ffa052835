/**
 * What the handler's specification functions promise: the lists built for
 * one image, the store the format loop leaves behind, when a request
 * succeeds, and the records it then returns.
 */
module AssemblyLemmas {
  import opened Wrappers
  import opened Images
  import opened Crop
  import opened Store
  import opened Photos
  import opened Assembly

  /** Every requested format of the image is tabled and its variant downloads. */
  predicate AllFetched(subject: string, base: string, formats: seq<Format>, fetch: Fetch)
  {
    forall i :: 0 <= i < |formats| ==> Variant(subject, base, formats[i], fetch).Success?
  }

  /** The photo the handler keeps from a non-empty answer: the last one. */
  function LastPhoto(photos: seq<Photo>): Photo
    requires photos != []
  {
    photos[|photos| - 1]
  }

  /** An image is delivered when its query yields a photo and every format of it downloads. */
  predicate Delivered(image: Image, response: Option<seq<Photo>>, fetch: Fetch)
  {
    && response.Some? && response.value != []
    && AllFetched(image.subject, LastPhoto(response.value).full, image.formats, fetch)
  }

  /** The format loop over the first `n` formats records no failure exactly when each of their variants succeeds. */
  lemma {:induction false} FormatsSucceed(containerUrl: string, name: Names, variant: Variants,
                                          formats: seq<Format>, n: nat)
    requires n <= |formats|
    ensures FormatsUpTo(containerUrl, name, variant, formats, n).failure.None?
            <==> forall i :: 0 <= i < n ==> variant(formats[i]).Success?
    decreases n
  {
    if n > 0 {
      FormatsSucceed(containerUrl, name, variant, formats, n - 1);
    }
  }

  /**
   * When none of the first `n` formats fails, entry i of both lists
   * belongs to format i: its variant's URL, its blob name and blob URL.
   */
  lemma {:induction false} FormatsEntries(containerUrl: string, name: Names, variant: Variants,
                                          formats: seq<Format>, n: nat)
    requires n <= |formats|
    ensures var o := FormatsUpTo(containerUrl, name, variant, formats, n);
            o.failure.None? ==>
              && |o.downloaded| == |o.uploaded| == n
              && forall i :: 0 <= i < n ==>
                   && variant(formats[i]).Success?
                   && o.downloaded[i] == Downloaded(variant(formats[i]).value.0)
                   && o.uploaded[i] == Uploaded(name(formats[i]),
                                                BlobUrl(containerUrl, name(formats[i])))
    decreases n
  {
    if n > 0 {
      FormatsEntries(containerUrl, name, variant, formats, n - 1);
      var f := formats[n - 1];
      var p := FormatsUpTo(containerUrl, name, variant, formats, n - 1);
      var o := FormatsUpTo(containerUrl, name, variant, formats, n);
      var v := variant(f);
      if v.Success? {
        assert o.downloaded == p.downloaded + [Downloaded(v.value.0)];
        assert o.uploaded == p.uploaded + [Uploaded(name(f), BlobUrl(containerUrl, name(f)))];
        assert o.failure == p.failure;
        if o.failure.None? {
          forall i | 0 <= i < n
            ensures variant(formats[i]).Success?
            ensures o.downloaded[i] == Downloaded(variant(formats[i]).value.0)
            ensures o.uploaded[i] == Uploaded(name(formats[i]),
                                              BlobUrl(containerUrl, name(formats[i])))
          {
            if i < n - 1 {
              assert o.downloaded[i] == p.downloaded[i] && o.uploaded[i] == p.uploaded[i];
            } else {
              assert i == |p.downloaded|;
            }
          }
        }
      } else {
        assert o.downloaded == p.downloaded && o.uploaded == p.uploaded && o.failure.Some?;
      }
    }
  }

  /**
   * A failure of the format loop over the first `n` formats is that of the
   * first format, in request order, whose variant fails.
   */
  lemma {:induction false} FormatsFirstFailure(containerUrl: string, name: Names, variant: Variants,
                                               formats: seq<Format>, n: nat)
    requires n <= |formats|
    requires FormatsUpTo(containerUrl, name, variant, formats, n).failure.Some?
    ensures exists i :: 0 <= i < n
              && variant(formats[i]) == Failure(FormatsUpTo(containerUrl, name, variant, formats, n).failure.value)
              && forall j :: 0 <= j < i ==> variant(formats[j]).Success?
    decreases n
  {
    var p := FormatsUpTo(containerUrl, name, variant, formats, n - 1);
    var e := FormatsUpTo(containerUrl, name, variant, formats, n).failure.value;
    if p.failure.Some? {
      FormatsFirstFailure(containerUrl, name, variant, formats, n - 1);
      assert e == p.failure.value;
    } else {
      FormatsSucceed(containerUrl, name, variant, formats, n - 1);
      assert variant(formats[n - 1]) == Failure(e);
    }
  }

  /**
   * A key that is no blob name of one of the first `n` formats whose
   * variant succeeds is named by none of the format loop's writes.
   */
  lemma {:induction false} FormatsWriteKeys(containerUrl: string, name: Names, variant: Variants,
                                            formats: seq<Format>, n: nat, k: string)
    requires n <= |formats|
    requires forall i :: 0 <= i < n && variant(formats[i]).Success? ==> k != name(formats[i])
    ensures Spares(FormatsUpTo(containerUrl, name, variant, formats, n).writes, k)
    decreases n
  {
    if n > 0 {
      FormatsWriteKeys(containerUrl, name, variant, formats, n - 1, k);
      var p := FormatsUpTo(containerUrl, name, variant, formats, n - 1).writes;
      var v := variant(formats[n - 1]);
      if v.Success? {
        var last := [(name(formats[n - 1]), v.value.1)];
        assert FormatsUpTo(containerUrl, name, variant, formats, n).writes == p + last;
        SparesAppend(p, last, k);
      } else {
        assert FormatsUpTo(containerUrl, name, variant, formats, n).writes == p;
      }
    }
  }

  /** The image stores format `f`: its query yields a photo, `f` is requested, and its variant of the last photo downloads. */
  predicate Writes(image: Image, response: Option<seq<Photo>>, fetch: Fetch, f: Format)
  {
    && response.Some? && response.value != [] && f in image.formats
    && Variant(image.subject, LastPhoto(response.value).full, f, fetch).Success?
  }

  /** A key that is no blob name of a format the image stores is named by none of the image's writes. */
  lemma ImageWriteKeys(containerUrl: string, image: Image, response: Option<seq<Photo>>, fetch: Fetch, k: string)
    requires forall f :: Writes(image, response, fetch, f) ==> k != BlobName(image.subject, f)
    ensures Spares(ImageSpec(containerUrl, image, response, fetch).writes, k)
  {
    if response.Some? && response.value != [] {
      assert forall i :: 0 <= i < |image.formats| ==> image.formats[i] in image.formats;
      FormatsWriteKeys(containerUrl, NamesOf(image.subject), VariantsOf(image.subject, LastPhoto(response.value).full, fetch),
                       image.formats, |image.formats|, k);
    }
  }

  /** The format loop's store gains format `n - 1`'s bytes under its blob name exactly when its variant succeeds. */
  lemma FormatsStoreStep(blobs: map<string, Bytes>, containerUrl: string, name: Names, variant: Variants,
                         formats: seq<Format>, n: nat)
    requires 0 < n <= |formats|
    ensures var v := variant(formats[n - 1]);
            var pre := Overlay(blobs, FormatsUpTo(containerUrl, name, variant, formats, n - 1).writes);
            Overlay(blobs, FormatsUpTo(containerUrl, name, variant, formats, n).writes)
              == if v.Success? then pre[name(formats[n - 1]) := v.value.1] else pre
  {
    var v := variant(formats[n - 1]);
    var p := FormatsUpTo(containerUrl, name, variant, formats, n - 1).writes;
    if v.Success? {
      var w := (name(formats[n - 1]), v.value.1);
      assert FormatsUpTo(containerUrl, name, variant, formats, n).writes == p + [w];
      OverlaySnoc(blobs, p, w.0, w.1);
    } else {
      assert FormatsUpTo(containerUrl, name, variant, formats, n).writes == p;
    }
  }

  /**
   * After the first `n` formats the store holds, under the blob name of
   * format j among them, the bytes of its variant when that succeeds,
   * provided distinct formats have distinct blob names.
   */
  lemma {:induction false} FormatStored(blobs: map<string, Bytes>, containerUrl: string, name: Names,
                                        variant: Variants, formats: seq<Format>, n: nat, j: nat)
    requires j < n <= |formats| && variant(formats[j]).Success?
    requires forall g, h :: name(g) == name(h) ==> g == h
    ensures var store := Overlay(blobs, FormatsUpTo(containerUrl, name, variant, formats, n).writes);
            && name(formats[j]) in store
            && store[name(formats[j])] == variant(formats[j]).value.1
    decreases n
  {
    FormatsStoreStep(blobs, containerUrl, name, variant, formats, n);
    if formats[j] != formats[n - 1] {
      FormatStored(blobs, containerUrl, name, variant, formats, n - 1, j);
    }
  }

  /** Every requested format whose variant downloads ends up in the store under its blob name, with the downloaded bytes. */
  lemma FormatsStored(blobs: map<string, Bytes>, containerUrl: string, subject: string,
                      base: string, formats: seq<Format>, fetch: Fetch, f: Format)
    requires f in formats && Variant(subject, base, f, fetch).Success?
    ensures var store := Overlay(blobs, FormatsSpec(containerUrl, subject, base, formats, fetch).writes);
            && BlobName(subject, f) in store
            && store[BlobName(subject, f)] == Variant(subject, base, f, fetch).value.1
  {
    var j :| 0 <= j < |formats| && formats[j] == f;
    forall g, h | NamesOf(subject)(g) == NamesOf(subject)(h)
      ensures g == h
    {
      BlobNameInjective(subject, g, subject, h);
    }
    FormatStored(blobs, containerUrl, NamesOf(subject), VariantsOf(subject, base, fetch), formats, |formats|, j);
  }

  /** Every key that is no blob name of a requested format keeps its presence and its contents through the format loop. */
  lemma FormatsUntouched(blobs: map<string, Bytes>, containerUrl: string, subject: string,
                         base: string, formats: seq<Format>, fetch: Fetch, k: string)
    requires forall f :: f in formats ==> k != BlobName(subject, f)
    ensures var store := Overlay(blobs, FormatsSpec(containerUrl, subject, base, formats, fetch).writes);
            (k in store <==> k in blobs) && (k in blobs ==> store[k] == blobs[k])
  {
    assert forall i :: 0 <= i < |formats| ==> formats[i] in formats;
    FormatsWriteKeys(containerUrl, NamesOf(subject), VariantsOf(subject, base, fetch), formats, |formats|, k);
    OverlayUntouched(blobs, FormatsSpec(containerUrl, subject, base, formats, fetch).writes, k);
  }

  /** One image yields a record exactly when it is delivered. */
  lemma ImageDelivered(containerUrl: string, image: Image, response: Option<seq<Photo>>, fetch: Fetch)
    ensures ImageSpec(containerUrl, image, response, fetch).result.Success? <==> Delivered(image, response, fetch)
  {
    if response.Some? && response.value != [] {
      var base := LastPhoto(response.value).full;
      FormatsSucceed(containerUrl, NamesOf(image.subject), VariantsOf(image.subject, base, fetch),
                     image.formats, |image.formats|);
      assert forall i :: 0 <= i < |image.formats| ==>
        VariantsOf(image.subject, base, fetch)(image.formats[i]) == Variant(image.subject, base, image.formats[i], fetch);
    }
  }

  /**
   * The record of an image carries its subject and the last photo's URL;
   * the photo's download location is tracked exactly when the query yields
   * a photo.
   */
  lemma ImageRecord(containerUrl: string, image: Image, response: Option<seq<Photo>>, fetch: Fetch)
    ensures var io := ImageSpec(containerUrl, image, response, fetch);
            io.tracked == if response.Some? && response.value != [] then [LastPhoto(response.value).downloadLocation] else []
    ensures var io := ImageSpec(containerUrl, image, response, fetch);
            io.result.Success? ==>
              && response.Some? && response.value != []
              && io.result.value.subject == image.subject
              && io.result.value.url == LastPhoto(response.value).full
  {
  }

  /**
   * The record of a delivered image has one download and one upload entry
   * per requested format, in order: entry i is the resolved URL of format i
   * and the blob name and blob URL of that format.
   */
  lemma ImageEntries(containerUrl: string, image: Image, response: Option<seq<Photo>>, fetch: Fetch)
    ensures var io := ImageSpec(containerUrl, image, response, fetch);
            io.result.Success? ==>
              var r := io.result.value;
              && |r.download| == |r.upload| == |image.formats|
              && forall i :: 0 <= i < |image.formats| ==>
                   && Resolve(r.url, image.formats[i]).Some?
                   && r.download[i] == Downloaded(Resolve(r.url, image.formats[i]).value)
                   && r.upload[i] == Uploaded(BlobName(image.subject, image.formats[i]),
                                              BlobUrl(containerUrl, BlobName(image.subject, image.formats[i])))
  {
    if response.Some? && response.value != [] {
      var base := LastPhoto(response.value).full;
      FormatsEntries(containerUrl, NamesOf(image.subject), VariantsOf(image.subject, base, fetch), image.formats, |image.formats|);
    }
  }

  /** The image loop over the first `n` images fails exactly when the step of one of them fails. */
  lemma {:induction false} RunOk(images: seq<Image>, step: Step, n: nat)
    requires n <= |images|
    ensures RunUpTo(images, step, n).failure.None?
            <==> forall i :: 0 <= i < n ==> step(images[i], i).result.Success?
    decreases n
  {
    if n > 0 {
      RunOk(images, step, n - 1);
    }
  }

  /**
   * A failure of the image loop over the first `n` images is that of the
   * first image, in request order, whose step fails.
   */
  lemma {:induction false} RunFirstFailure(images: seq<Image>, step: Step, n: nat)
    requires n <= |images|
    requires RunUpTo(images, step, n).failure.Some?
    ensures exists i :: 0 <= i < n
              && step(images[i], i).result == Failure(RunUpTo(images, step, n).failure.value)
              && forall j :: 0 <= j < i ==> step(images[j], j).result.Success?
    decreases n
  {
    var p := RunUpTo(images, step, n - 1);
    var e := RunUpTo(images, step, n).failure.value;
    if p.failure.Some? {
      RunFirstFailure(images, step, n - 1);
      assert e == p.failure.value;
    } else {
      RunOk(images, step, n - 1);
      assert step(images[n - 1], n - 1).result == Failure(e);
    }
  }

  /**
   * A request that fails reports the failure of the first image, in request
   * order, that is not delivered.
   */
  lemma RunSpecFirstFailure(containerUrl: string, images: seq<Image>,
                            random: (string, nat) -> Option<seq<Photo>>, calls: nat, fetch: Fetch)
    ensures var s := RunSpec(containerUrl, images, random, calls, fetch);
            var step := HandlerStep(containerUrl, random, calls, fetch);
            s.failure.Some? ==>
              exists i :: 0 <= i < |images|
                && step(images[i], i).result == Failure(s.failure.value)
                && forall j :: 0 <= j < i ==> step(images[j], j).result.Success?
  {
    var step := HandlerStep(containerUrl, random, calls, fetch);
    if RunUpTo(images, step, |images|).failure.Some? {
      RunFirstFailure(images, step, |images|);
    }
  }

  /**
   * When the image loop over the first `n` images does not fail it holds
   * one record per image, in image order: record i is the one the step of
   * image i produced.
   */
  lemma {:induction false} RunResults(images: seq<Image>, step: Step, n: nat)
    requires n <= |images|
    ensures var s := RunUpTo(images, step, n);
            s.failure.None? ==>
              && |s.results| == n
              && forall i :: 0 <= i < n ==> step(images[i], i).result == Success(s.results[i])
    decreases n
  {
    if n > 0 {
      RunResults(images, step, n - 1);
    }
  }

  /** When every image's step tracks exactly one location, the loop tracks them all, in image order. */
  lemma {:induction false} RunTracked(images: seq<Image>, step: Step, n: nat)
    requires n <= |images|
    requires forall i :: 0 <= i < n ==> |step(images[i], i).tracked| == 1
    ensures var s := RunUpTo(images, step, n);
            && |s.tracked| == n
            && forall i :: 0 <= i < n ==> s.tracked[i] == step(images[i], i).tracked[0]
    decreases n
  {
    if n > 0 {
      RunTracked(images, step, n - 1);
      var t := RunUpTo(images, step, n - 1).tracked;
      var u := step(images[n - 1], n - 1).tracked;
      assert RunUpTo(images, step, n).tracked == t + u;
      assert forall i :: 0 <= i < n - 1 ==> (t + u)[i] == t[i];
      assert (t + u)[n - 1] == u[0];
    }
  }

  /** A key that no step writes is written by none of the image loop's writes. */
  lemma {:induction false} RunWriteKeys(images: seq<Image>, step: Step, n: nat, k: string)
    requires n <= |images|
    requires forall i :: 0 <= i < n ==> Spares(step(images[i], i).writes, k)
    ensures Spares(RunUpTo(images, step, n).writes, k)
    decreases n
  {
    if n > 0 {
      RunWriteKeys(images, step, n - 1, k);
      var s := RunUpTo(images, step, n - 1);
      var w := step(images[n - 1], n - 1).writes;
      assert RunUpTo(images, step, n).writes == s.writes + w;
      SparesAppend(s.writes, w, k);
    }
  }

  /** A request succeeds exactly when every image in it is delivered, given the answers the photo source gives in turn. */
  lemma RunSucceeds(containerUrl: string, images: seq<Image>,
                    random: (string, nat) -> Option<seq<Photo>>, calls: nat, fetch: Fetch)
    ensures RunSpec(containerUrl, images, random, calls, fetch).failure.None?
            <==> forall i :: 0 <= i < |images| ==> Delivered(images[i], Answer(random, images[i].subject, calls + i), fetch)
  {
    var step := HandlerStep(containerUrl, random, calls, fetch);
    RunOk(images, step, |images|);
    forall i | 0 <= i < |images|
      ensures step(images[i], i).result.Success? <==> Delivered(images[i], Answer(random, images[i].subject, calls + i), fetch)
    {
      ImageDelivered(containerUrl, images[i], Answer(random, images[i].subject, calls + i), fetch);
    }
  }

  /**
   * A successful request returns one record per image, in request order:
   * record i is image i's own record, carrying its subject and the URL of
   * the last photo its query returned.
   */
  lemma RunRecords(containerUrl: string, images: seq<Image>,
                   random: (string, nat) -> Option<seq<Photo>>, calls: nat, fetch: Fetch)
    ensures var s := RunSpec(containerUrl, images, random, calls, fetch);
            s.failure.None? ==>
              && |s.results| == |images|
              && forall i :: 0 <= i < |images| ==>
                   var response := Answer(random, images[i].subject, calls + i);
                   && response.Some? && response.value != []
                   && ImageSpec(containerUrl, images[i], response, fetch).result == Success(s.results[i])
                   && s.results[i].subject == images[i].subject
                   && s.results[i].url == LastPhoto(response.value).full
  {
    var step := HandlerStep(containerUrl, random, calls, fetch);
    var s := Run(images, step);
    assert RunSpec(containerUrl, images, random, calls, fetch) == s;
    if s.failure.None? {
      RunResults(images, step, |images|);
      forall i | 0 <= i < |images|
        ensures var response := Answer(random, images[i].subject, calls + i);
                && response.Some? && response.value != []
                && ImageSpec(containerUrl, images[i], response, fetch).result == Success(s.results[i])
                && s.results[i].subject == images[i].subject
                && s.results[i].url == LastPhoto(response.value).full
      {
        var response := Answer(random, images[i].subject, calls + i);
        assert step(images[i], i) == ImageSpec(containerUrl, images[i], response, fetch);
        ImageRecord(containerUrl, images[i], response, fetch);
      }
    }
  }

  /**
   * A successful request tracks one download location per image, in
   * request order: location i is that of the last photo image i's query
   * returned.
   */
  lemma RunTracks(containerUrl: string, images: seq<Image>,
                  random: (string, nat) -> Option<seq<Photo>>, calls: nat, fetch: Fetch)
    ensures var s := RunSpec(containerUrl, images, random, calls, fetch);
            s.failure.None? ==>
              && |s.tracked| == |images|
              && forall i :: 0 <= i < |images| ==>
                   var response := Answer(random, images[i].subject, calls + i);
                   && response.Some? && response.value != []
                   && s.tracked[i] == LastPhoto(response.value).downloadLocation
  {
    var step := HandlerStep(containerUrl, random, calls, fetch);
    var s := Run(images, step);
    assert RunSpec(containerUrl, images, random, calls, fetch) == s;
    if s.failure.None? {
      RunOk(images, step, |images|);
      forall i | 0 <= i < |images|
        ensures var response := Answer(random, images[i].subject, calls + i);
                && response.Some? && response.value != []
                && step(images[i], i).tracked == [LastPhoto(response.value).downloadLocation]
      {
        var response := Answer(random, images[i].subject, calls + i);
        assert step(images[i], i) == ImageSpec(containerUrl, images[i], response, fetch);
        ImageRecord(containerUrl, images[i], response, fetch);
      }
      RunTracked(images, step, |images|);
    }
  }

  /** Keys that are no blob name of any requested image and format keep their presence and contents. */
  lemma RunUntouched(blobs: map<string, Bytes>, containerUrl: string, images: seq<Image>,
                     random: (string, nat) -> Option<seq<Photo>>, calls: nat, fetch: Fetch, k: string)
    requires forall i, f :: 0 <= i < |images| && f in images[i].formats ==> k != BlobName(images[i].subject, f)
    ensures var store := Overlay(blobs, RunSpec(containerUrl, images, random, calls, fetch).writes);
            (k in store <==> k in blobs) && (k in blobs ==> store[k] == blobs[k])
  {
    var step := HandlerStep(containerUrl, random, calls, fetch);
    forall i | 0 <= i < |images|
      ensures Spares(step(images[i], i).writes, k)
    {
      ImageWriteKeys(containerUrl, images[i], Answer(random, images[i].subject, calls + i), fetch, k);
    }
    RunWriteKeys(images, step, |images|, k);
    var writes := Run(images, step).writes;
    OverlayUntouched(blobs, writes, k);
  }

  /**
   * A key that none of the images after `i`, up to `n`, writes holds after
   * the first `n` images what it held after the first `i + 1`.
   */
  lemma {:induction false} RunKeeps(blobs: map<string, Bytes>, images: seq<Image>, step: Step, i: nat, n: nat, k: string)
    requires i < n <= |images|
    requires forall j :: i < j < n ==> Spares(step(images[j], j).writes, k)
    ensures var before := Overlay(blobs, RunUpTo(images, step, i + 1).writes);
            var after := Overlay(blobs, RunUpTo(images, step, n).writes);
            (k in after <==> k in before) && (k in before ==> after[k] == before[k])
    decreases n
  {
    if n > i + 1 {
      RunKeeps(blobs, images, step, i, n - 1, k);
      var p := RunUpTo(images, step, n - 1).writes;
      var w := step(images[n - 1], n - 1).writes;
      assert RunUpTo(images, step, n).writes == p + w;
      OverlayAppend(blobs, p, w);
      OverlayUntouched(Overlay(blobs, p), w, k);
    }
  }

  /**
   * An image writes nothing under the blob name of `subject` and `f` unless
   * it is an image of that subject that stores `f`.
   */
  lemma ImageSparesOther(containerUrl: string, image: Image, response: Option<seq<Photo>>, fetch: Fetch,
                         subject: string, f: Format)
    requires image.subject == subject ==> !Writes(image, response, fetch, f)
    ensures Spares(ImageSpec(containerUrl, image, response, fetch).writes, BlobName(subject, f))
  {
    forall g | Writes(image, response, fetch, g)
      ensures BlobName(subject, f) != BlobName(image.subject, g)
    {
      BlobNameInjective(subject, f, image.subject, g);
    }
    ImageWriteKeys(containerUrl, image, response, fetch, BlobName(subject, f));
  }

  /** After the first `i + 1` images the store holds image i's bytes for a format it stores. */
  lemma RunStoredAt(blobs: map<string, Bytes>, containerUrl: string, images: seq<Image>,
                    random: (string, nat) -> Option<seq<Photo>>, calls: nat, fetch: Fetch, i: nat, f: Format)
    requires i < |images|
    requires Writes(images[i], Answer(random, images[i].subject, calls + i), fetch, f)
    ensures var store := Overlay(blobs, RunUpTo(images, HandlerStep(containerUrl, random, calls, fetch), i + 1).writes);
            var k := BlobName(images[i].subject, f);
            && k in store
            && store[k] == Variant(images[i].subject, LastPhoto(Answer(random, images[i].subject, calls + i).value).full,
                                   f, fetch).value.1
  {
    var step := HandlerStep(containerUrl, random, calls, fetch);
    var subject := images[i].subject;
    var response := Answer(random, subject, calls + i);
    var base := LastPhoto(response.value).full;
    var p := RunUpTo(images, step, i).writes;
    var w := FormatsSpec(containerUrl, subject, base, images[i].formats, fetch).writes;
    assert step(images[i], i) == ImageSpec(containerUrl, images[i], response, fetch);
    assert RunUpTo(images, step, i + 1).writes == p + w;
    OverlayAppend(blobs, p, w);
    FormatsStored(Overlay(blobs, p), containerUrl, subject, base, images[i].formats, fetch, f);
  }

  /**
   * The store a request leaves holds, under the blob name of image i and a
   * format f it stores, the bytes of that variant, unless a later image of
   * the same subject stores f too: a repeated blob name keeps the last write.
   */
  lemma RunStored(blobs: map<string, Bytes>, containerUrl: string, images: seq<Image>,
                  random: (string, nat) -> Option<seq<Photo>>, calls: nat, fetch: Fetch, i: nat, f: Format)
    requires i < |images|
    requires Writes(images[i], Answer(random, images[i].subject, calls + i), fetch, f)
    requires forall j :: i < j < |images| && images[j].subject == images[i].subject ==>
               !Writes(images[j], Answer(random, images[j].subject, calls + j), fetch, f)
    ensures var store := Overlay(blobs, RunSpec(containerUrl, images, random, calls, fetch).writes);
            var k := BlobName(images[i].subject, f);
            && k in store
            && store[k] == Variant(images[i].subject, LastPhoto(Answer(random, images[i].subject, calls + i).value).full,
                                   f, fetch).value.1
  {
    var step := HandlerStep(containerUrl, random, calls, fetch);
    forall j | i < j < |images|
      ensures Spares(step(images[j], j).writes, BlobName(images[i].subject, f))
    {
      var rj := Answer(random, images[j].subject, calls + j);
      assert step(images[j], j) == ImageSpec(containerUrl, images[j], rj, fetch);
      ImageSparesOther(containerUrl, images[j], rj, fetch, images[i].subject, f);
    }
    RunStoredAt(blobs, containerUrl, images, random, calls, fetch, i, f);
    RunKeeps(blobs, images, step, i, |images|, BlobName(images[i].subject, f));
  }
}
