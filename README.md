# daily-image: the random-photo handler, modelled in Dafny

The `getRandomPhoto` HTTP function takes a request body listing images, each
a search subject with a list of device formats. For every image it asks the
photo source for one random landscape photo, keeps the last photo of the
answer, and reports that photo's download location. For every requested
format it resolves a crop URL from a fixed six-row table, downloads the
bytes, uploads them to the blob container as `<subject>-<format>.jpg`, and
pushes one download entry and one upload entry. Then it pushes one
`{subject, url, download, upload}` record per image. A body the validator
rejects is answered with status 400 and the validator's message. A missing
connection string, or any failure while processing, is answered with
status 500.

The model is sequential. Images and formats are processed in request
order. The photo source, the downloader and the blob store are abstracted:

- `Photos.PhotoApi` is a class. It records the queries it receives and the
  locations it is told to track. Its answers are a function of the query and
  of the number of earlier requests, which stands for randomness.
- `Assembly.Fetch` is a function from URL to bytes. `None` stands for a
  failed request.
- `Store.BlobContainer` is a class around a `map<string, Bytes>`. The
  handler updates the map in place.

The modules:

| file | module | contents |
|---|---|---|
| wrappers.dfy | `Wrappers` | `Option`, `Result` |
| images.dfy | `Images` | the request types and the closed union of seven format tags |
| crop.dfy | `Crop` | the crop table and `Resolve`, the partial resolver |
| store.dfy | `Store` | blob names and their parser, `Overlay` (a run of writes applied to a store), the container class |
| photos.dfy | `Photos` | the photo source class and the extraction of the last photo |
| assembly.dfy | `Assembly` | what the handler computes, as functions: `Variant`, `FormatsUpTo`/`FormatsSpec` (the format loop), `ImageSpec` (one image), `RunUpTo`/`Run`/`RunSpec` (the image loop) |
| assembly_lemmas.dfy | `AssemblyLemmas` | what those functions promise: entry lists, store contents, success and failure, records |
| handler.dfy | `Handler` | the handler's loops as methods over the two classes, each proved equal to its function, and the reply |

The format loop and the image loop are `while` loops in methods
(`Handler.ProcessFormats`, `Handler.ProcessImages`). Each loop's invariant
ties its variables and the container's map to the specification function
over the prefix processed so far. The properties are then proved about
those functions.

The format tag `iPad` belongs to the request type but has no row in the crop
table. In the source, `download[format]` is then `undefined` and the
download of `undefined` rejects, so any request that asks for `iPad` ends in
status 500. The model makes this explicit: `Crop.Resolve` returns `None`
exactly for `IPad`. The format then fails as `UntabledFormat`.

## Model

| member | source | states |
|---|---|---|
| Images.FormatNameParses | src/types/Images.d.ts:3 | every tag's spelling is accepted as that tag; it is non-empty and has no dash |
| Images.ParseFormatExact | src/types/Images.d.ts:3 | a string is accepted as a tag exactly when it spells that tag: the union is closed |
| Images.FormatNameInjective | src/types/Images.d.ts:3 | the seven tags have seven distinct spellings |
| Crop.CropSuffix | getRandomPhoto/index.ts:63-70 | every tabled format's suffix is a `fit=crop` query addition that starts with `&fit=crop&h=`, so the height comes first |
| Crop.Resolve | getRandomPhoto/index.ts:63-70 | resolving is undefined exactly for `IPad` |
| Crop.OnlyIPadUntabled | getRandomPhoto/index.ts:63-70 | six tags have a crop suffix; `IPad` is the only one without |
| Crop.ResolveExtends | getRandomPhoto/index.ts:63-70 | a resolved URL is strictly longer than the photo URL and starts with it |
| Crop.ResolveExamples | getRandomPhoto/index.ts:64-66 | `iphone13Pro` appends `&fit=crop&h=2532&w=1170`, `q4k` appends `&fit=crop&h=2160&w=3840` |
| Crop.ResolveInjective | getRandomPhoto/index.ts:63-70 | two tabled formats never resolve to the same URL |
| Store.BlobName | getRandomPhoto/index.ts:84 | the name starts with the subject and a dash, ends with `.jpg`, and is as long as subject, dash, format spelling and `.jpg` together |
| Store.BlobNameSpelling | getRandomPhoto/index.ts:84 | the part of a blob name between the subject's dash and `.jpg` is exactly the format's spelling |
| Store.ParseBlobNameRoundTrip | getRandomPhoto/index.ts:84 | the blob name `<subject>-<format>.jpg` parses back to its subject and format |
| Store.ParseBlobNameSound | getRandomPhoto/index.ts:84 | every name the parser accepts is the blob name of what it returns |
| Store.BlobNameExample | getRandomPhoto/index.ts:84 | subject `moon` with format `mac` is stored as `moon-mac.jpg` |
| Store.BlobNameInjective | getRandomPhoto/index.ts:84 | two blob names are equal exactly when subject and format are |
| Store.BlobContainer.Upload | getRandomPhoto/index.ts:86-88 | the upload replaces the blob under its name and changes nothing else |
| Store.OverlaySnoc | getRandomPhoto/index.ts:86-88 | one more write updates the store at its key |
| Store.OverlayUntouched | getRandomPhoto/index.ts:84-88 | a key no write names keeps its presence and its bytes |
| Store.OverlayLastWrite | getRandomPhoto/index.ts:84-88 | a key holds the bytes of the last write that names it |
| Store.OverlayAppend | getRandomPhoto/index.ts:75-100 | two runs of writes in turn leave the store their concatenation leaves |
| Photos.PhotoApi.GetRandom | getRandomPhoto/index.ts:49-53 | the answer is the source's answer to this query as request number `|queries|`; the query is recorded |
| Photos.PhotoApi.TrackDownload | getRandomPhoto/index.ts:102-104 | the location is appended to the tracked list |
| Photos.ExtractPhoto | getRandomPhoto/index.ts:56-61 | url and location are defined exactly when the list is non-empty, and then come from its last photo |
| Assembly.Variant | getRandomPhoto/index.ts:77-81 | a format yields a variant exactly when it has a crop URL and the fetch of that URL succeeds, and then it is that URL and those bytes; otherwise `iPad` fails as untabled and any other format as a failed download of its URL |
| Assembly.FormatsSpec | getRandomPhoto/index.ts:75-100 | the format loop leaves as many downloaded entries as uploaded entries and writes, at most one per format, and exactly one per format when nothing failed |
| Assembly.FormatsCount | getRandomPhoto/index.ts:91-99 | the same counts for the loop over the first `n` formats |
| Assembly.ImageSpec | getRandomPhoto/index.ts:44-113 | one image tracks at most one location; a record it yields has the image's subject, comes from a non-empty answer, and has one download and one upload entry per requested format |
| Assembly.RunCount | getRandomPhoto/index.ts:113-116 | the image loop over the first `n` images has at most `n` records, and exactly `n` when nothing failed |
| Assembly.RunSpec | getRandomPhoto/index.ts:44-116 | a request has at most one record per image, and exactly one per image when nothing failed |
| Assembly.SubjectsEach | getRandomPhoto/index.ts:44-53 | the photo source gets one query per image, query i being image i's subject |
| AssemblyLemmas.FormatsSucceed | getRandomPhoto/index.ts:75-100 | the format loop records no failure exactly when every format's variant succeeds |
| AssemblyLemmas.FormatsFirstFailure | getRandomPhoto/index.ts:75-100 | a failure of the format loop is that of the first format in request order whose variant fails |
| AssemblyLemmas.FormatsEntries | getRandomPhoto/index.ts:91-99 | with no failure, one download and one upload entry per format, duplicates included, in order: the format's URL, its blob name and blob URL |
| AssemblyLemmas.FormatsWriteKeys | getRandomPhoto/index.ts:84-88 | the format loop writes only under the blob names of the requested formats |
| AssemblyLemmas.FormatsStoreStep | getRandomPhoto/index.ts:84-88 | one more format adds its bytes under its blob name exactly when its variant succeeds |
| AssemblyLemmas.FormatStored | getRandomPhoto/index.ts:84-88 | after the loop, every format whose variant succeeded has its bytes under its blob name, duplicates included, given that distinct formats have distinct blob names |
| AssemblyLemmas.FormatsStored | getRandomPhoto/index.ts:84-88 | every requested format that downloads ends up in the store with the downloaded bytes |
| AssemblyLemmas.FormatsUntouched | getRandomPhoto/index.ts:84-88 | keys that are no blob name of a requested format keep their presence and bytes |
| AssemblyLemmas.ImageWriteKeys | getRandomPhoto/index.ts:84-88 | one image writes only under the blob names of the formats it stores |
| AssemblyLemmas.ImageDelivered | getRandomPhoto/index.ts:44-113 | an image yields a record exactly when its query yields a photo and every format of it downloads |
| AssemblyLemmas.ImageRecord | getRandomPhoto/index.ts:107-113 | the record carries the image's subject and the last photo's URL; the photo's location is tracked exactly when there is a photo |
| AssemblyLemmas.ImageEntries | getRandomPhoto/index.ts:72-113 | a record has one download and one upload entry per requested format, in order |
| AssemblyLemmas.RunOk | getRandomPhoto/index.ts:116 | the image loop records no failure exactly when no image's step fails |
| AssemblyLemmas.RunFirstFailure | getRandomPhoto/index.ts:116-130 | a failure of the image loop is that of the first image in request order whose step fails |
| AssemblyLemmas.RunSpecFirstFailure | getRandomPhoto/index.ts:116-130 | a failing request reports the failure of the first image in request order whose handler step fails |
| AssemblyLemmas.RunResults | getRandomPhoto/index.ts:113-116 | with no failure the loop holds one record per image, record i being image i's |
| AssemblyLemmas.RunTracked | getRandomPhoto/index.ts:102-104 | when each step tracks one location, the loop tracks them all in image order |
| AssemblyLemmas.RunWriteKeys | getRandomPhoto/index.ts:84-88 | a key no image writes is written by none of the loop's writes |
| AssemblyLemmas.RunSucceeds | getRandomPhoto/index.ts:116 | a request succeeds exactly when every image is delivered, given the answers the source gives in turn |
| AssemblyLemmas.RunRecords | getRandomPhoto/index.ts:107-116 | a successful request has one record per image, in order, with the image's subject and its last photo's URL |
| AssemblyLemmas.RunTracks | getRandomPhoto/index.ts:102-104 | a successful request tracks one location per image, in order: that of its last photo |
| AssemblyLemmas.RunKeeps | getRandomPhoto/index.ts:84-88 | a key that no later image writes keeps its presence and bytes through the rest of the image loop |
| AssemblyLemmas.ImageSparesOther | getRandomPhoto/index.ts:84-88 | an image writes nothing under the blob name of another subject, nor under that of a format it does not store |
| AssemblyLemmas.RunStoredAt | getRandomPhoto/index.ts:84-88 | right after image i, the store holds its bytes under the blob name of each format it stores |
| AssemblyLemmas.RunStored | getRandomPhoto/index.ts:84-88 | after the request, the blob name of image i and a format it stores holds that variant's bytes unless a later image of the same subject stores that format too: a repeated blob name keeps the last write |
| AssemblyLemmas.RunUntouched | getRandomPhoto/index.ts:84-88 | keys that are no blob name of any requested image and format keep their presence and bytes |
| Handler.Reply | getRandomPhoto/index.ts:116-130 | the reply is 200 with the records exactly when nothing failed, else 500 with the failure; it is never the 400 message reply |
| Handler.ReplyStatus | getRandomPhoto/index.ts:116-130 | a validated, configured request gets 200 and its records exactly when every image is delivered, else 500 with the failure of the first image, in request order, whose handler step fails |
| Handler.ProcessFormats | getRandomPhoto/index.ts:75-100 | the format loop leaves the lists, the failure and the container equal to the format loop's specification |
| Handler.ProcessImage | getRandomPhoto/index.ts:44-113 | one image makes one query and leaves the container, the tracked list, the records and the failure as the image's specification absorbed into the loop state |
| Handler.ProcessImageAt | getRandomPhoto/index.ts:44-114 | image `i` takes the loop state over `i` images to the state over `i + 1` |
| Handler.ProcessImages | getRandomPhoto/index.ts:43-116 | the image loop makes one query per image, in order, and leaves the container, the tracked list, the records and the failure equal to the loop's specification |
| Handler.HandleRequest | getRandomPhoto/index.ts:12-130 | a rejected body gets 400 with its message and touches nothing; a missing connection string gets 500 and touches nothing; otherwise the reply, the store, the queries and the tracked list are those of the loop's specification |

## Left out

- The Azure Functions context, dotenv, the Unsplash client and the Blob SDK are I/O. They become the two classes and the `Fetch` function. The key `UNSPLASH_ACCESS_KEY` is not checked by the source and is not modelled.
- `Promise.all` runs the images and the formats concurrently and pushes entries and records in completion order. When two images share a subject and a format, the blob keeps whichever upload completes last. The model processes everything in request order, so its blob keeps the last write in request order. Every image and format still runs after another one fails, as in the source, and the failure reported is the first in request order. In the source it is the first to reject.
- In the source the format downloads start before `trackDownload` is awaited. The model tracks the location before the format loop. Only the tracked list is observable, and it does not depend on this order.
- The validator (`Images.d.validator`) is generated code that is not part of this model. The handler receives its verdict as a `Validation` value.
- The container name comes from `AZURE_STORAGE_ACCOUNT_CONTAINER_NAME`. The model takes the container as given. Its URL is the container URL, a slash and the blob name, without URL escaping.
- Upload failures are not modelled: `Upload` always succeeds.
- Photos.PhotoApi.TrackDownload: always succeeds. In the source `trackDownload` can reject, and the request then ends in status 500.
- Handler.HandleRequest: its `Configured` test accepts any non-empty connection string. In the source `BlobServiceClient.fromConnectionString` throws on a malformed string, and the request then ends in status 500.
- AssemblyLemmas.FormatStored: `Fetch` is a function of the URL, so two downloads of the same URL give the same answer. A format requested twice therefore writes the same bytes twice. A repeat whose download fails, or returns other bytes, is not captured.
- An answer with an empty photo list leaves `url` and `location` undefined in the source. The tracking call then gets `undefined`, and each crop URL becomes the string `undefined&fit=crop&h=…`, which is not an absolute URL, so its download rejects. The model reports this as a `NoPhoto` failure. A failed request (`response.response` undefined, so `.map` throws) is a `PhotoRequestFailed` failure.
- node-fetch does not reject on a non-2xx status, so the source uploads an error page as if it were the photo. The model follows the code: `Fetch` returns bytes for any response and `None` only when the request itself fails.
- The 500 body is the thrown error object in the source. The model gives the `Failure` that caused it.
- The daily timer trigger that posts a fixed body to this function is plumbing and is not modelled.
- No blacklist, retry or manifest appears in the handler, so none is modelled.
