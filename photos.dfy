/**
 * The photo source seen by the handler: one random-photo request per
 * image, answered with a list of photos, and one download-tracking call per
 * chosen photo.
 */
module Photos {
  import opened Wrappers

  /** One photo of a response: its full-size URL and its download-attribution location. */
  datatype Photo = Photo(full: string, downloadLocation: string)

  /**
   * The photo source's answer to its request number `n`, about `query`. The
   * class and the specification functions both speak of the answers through
   * this name, so that a method's answer and the one the specification
   * assumes are visibly the same.
   */
  function Answer(random: (string, nat) -> Option<seq<Photo>>, query: string, n: nat): Option<seq<Photo>>
  {
    random(query, n)
  }

  /**
   * The photo API client. Its answers are an abstract function of the query
   * and of how many requests were made before it (standing for randomness);
   * `None` stands for a request that failed or returned no photo list.
   */
  class PhotoApi {
    const random: (string, nat) -> Option<seq<Photo>>
    var queries: seq<string>
    var tracked: seq<string>

    constructor (random: (string, nat) -> Option<seq<Photo>>)
      ensures this.random == random && queries == [] && tracked == []
    {
      this.random := random;
      queries := [];
      tracked := [];
    }

    /** Asks for one random photo about `query`; the request is recorded. */
    method GetRandom(query: string) returns (response: Option<seq<Photo>>)
      modifies this`queries
      ensures response == Answer(random, query, |old(queries)|)
      ensures queries == old(queries) + [query]
    {
      response := Answer(random, query, |queries|);
      queries := queries + [query];
    }

    /** Reports that the photo at `location` was used. */
    method TrackDownload(location: string)
      modifies this`tracked
      ensures tracked == old(tracked) + [location]
    {
      tracked := tracked + [location];
    }
  }

  /**
   * Walks the response list, overwriting url and location with each photo,
   * so that both come from the last photo; both stay undefined on an empty list.
   */
  method ExtractPhoto(photos: seq<Photo>) returns (url: Option<string>, location: Option<string>)
    ensures url.Some? <==> |photos| > 0
    ensures location.Some? <==> |photos| > 0
    ensures |photos| > 0 ==> url.value == photos[|photos| - 1].full
    ensures |photos| > 0 ==> location.value == photos[|photos| - 1].downloadLocation
  {
    url, location := None, None;
    var i := 0;
    while i < |photos|
      invariant 0 <= i <= |photos|
      invariant url.Some? <==> i > 0
      invariant location.Some? <==> i > 0
      invariant i > 0 ==> url.value == photos[i - 1].full && location.value == photos[i - 1].downloadLocation
    {
      url := Some(photos[i].full);
      location := Some(photos[i].downloadLocation);
      i := i + 1;
    }
  }
}
