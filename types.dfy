/** The record types of the service (backend/cinema/types.py), the JSON values
    that travel between it, the movie catalog and the search index, and the
    failures its endpoints report. */
module Types {
  import opened Wrappers
  import opened Decimal

  /** A decoded JSON value. Floating-point numbers are not represented. */
  datatype Json =
    | JNull
    | JBool(b: bool)
    | JInt(i: int)
    | JStr(s: string)
    | JList(items: seq<Json>)
    | JObject(fields: map<string, Json>)

  /** A movie as the search endpoint returns it. */
  datatype Movie = Movie(title: string, year: int, imdbId: string)

  /** One page of search results; `total` counts every match in the index,
      not only the movies on this page. */
  datatype MoviesResponse = MoviesResponse(movies: seq<Movie>, total: int)

  datatype HealthCheck = HealthCheck(status: string)

  /** The status a health check reports unless told otherwise. */
  const DefaultHealthStatus: string := "OK"

  datatype IndexMoviesResponse = IndexMoviesResponse(indexedMoviesCount: int)

  /** Why an endpoint fails. */
  datatype ApiError =
    | BackendUnreachable  // the search backend did not answer its probe (HTTP 400)
    | UpstreamFailure     // a catalog request failed or its body was not JSON
    | MalformedCatalog    // a catalog body had the wrong shape (TypeError, KeyError)
    | IndexNotReady       // a search before the index was ever built
    | InvalidHit          // a stored document does not validate as a Movie
    | InternalError       // the handler itself raised: the server answers 500

  /** The integer that pydantic accepts for an `int` field: a JSON integer, or
      a string of decimal digits with an optional leading '-'. */
  function YearValue(v: Json): Option<int> {
    match v
    case JInt(i) => Some(i)
    case JStr(s) => ParseInt(s)
    case _ => None
  }

  /** Validation of a stored document as a `Movie` (`Movie(**source)`):
      `title` and `imdb_id` must be strings, `year` an integer or integer
      text; keys other than these three are ignored. */
  function ToMovie(source: Json): (r: Result<Movie, ApiError>)
    ensures r.Ok? <==> source.JObject? && "title" in source.fields && "imdb_id" in source.fields
                       && "year" in source.fields && source.fields["title"].JStr?
                       && source.fields["imdb_id"].JStr? && YearValue(source.fields["year"]).Some?
    ensures r.Ok? ==> source.fields["title"] == JStr(r.value.title)
                      && source.fields["imdb_id"] == JStr(r.value.imdbId)
                      && "year" in source.fields && YearValue(source.fields["year"]) == Some(r.value.year)
    ensures r.Err? ==> r.error == InvalidHit
  {
    match source
    case JObject(f) =>
      if "title" in f && "year" in f && "imdb_id" in f
         && f["title"].JStr? && f["imdb_id"].JStr? && YearValue(f["year"]).Some?
      then Ok(Movie(f["title"].s, YearValue(f["year"]).value, f["imdb_id"].s))
      else Err(InvalidHit)
    case _ => Err(InvalidHit)
  }

  /** A movie as a JSON object, the way the API serialises it. */
  function MovieJson(m: Movie): Json {
    JObject(map["title" := JStr(m.title), "year" := JInt(m.year), "imdb_id" := JStr(m.imdbId)])
  }

  /** Serialising a movie and validating the result gives the movie back. */
  lemma MovieJsonRoundTrip(m: Movie)
    ensures ToMovie(MovieJson(m)) == Ok(m)
  {
  }

  /** A year stored as its decimal text, as the catalog delivers it, still
      validates to that year. */
  lemma TextYearValidates(title: string, year: int, imdbId: string)
    ensures ToMovie(JObject(map["title" := JStr(title), "year" := JStr(IntToString(year)),
                                "imdb_id" := JStr(imdbId)]))
            == Ok(Movie(title, year, imdbId))
  {
    IntRoundTrip(year);
  }
}
