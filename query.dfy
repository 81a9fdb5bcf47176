/** The search endpoint (backend/cinema/app.py:105-154): the query body it
    sends to the search backend for a title and/or year filter and a result
    window, and the mapping of the backend's hits to `Movie` records. The
    search engine itself is an oracle: how it matches phrases and terms and
    how it ranks is not modelled. */
module Query {
  import opened Wrappers
  import opened Types
  import opened SearchBackend

  /** The query parameters; `None` is a parameter the request left out. */
  datatype MovieQuery = MovieQuery(title: Option<string>, year: Option<int>,
                                   fromItem: Option<int>, size: Option<int>)

  /** One clause of the `bool.must` list. */
  datatype Condition =
    | MatchPhrase(field: string, phrase: string)  // {"match_phrase": {field: {"query": phrase}}}
    | Term(field: string, value: int)             // {"term": {field: value}}

  /** `{"from": fromItem, "size": size, "query": {"bool": {"must": must}}}` */
  datatype SearchBody = SearchBody(fromItem: int, size: int, must: seq<Condition>)

  /** What the backend answers: the hits of the requested window and
      `hits.total.value`, the number of all matching documents. */
  datatype SearchResponse = SearchResponse(hits: seq<Json>, totalValue: int)

  /** The search engine, given the documents of the index and a query body. */
  type Engine = (seq<Json>, SearchBody) -> SearchResponse

  const DefaultFrom: int := 0
  const DefaultSize: int := 10

  /** Python truthiness of `title`: neither None nor the empty string. */
  predicate TitleGiven(q: MovieQuery) {
    q.title.Some? && q.title.value != ""
  }

  /** Python truthiness of `year`: neither None nor 0. */
  predicate YearGiven(q: MovieQuery) {
    q.year.Some? && q.year.value != 0
  }

  /** The filter list: a phrase match on the title when one is given,
      followed by an exact year when one is given. */
  function MustConditions(q: MovieQuery): (must: seq<Condition>)
    ensures |must| == (if TitleGiven(q) then 1 else 0) + (if YearGiven(q) then 1 else 0)
    ensures TitleGiven(q) <==> |must| > 0 && must[0].MatchPhrase?
    ensures YearGiven(q) <==> |must| > 0 && must[|must| - 1].Term?
    ensures TitleGiven(q) ==> must[0] == MatchPhrase("title", q.title.value)
    ensures YearGiven(q) ==> must[|must| - 1] == Term("year", q.year.value)
  {
    (if TitleGiven(q) then [MatchPhrase("title", q.title.value)] else [])
    + (if YearGiven(q) then [Term("year", q.year.value)] else [])
  }

  /** The body sent for a query: the window copies `from_item` and `size`,
      which default to 0 and 10. */
  function QueryBody(q: MovieQuery): SearchBody {
    SearchBody(q.fromItem.GetOr(DefaultFrom), q.size.GetOr(DefaultSize), MustConditions(q))
  }

  /** `and_conditions` built by conditional `append`, then the body around it. */
  method BuildQuery(q: MovieQuery) returns (body: SearchBody)
    ensures body == QueryBody(q)
  {
    var conditions: seq<Condition> := [];
    if q.title.Some? && q.title.value != "" {
      conditions := conditions + [MatchPhrase("title", q.title.value)];
    }
    if q.year.Some? && q.year.value != 0 {
      conditions := conditions + [Term("year", q.year.value)];
    }
    var fromItem := if q.fromItem.Some? then q.fromItem.value else 0;
    var size := if q.size.Some? then q.size.value else 10;
    body := SearchBody(fromItem, size, conditions);
  }

  /** A filter clause as the JSON the backend receives. */
  function ConditionJson(c: Condition): Json {
    match c
    case MatchPhrase(field, phrase) =>
      JObject(map["match_phrase" := JObject(map[field := JObject(map["query" := JStr(phrase)])])])
    case Term(field, value) =>
      JObject(map["term" := JObject(map[field := JInt(value)])])
  }

  /** The filter clauses as a JSON list, in order. */
  function ConditionsJson(must: seq<Condition>): seq<Json> {
    if must == [] then [] else [ConditionJson(must[0])] + ConditionsJson(must[1..])
  }

  /** The query body as the JSON the backend receives. */
  function BodyJson(b: SearchBody): Json {
    JObject(map[
      "from" := JInt(b.fromItem),
      "size" := JInt(b.size),
      "query" := JObject(map["bool" := JObject(map["must" := JList(ConditionsJson(b.must))])])
    ])
  }

  /** `hit["_source"]`; a hit without one is a KeyError. */
  function HitSource(hit: Json): (r: Result<Json, ApiError>)
    ensures r.Ok? <==> hit.JObject? && "_source" in hit.fields
    ensures r.Ok? ==> r.value == hit.fields["_source"]
    ensures r.Err? ==> r.error == InvalidHit
  {
    if hit.JObject? && "_source" in hit.fields then Ok(hit.fields["_source"]) else Err(InvalidHit)
  }

  /** `[Movie(**hit["_source"]) for hit in hits]`: one movie per hit, in hit
      order; the first hit that does not validate fails the request. */
  function ToMovies(hits: seq<Json>): (r: Result<seq<Movie>, ApiError>)
    ensures r.Ok? <==> forall i :: 0 <= i < |hits| ==> HitSource(hits[i]).Ok? && ToMovie(HitSource(hits[i]).value).Ok?
    ensures r.Ok? ==> |r.value| == |hits|
                      && forall i :: 0 <= i < |hits| ==> ToMovie(HitSource(hits[i]).value) == Ok(r.value[i])
    ensures r.Err? ==> r.error == InvalidHit
  {
    if hits == [] then Ok([])
    else match HitSource(hits[0])
      case Err(e) => Err(e)
      case Ok(source) =>
        match ToMovie(source)
        case Err(e) => Err(e)
        case Ok(m) =>
          match ToMovies(hits[1..])
          case Err(e) => Err(e)
          case Ok(rest) => Ok([m] + rest)
  }

  /** The response for the backend's answer: the hits as movies and the
      backend's total, which counts every match and not only this page. */
  function ResponseOf(answer: SearchResponse): Result<MoviesResponse, ApiError> {
    match ToMovies(answer.hits)
    case Err(e) => Err(e)
    case Ok(movies) => Ok(MoviesResponse(movies, answer.totalValue))
  }

  /** `search_movies`, with the missing index reported as the not-ready error
      the handler evidently means: an unreachable backend is refused first,
      then a missing index, and otherwise the backend is asked once with the
      body for `q` over the documents of the index. */
  method SearchMovies(es: SearchCluster, reachable: bool, indexName: string, q: MovieQuery, engine: Engine)
    returns (r: Result<MoviesResponse, ApiError>, sent: Option<SearchBody>)
    ensures !reachable ==> r == Err(BackendUnreachable) && sent == None
    ensures reachable && indexName !in es.indices ==> r == Err(IndexNotReady) && sent == None
    ensures reachable && indexName in es.indices ==>
            sent == Some(QueryBody(q))
            && r == ResponseOf(engine(es.indices[indexName], QueryBody(q)))
  {
    if !reachable {
      return Err(BackendUnreachable), None;
    }
    if !es.Exists(indexName) {
      return Err(IndexNotReady), None;
    }
    var body := BuildQuery(q);
    var answer := engine(es.indices[indexName], body);
    var movies := ToMovies(answer.hits);
    if movies.Err? {
      return Err(movies.error), Some(body);
    }
    r, sent := Ok(MoviesResponse(movies.value, answer.totalValue)), Some(body);
  }

  // ---------------------------------------------------------------------------
  // The missing-index branch as written

  /** `search_movies` as written, given whether the index exists and the
      backend's answer to the body for `q`. In the missing-index branch,
      `HTTPException("The movies weren't loaded yet")` passes the message as
      the status code and no detail; without a detail the constructor looks
      the status code up as an HTTP status to take its reason phrase, and text
      is no HTTP status, so building the exception already raises `ValueError`
      and the client gets a server error. */
  function SearchAsWritten(reachable: bool, indexExists: bool, q: MovieQuery, answer: SearchResponse)
    : (out: Result<MoviesResponse, ApiError>)
    ensures !reachable ==> out == Err(BackendUnreachable)
    ensures reachable && !indexExists ==> out == Err(InternalError)
    ensures reachable && indexExists ==> out == ResponseOf(answer)
  {
    if !reachable then Err(BackendUnreachable)
    else if !indexExists then Err(InternalError)
    else ResponseOf(answer)
  }

  /** As written, the handler never reports an index that is not ready: where
      the corrected handler fails with `IndexNotReady`, the one as written
      fails with a server error. */
  lemma {:induction false} AsWrittenNeverReportsNotReady(reachable: bool, indexExists: bool, q: MovieQuery, answer: SearchResponse)
    ensures SearchAsWritten(reachable, indexExists, q, answer) != Err(IndexNotReady)
    ensures reachable && !indexExists ==> SearchAsWritten(reachable, indexExists, q, answer) == Err(InternalError)
  {
    if reachable && indexExists && ToMovies(answer.hits).Err? {
      assert ToMovies(answer.hits).error == InvalidHit;
    }
  }

  /** Both handlers on the same cluster and query: they answer alike except
      exactly when the backend is reachable and the index is missing. */
  method CompareWithAsWritten(es: SearchCluster, reachable: bool, indexName: string, q: MovieQuery, engine: Engine)
    returns (corrected: Result<MoviesResponse, ApiError>, asWritten: Result<MoviesResponse, ApiError>)
    ensures corrected != asWritten <==> reachable && indexName !in es.indices
    ensures corrected != asWritten ==> corrected == Err(IndexNotReady) && asWritten == Err(InternalError)
  {
    var sent;
    corrected, sent := SearchMovies(es, reachable, indexName, q, engine);
    var answer := if indexName in es.indices then engine(es.indices[indexName], QueryBody(q)) else SearchResponse([], 0);
    asWritten := SearchAsWritten(reachable, indexName in es.indices, q, answer);
  }

  // ---------------------------------------------------------------------------
  // Properties

  /** With no filter the must list is empty, so every document matches. */
  lemma NoFilterMatchesAll(q: MovieQuery)
    requires !TitleGiven(q) && !YearGiven(q)
    ensures QueryBody(q).must == []
  {
  }

  /** The query sent for title "Sample" and year 2025 with the default window. */
  lemma SampleQueryJson()
    ensures BodyJson(QueryBody(MovieQuery(Some("Sample"), Some(2025), None, None)))
            == JObject(map[
                 "from" := JInt(0),
                 "size" := JInt(10),
                 "query" := JObject(map["bool" := JObject(map["must" := JList([
                   JObject(map["match_phrase" := JObject(map["title" := JObject(map["query" := JStr("Sample")])])]),
                   JObject(map["term" := JObject(map["year" := JInt(2025)])])
                 ])])])
               ])
  {
    var q := MovieQuery(Some("Sample"), Some(2025), None, None);
    var must := MustConditions(q);
    assert must == [MatchPhrase("title", "Sample"), Term("year", 2025)];
    assert QueryBody(q) == SearchBody(0, 10, must);
    assert must[1..][1..] == [];
    assert ConditionsJson(must) == [ConditionJson(must[0]), ConditionJson(must[1])];
  }

  /** A backend answer with one stored movie, its year an integer, gives that
      movie and the backend's total. */
  lemma SampleSearchResponse()
    ensures ResponseOf(SearchResponse(
              [JObject(map["_source" := JObject(map["imdb_id" := JStr("tt1234567"), "title" := JStr("Sample Movie"),
                                                    "year" := JInt(2025)])])], 1))
            == Ok(MoviesResponse([Movie("Sample Movie", 2025, "tt1234567")], 1))
  {
    var m := Movie("Sample Movie", 2025, "tt1234567");
    assert MovieJson(m) == JObject(map["imdb_id" := JStr("tt1234567"), "title" := JStr("Sample Movie"),
                                       "year" := JInt(2025)]);
    MovieHitsRoundTrip([m]);
    var hits := seq(1, i requires 0 <= i < 1 => JObject(map["_source" := MovieJson([m][i])]));
    assert hits == [JObject(map["_source" := MovieJson(m)])];
  }

  /** The response keeps the backend's total even when it exceeds the page. */
  lemma {:induction false} TotalIsBackendCount(answer: SearchResponse)
    requires ResponseOf(answer).Ok?
    ensures ResponseOf(answer).value.total == answer.totalValue
    ensures |ResponseOf(answer).value.movies| == |answer.hits|
  {
  }

  /** Every movie serialised as a hit comes back unchanged, in order. */
  lemma {:induction false} MovieHitsRoundTrip(movies: seq<Movie>)
    ensures ToMovies(seq(|movies|, i requires 0 <= i < |movies| => JObject(map["_source" := MovieJson(movies[i])])))
            == Ok(movies)
    decreases |movies|
  {
    var hits := seq(|movies|, i requires 0 <= i < |movies| => JObject(map["_source" := MovieJson(movies[i])]));
    if movies != [] {
      MovieJsonRoundTrip(movies[0]);
      assert hits[1..] == seq(|movies[1..]|, i requires 0 <= i < |movies[1..]| => JObject(map["_source" := MovieJson(movies[1..][i])]));
      MovieHitsRoundTrip(movies[1..]);
      assert [movies[0]] + movies[1..] == movies;
    }
  }
}
