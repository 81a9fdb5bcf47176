# Cinema search service — a Dafny model

This project models the core of the cinema service. The model covers:
- the backend (`backend/cinema/app.py`, `backend/cinema/types.py`):
  - rebuilding the search index from a paginated remote movie catalog
    (`fetch_page` and `index_movies`);
  - answering title and year searches against that index (`search_movies`);
- the frontend pieces that drive searching:
  - the URL builder in `useFetchMovies.js`;
  - the page arithmetic in `usePagination.js`;
  - the page-change handler in `Pagination.jsx`.

Modules:

- `Wrappers`: `Option` and `Result`.
- `Decimal`: integers as decimal text and back. Used by the page URL, the URL
  builder and the lax integer validation of a movie's year.
- `Types`:
  - the service's record types;
  - a small JSON value type;
  - the errors the endpoints report;
  - the validation of a stored document as a `Movie`.
- `Catalog`:
  - the remote catalog as a function from URL to decoded body;
  - `fetch_page` and the page count;
  - the renaming of each record's `imdbID`, `Title` and `Year` fields;
  - the catalog's records read page by page in page order. This is the
    reference the concurrent collection is judged against.
- `SearchBackend`: the search cluster as a class whose `indices` map the
  rebuild updates in place, with existence check, delete and bulk insert.
- `Indexer`: `index_movies` as methods:
  - submit one fetch per page;
  - consume the futures in an arbitrary completion order;
  - delete the index if it exists;
  - bulk-write one action per record.

  `SubmitFetches`, `ReplaceIndex` and `IndexMovies` also return the trace of
  calls they made to the catalog and the backend.
- `IndexerProperties`: properties of the rebuild. These cover request counts,
  call ordering, the two-page example and rebuilding twice.
- `Query`: the search body built for a query, the mapping of hits to movies,
  and the handler. The handler is modelled twice: as written, and with the
  missing-index branch corrected (see Findings).
- `FetchMovies`:
  - the search URL the frontend builds;
  - how such a query string is read back on the other side: split at `&`,
    split at the first `=`, the last repeated name wins.
- `Pagination`:
  - the page count;
  - the current page (a class);
  - each page's result window;
  - the rule that hides the control;
  - the page-change handler.

The engine's matching and ranking are represented by an oracle, so the model
says which query is sent but not which documents match it.

## Model

| member | source | states |
|---|---|---|
| Types.ToMovie | backend/cinema/types.py:6-18 | a stored document validates exactly when it is an object whose `title` and `imdb_id` are strings and whose `year` is an integer or integer text; the movie takes those values, and every failure is an invalid-hit error |
| Types.MovieJsonRoundTrip | backend/cinema/types.py:16-18 | serialising a movie and validating the object gives the same movie back |
| Types.TextYearValidates | backend/cinema/types.py:17 | a document whose year is the decimal text of an integer (as the catalog delivers it) validates to that integer year |
| Decimal.IntRoundTrip | backend/cinema/types.py:17 | reading the decimal text of any integer gives that integer back |
| Decimal.IntToStringInjective | backend/cinema/app.py:51 | distinct page numbers have distinct decimal text |
| Catalog.FetchPage | backend/cinema/app.py:40-53 | succeeds exactly when the page URL answers a JSON object; yields its `data` field, or an empty list when that field is absent; a failed request is an upstream failure |
| Catalog.PageUrlInjective | backend/cinema/app.py:51 | two different pages are requested at two different URLs |
| Catalog.PageCount | backend/cinema/app.py:69-70 | an absent `total_pages` means no pages, an integer count is the number of pages (none when negative), and a body that is not an object is an error |
| Catalog.Normalize | backend/cinema/app.py:82-88 | a record renames exactly when it has `imdbID`, `Title` and `Year`; the result has exactly the keys `imdb_id`, `title`, `year` holding those values unchanged |
| Catalog.NormalizeAll | backend/cinema/app.py:82-89 | a page renames exactly when every record does, giving one document per record in order |
| Catalog.Pages | backend/cinema/app.py:77 | the pages visited are 1..n in order |
| Catalog.CollectPagesOk | backend/cinema/app.py:74-92 | the catalog reads successfully exactly when every page 1..n does |
| Catalog.CollectPagesValue | backend/cinema/app.py:74-92 | a successful catalog read is the records of pages 1..n concatenated in page order |
| Catalog.GatherLength | backend/cinema/app.py:91-92 | the records gathered number the sum of the page lengths |
| Catalog.GatherConcat | backend/cinema/app.py:91-92 | gathering two runs of pages is gathering each run and joining the results |
| Catalog.EmptyPageAddsNothing | backend/cinema/app.py:91-92 | skipping a page without records (`if movies_on_page`) changes nothing, wherever that page completes |
| Catalog.GatherPermutation | backend/cinema/app.py:80 | pages gathered in any completion order give the same records, counted with multiplicity |
| SearchBackend.BulkIntoOneIndex | backend/cinema/app.py:98-101 | the bulk request for a list of documents appends exactly those documents, in order, to the one index named and touches no other; with no documents it changes nothing |
| SearchBackend.SearchCluster.constructor | backend/cinema/elastic_search.py:6-14 | a client starts with the given indices |
| SearchBackend.SearchCluster.Delete | backend/cinema/app.py:95 | deleting removes the named index and nothing else; a missing index is not an error |
| SearchBackend.SearchCluster.Bulk | backend/cinema/app.py:101 | the indices afterwards are the bulk actions applied in order |
| Indexer.SubmitFetches | backend/cinema/app.py:74-78 | one future per page 1..n, future k holding page k+1's fetch, and one GET per page in page order |
| Indexer.CollectCompleted | backend/cinema/app.py:80-92 | whatever order the pages complete in, the collection succeeds exactly when the page-ordered catalog read does, and then holds the same records with the same multiplicities |
| Indexer.ReplaceIndex | backend/cinema/app.py:94-101 | the index ends up holding exactly the documents (absent when there are none), other indices are unchanged, and the calls are exists, delete only when the index existed, then one bulk write |
| Indexer.IndexMovies | backend/cinema/app.py:65-103 | an unreachable backend fails before any request; otherwise the rebuild succeeds exactly when the catalog reads; a catalog failure leaves the indices unchanged; success reports the number of records indexed, the index holds the catalog's records up to order, and the call trace is all catalog GETs followed by the index calls |
| IndexerProperties.PageRequestCount | backend/cinema/app.py:75-78 | every page 1..n is requested exactly once, and no other page number is requested |
| IndexerProperties.FetchesBeforeIndexChanges | backend/cinema/app.py:69-101 | no call that changes the index precedes a catalog GET; the index is deleted exactly when it existed, right before the bulk write, which is the last call |
| IndexerProperties.OneRecordPage | backend/cinema/app.py:81-89 | a page holding one complete catalog record yields that record renamed |
| IndexerProperties.CollectTwoPages | backend/cinema/app.py:74-92 | two successful pages are read as the first page's records followed by the second's |
| IndexerProperties.TwoPageCatalog | backend/tests/test_api.py:36-90 | the two-page catalog of the indexing test yields the two renamed records, years still text |
| IndexerProperties.RebuildTwice | backend/cinema/app.py:94-103 | two rebuilds in a row against the same catalog agree on success and on the count; after them the index holds the catalog's records once each |
| Query.MustConditions | backend/cinema/app.py:129-143 | a phrase match on `title` comes first exactly when a non-empty title is given; an exact `year` term comes last exactly when a non-zero year is given; nothing else is in the list |
| Query.BuildQuery | backend/cinema/app.py:129-149 | the body carries `from_item` and `size` (defaults 0 and 10) and the filter list of the query |
| Query.HitSource | backend/cinema/app.py:154 | a hit yields its `_source` exactly when it has one; otherwise the hit is invalid |
| Query.ToMovies | backend/cinema/app.py:151-154 | the hits map to movies exactly when every hit's source validates, giving one movie per hit in hit order; any failure is an invalid hit |
| Query.SearchMovies | backend/cinema/app.py:118-154 | an unreachable backend is refused first, then a missing index reports not-ready, and nothing is sent in either case; otherwise exactly the query's body is sent once over the index's documents and the answer's hits and total form the response |
| Query.SearchAsWritten | backend/cinema/app.py:124-154 | as written, a missing index makes the handler fail with a server error: building `HTTPException` with the message as its status code raises before anything is returned |
| Query.AsWrittenNeverReportsNotReady | backend/cinema/app.py:126-127 | the handler as written never fails with not-ready; for a missing index on a reachable backend it fails with a server error instead |
| Query.CompareWithAsWritten | backend/cinema/app.py:124-154 | on the same cluster and query, the corrected and the as-written handler differ exactly when the backend is reachable and the index is missing, and then the corrected one reports not-ready where the one as written fails with a server error |
| Query.NoFilterMatchesAll | backend/cinema/app.py:129-148 | without a title or year the filter list is empty |
| Query.SampleQueryJson | backend/tests/test_api.py:131-142 | the body for title "Sample" and year 2025 with the default window is the JSON the search test expects |
| Query.SampleSearchResponse | backend/tests/test_api.py:95-125 | the backend answer of the search test maps to one movie and a total of 1 |
| Query.TotalIsBackendCount | backend/cinema/app.py:151-154 | the response's total is the backend's total of all matches, while its movies are exactly one per hit of the window |
| Query.MovieHitsRoundTrip | backend/cinema/app.py:154 | movies stored as hit sources come back unchanged and in order |
| FetchMovies.BuildSearchUrl | frontend/src/useFetchMovies.js:6-18 | the URL is the backend's `/api/movies?` followed by the title, year, offset and size segments, each present exactly when its value is truthy |
| FetchMovies.QueryIsSegments | frontend/src/useFetchMovies.js:6 | the URL starts with the search prefix and its query string is exactly the four segments |
| FetchMovies.EmptyTitleWithYear | frontend/src/useFetchMovies.js:7-12 | with no title and a year, the query string starts with `&year=` |
| FetchMovies.ReadBack | frontend/src/useFetchMovies.js:6-18 | for title and year text free of `&`, `#`, `%` and `+`, the query string reads back as exactly the name-value pairs of the segments the frontend wrote |
| FetchMovies.ReadBackValues | frontend/src/useFetchMovies.js:6-18 | each of `title`, `year`, `from_item`, `size` reads back as the value sent, and as absent when its segment was left out |
| FetchMovies.OffsetArrives | frontend/src/useFetchMovies.js:13-15 | the offset the backend uses is the one requested; a null or 0 offset falls back to the backend default 0 |
| FetchMovies.SizeArrives | frontend/src/useFetchMovies.js:16-18 | the page size the backend uses is the one requested, or its default 10 when the size is null or 0 |
| FetchMovies.TitleInjectsYear | frontend/src/useFetchMovies.js:7-12 | values are interpolated unescaped: a title carrying `&year=` sets the year the backend reads even though the year field is empty |
| Pagination.TotalPages | frontend/src/usePagination.js:6 | the fewest pages that hold every item: the pages cover the total, the last page is not empty, and a null or zero total gives no pages |
| Pagination.Pager.constructor | frontend/src/usePagination.js:4 | the current page starts at 1 |
| Pagination.Pager.SetPage | frontend/src/usePagination.js:8-10 | the current page becomes the page chosen |
| Pagination.OnPageChange | frontend/src/Pagination.jsx:13-22 | the current page becomes the new page, and the search is repeated for that page's window of one page size |
| Pagination.PageOf | frontend/src/Pagination.jsx:17-18 | every result lies in the window of some page numbered 1 or more |
| Pagination.AdjacentWindows | frontend/src/Pagination.jsx:17-18 | the first page starts at offset 0 and each page's window starts where the previous one ends |
| Pagination.DisjointWindows | frontend/src/Pagination.jsx:17-18 | the windows of two different pages do not overlap |
| Pagination.ResultOnOnePage | frontend/src/Pagination.jsx:17-18 | every result lies in the window of exactly one page, and that page is among the pages offered |
| Pagination.OffsetWithinTotal | frontend/src/Pagination.jsx:17 | every page offered starts inside the result set |
| Pagination.ShownIffPages | frontend/src/Pagination.jsx:24-26 | the control shows exactly when there is at least one page |
| Pagination.PageRequestArrives | frontend/src/Pagination.jsx:16-19 | the backend serves the chosen page's window: it reads that page's offset and the page size |
| Pagination.SubmitIsFirstPage | frontend/src/MovieForm.jsx:26-30 | submitting the form requests the same URL as choosing page 1 |

## Left out

- HTTP and JSON transport are not modelled. The catalog is a function from URL to decoded body, with `None` for a failed request or a non-JSON body. Floating-point JSON numbers are not represented.
- The thread pool is not modelled. Futures are computed when submitted, and the order they complete in is an arbitrary choice in the collection loop. Interleavings beyond that order do not affect the result.
- `verify_es_connection` (backend/cinema/utils.py) becomes a boolean `reachable` input. The probe itself is not modelled.
- The search engine's phrase and term matching, scoring and ranking are an oracle from the index's documents and the body to the hits and total. The model states which body is sent, not which documents it finds.
- The return value of `helpers.bulk`, the logging and the timing of the rebuild are not modelled.
- The FastAPI routing, the `/health` route and the serving of static files are not modelled. `HealthCheck` and its default status `"OK"` are kept as a type and a constant.
- FastAPI's validation of query parameters, such as rejecting a non-integer `year` with 422, is not modelled. The search query holds already-typed values.
- pydantic's lax coercions are modelled only for integers and decimal integer text. Other coercions (floats such as `2025.0`, surrounding whitespace, `+` signs, underscores) are not modelled.
- The index name, the catalog URL and `ITEMS_PER_PAGE` are parameters: backend/cinema/consts.py and frontend/src/const.js are not part of this model. `Pagination.TotalPages` and the window lemmas require `ITEMS_PER_PAGE > 0`.
- The read-back lemmas do not model percent-decoding and URL fragments. `FetchMovies.ReadBack`, `FetchMovies.ReadBackValues`, `FetchMovies.OffsetArrives`, `FetchMovies.SizeArrives` and `Pagination.PageRequestArrives` therefore require title and year text without `&`, `#`, `%` or `+`.
- The backend framework's query-string parser is not part of the repository. `FetchMovies.ParseQuery` reads a query string the usual way: split at `&`, drop empty pieces, split each piece at its first `=`, and let the last repeated name win. The read-back lemmas are stated against that reading.
- The React rendering, the state hooks' re-rendering and the `fetch` promise that stores the response are not modelled. `Pagination.Pager` keeps only the current page.
- JavaScript number formatting is modelled as decimal integer text. Offsets and sizes are integers in this frontend.
- `Indexer.IndexMovies` models an error raised by a failed page as an error result, with the indices unchanged. In the source, such an error surfaces as a server error before the index is touched, so the effect is the same.
- `Indexer.IndexMovies`: the backend's exists, delete and bulk calls never fail in the model, so the promise that a failure leaves the indices unchanged covers catalog failures only. In the source, a rejected document makes `helpers.bulk` raise after the old index was already deleted, so the endpoint can fail with the index absent or partly written.

## Findings

| source | as written | input that shows it | evidently intended | confidence | as-written member | corrected member |
|---|---|---|---|---|---|---|
| backend/cinema/app.py:126-127 | when the index does not exist, the handler returns `HTTPException("The movies weren't loaded yet")` instead of raising it, and the message lands in the `status_code` argument; with no detail given, the constructor looks that text up as an HTTP status to take its phrase, which raises `ValueError`, so the request ends in a server error (500) | any search (for example title "Sample") before the first rebuild, with the backend reachable | raise an HTTP error reporting that the movies are not loaded yet | high, not executed | Query.SearchAsWritten | Query.SearchMovies |
