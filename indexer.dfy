/** The index rebuild (`index_movies`, backend/cinema/app.py:65-103): probe the
    search backend, read the page count, fetch every page concurrently and
    collect the renamed records as the pages complete, then delete the index
    if it exists and bulk-write one action per record. */
module Indexer {
  import opened Wrappers
  import opened Types
  import opened Catalog
  import opened SearchBackend

  /** A call the rebuild makes to the catalog or to the search backend. */
  datatype Call =
    | Get(url: string)
    | IndexExists(name: string)
    | IndexDelete(name: string)
    | BulkWrite(actions: seq<Action>)

  /** The page fetches submitted to the worker pool, pages 1..n in order. */
  function PageGets(baseUrl: string, n: nat): seq<Call> {
    seq(n, k requires 0 <= k < n => Get(PageUrl(baseUrl, k + 1)))
  }

  /** The page count the first catalog response yields, if it yields one. */
  function PageTotal(baseUrl: string, remote: Remote): Option<nat> {
    match remote(baseUrl)
    case None => None
    case Some(body) =>
      match PageCount(body)
      case Ok(n) => Some(n)
      case Err(_) => None
  }

  /** The catalog requests of a rebuild: the first response, then every page. */
  function Requests(baseUrl: string, remote: Remote): seq<Call> {
    [Get(baseUrl)] + match PageTotal(baseUrl, remote)
                     case Some(n) => PageGets(baseUrl, n)
                     case None => []
  }

  /** The backend calls of a rebuild that fetched `docs`. */
  function IndexCalls(name: string, existed: bool, docs: seq<Json>): seq<Call> {
    [IndexExists(name)] + (if existed then [IndexDelete(name)] else []) + [BulkWrite(Actions(name, docs))]
  }

  predicate ChangesIndex(c: Call) {
    c.IndexDelete? || c.BulkWrite?
  }

  /** Submits one fetch per page, pages 1..n, to the worker pool; the
      results are what the futures will hold. */
  method SubmitFetches(n: nat, baseUrl: string, remote: Remote)
    returns (futures: seq<Result<Json, ApiError>>, gets: seq<Call>)
    ensures |futures| == n
    ensures forall k :: 0 <= k < n ==> futures[k] == FetchPage(k + 1, baseUrl, remote)
    ensures gets == PageGets(baseUrl, n)
  {
    futures, gets := [], [];
    var page := 1;
    while page <= n
      invariant 1 <= page <= n + 1
      invariant |futures| == page - 1
      invariant forall k :: 0 <= k < |futures| ==> futures[k] == FetchPage(k + 1, baseUrl, remote)
      invariant gets == PageGets(baseUrl, page - 1)
    {
      futures := futures + [FetchPage(page, baseUrl, remote)];
      gets := gets + [Get(PageUrl(baseUrl, page))];
      page := page + 1;
    }
  }

  /** The `as_completed` loop: takes the pages in whatever order they
      complete, renames their records and extends `movies` with every
      non-empty page. The first failing page it meets fails the whole
      collection. */
  method CollectCompleted(futures: seq<Result<Json, ApiError>>, ghost results: nat -> Result<seq<Json>, ApiError>)
    returns (r: Result<seq<Json>, ApiError>)
    requires forall k :: 0 <= k < |futures| ==> results(k + 1) == PageRecords(futures[k])
    ensures r.Ok? <==> CollectPages(results, |futures|).Ok?
    ensures r.Ok? ==> multiset(r.value) == multiset(CollectPages(results, |futures|).value)
  {
    var n := |futures|;
    CollectPagesOk(results, n);
    var movies: seq<Json> := [];
    var pending := Pages(n);
    ghost var done: seq<nat> := [];
    while pending != []
      invariant multiset(done) + multiset(pending) == multiset(Pages(n))
      invariant forall k :: 0 <= k < |pending| ==> 1 <= pending[k] <= n
      invariant forall k :: 0 <= k < |done| ==> results(done[k]).Ok?
      invariant movies == Gather(results, done)
      decreases |pending|
    {
      var j :| 0 <= j < |pending|;
      var p := pending[j];
      var rest := pending[..j] + pending[j + 1..];
      MoveToDone(done, pending, j, rest, n);
      pending := rest;
      var onPage := PageRecords(futures[p - 1]);
      assert results(p) == onPage;
      if onPage.Err? {
        return Err(onPage.error);
      }
      if onPage.value != [] {
        movies := movies + onPage.value;
      }
      GatherSnoc(results, done, p);
      assert OkOrEmpty(results(p)) == onPage.value;
      done := done + [p];
    }
    AllPagesDone(results, done, n);
    CollectPagesValue(results, n);
    GatherPermutation(results, done, Pages(n));
    r := Ok(movies);
  }

  /** Moving the page at `j` from `pending` to `done` keeps every page
      accounted for exactly once. */
  lemma MoveToDone(done: seq<nat>, pending: seq<nat>, j: nat, rest: seq<nat>, n: nat)
    requires j < |pending| && rest == pending[..j] + pending[j + 1..]
    requires multiset(done) + multiset(pending) == multiset(Pages(n))
    requires forall k :: 0 <= k < |pending| ==> 1 <= pending[k] <= n
    ensures multiset(done + [pending[j]]) + multiset(rest) == multiset(Pages(n))
    ensures forall k :: 0 <= k < |rest| ==> 1 <= rest[k] <= n
  {
    assert pending == pending[..j] + [pending[j]] + pending[j + 1..];
    forall k | 0 <= k < |rest|
      ensures 1 <= rest[k] <= n
    {
      if k < j {
        assert rest[k] == pending[k];
      } else {
        assert rest[k] == pending[k + 1];
      }
    }
  }

  /** When the completed pages are pages 1..n in some order and each of them
      succeeded, every page 1..n succeeded. */
  lemma AllPagesDone<T, E>(results: nat -> Result<seq<T>, E>, done: seq<nat>, n: nat)
    requires multiset(done) == multiset(Pages(n))
    requires forall k :: 0 <= k < |done| ==> results(done[k]).Ok?
    ensures forall q :: 1 <= q <= n ==> results(q).Ok?
  {
    forall q | 1 <= q <= n
      ensures results(q).Ok?
    {
      assert Pages(n)[q - 1] == q;
      assert q in multiset(Pages(n));
      assert q in done;
      var k :| 0 <= k < |done| && done[k] == q;
    }
  }

  /** Deletes the index if it exists, then bulk-writes one action per
      document into it. */
  method ReplaceIndex(es: SearchCluster, indexName: string, docs: seq<Json>) returns (calls: seq<Call>)
    modifies es
    ensures calls == IndexCalls(indexName, indexName in old(es.indices), docs)
    ensures es.indices == if docs == [] then old(es.indices) - {indexName}
                          else old(es.indices)[indexName := docs]
  {
    calls := [IndexExists(indexName)];
    if es.Exists(indexName) {
      es.Delete(indexName);
      calls := calls + [IndexDelete(indexName)];
    }
    ghost var cleared := old(es.indices) - {indexName};
    assert es.indices == cleared;
    assert Stored(cleared, indexName) == [];
    var actions := Actions(indexName, docs);
    es.Bulk(actions);
    calls := calls + [BulkWrite(actions)];
    BulkIntoOneIndex(cleared, indexName, docs);
    assert [] + docs == docs;
    assert cleared[indexName := docs] == old(es.indices)[indexName := docs];
  }

  /** Rebuild the index from the catalog. `reachable` is the outcome of the
      backend probe; `remote` answers the catalog requests. */
  method IndexMovies(es: SearchCluster, reachable: bool, baseUrl: string, indexName: string, remote: Remote)
    returns (r: Result<IndexMoviesResponse, ApiError>, trace: seq<Call>, ghost indexed: seq<Json>)
    modifies es
    ensures !reachable ==> r == Err(BackendUnreachable) && trace == []
    ensures reachable ==> (r.Ok? <==> CatalogRecords(baseUrl, remote).Ok?)
    ensures r.Err? ==> es.indices == old(es.indices)
    ensures reachable && r.Err? ==> trace == Requests(baseUrl, remote)
    ensures r.Ok? ==>
      && multiset(indexed) == multiset(CatalogRecords(baseUrl, remote).value)
      && r.value.indexedMoviesCount == |indexed|
      && trace == Requests(baseUrl, remote) + IndexCalls(indexName, indexName in old(es.indices), indexed)
      && es.indices == if indexed == [] then old(es.indices) - {indexName}
                       else old(es.indices)[indexName := indexed]
  {
    trace, indexed := [], [];
    if !reachable {
      return Err(BackendUnreachable), trace, indexed;
    }
    trace := [Get(baseUrl)];
    var root := remote(baseUrl);
    if root.None? {
      return Err(UpstreamFailure), trace, indexed;
    }
    var count := PageCount(root.value);
    if count.Err? {
      return Err(count.error), trace, indexed;
    }
    var n := count.value;
    var futures, gets := SubmitFetches(n, baseUrl, remote);
    trace := trace + gets;
    assert forall k :: 0 <= k < n ==> PageResults(baseUrl, remote)(k + 1) == PageRecords(futures[k]);
    var collected := CollectCompleted(futures, PageResults(baseUrl, remote));
    if collected.Err? {
      return Err(collected.error), trace, indexed;
    }
    var movies := collected.value;
    var calls := ReplaceIndex(es, indexName, movies);
    trace := trace + calls;
    indexed := movies;
    r := Ok(IndexMoviesResponse(|movies|));
  }
}

module IndexerProperties {
  import opened Wrappers
  import opened Types
  import opened Catalog
  import opened SearchBackend
  import opened Indexer

  /** Each page 1..n is requested exactly once, and no other page is. */
  lemma {:induction false} PageRequestCount(baseUrl: string, n: nat, p: int)
    ensures multiset(PageGets(baseUrl, n))[Get(PageUrl(baseUrl, p))] == if 1 <= p <= n then 1 else 0
  {
    if n > 0 {
      var earlier := PageGets(baseUrl, n - 1);
      var last := Get(PageUrl(baseUrl, n));
      PageRequestCount(baseUrl, n - 1, p);
      assert PageGets(baseUrl, n) == earlier + [last];
      assert multiset(PageGets(baseUrl, n)) == multiset(earlier) + multiset{last};
      PageUrlInjective(baseUrl, p, n);
      assert (last == Get(PageUrl(baseUrl, p))) == (p == n);
    }
  }

  /** In every rebuild that reaches the index, all catalog requests come
      before the first call that changes the index; the index is deleted
      exactly when it existed, and then right before the bulk write. */
  lemma FetchesBeforeIndexChanges(baseUrl: string, remote: Remote, name: string, existed: bool, docs: seq<Json>)
    ensures var t := Requests(baseUrl, remote) + IndexCalls(name, existed, docs);
            && (forall i, j :: 0 <= i < j < |t| && t[j].Get? ==> !ChangesIndex(t[i]))
            && (IndexDelete(name) in t <==> existed)
            && t[|t| - 1] == BulkWrite(Actions(name, docs))
            && (existed ==> t[|t| - 2] == IndexDelete(name))
  {
    var reqs := Requests(baseUrl, remote);
    var t := reqs + IndexCalls(name, existed, docs);
    assert forall i :: 0 <= i < |reqs| ==> reqs[i].Get?;
    forall i, j | 0 <= i < j < |t| && t[j].Get?
      ensures !ChangesIndex(t[i])
    {
      assert j < |reqs|;
      assert t[i] == reqs[i];
    }
  }

  /** A catalog request body holding the given records as its `data`. */
  function DataPage(records: seq<Json>): Json {
    JObject(map["data" := JList(records)])
  }

  function CatalogRecord(imdbId: string, title: string, year: string): Json {
    JObject(map["imdbID" := JStr(imdbId), "Title" := JStr(title), "Year" := JStr(year)])
  }

  function StoredDoc(imdbId: string, title: string, year: string): Json {
    JObject(map["imdb_id" := JStr(imdbId), "title" := JStr(title), "year" := JStr(year)])
  }

  /** A catalog of two pages with one record each. */
  function TwoPageRemote(baseUrl: string): Remote {
    url =>
      if url == baseUrl then Some(JObject(map["total_pages" := JInt(2)]))
      else if url == PageUrl(baseUrl, 1) then Some(DataPage([CatalogRecord("tt1234567", "Sample Movie 1", "2025")]))
      else if url == PageUrl(baseUrl, 2) then Some(DataPage([CatalogRecord("tt7654321", "Sample Movie 2", "2024")]))
      else None
  }

  /** A fetched page holding one complete record yields its renamed document. */
  lemma OneRecordPage(imdbId: string, title: string, year: string)
    ensures PageRecords(Ok(JList([CatalogRecord(imdbId, title, year)]))) == Ok([StoredDoc(imdbId, title, year)])
  {
    var rec := CatalogRecord(imdbId, title, year);
    assert Normalize(rec) == Ok(StoredDoc(imdbId, title, year));
    assert [rec][1..] == [];
    var doc := StoredDoc(imdbId, title, year);
    var r := NormalizeAll([rec]);
    assert r.Ok? && |r.value| == 1 && Normalize(rec) == Ok(r.value[0]);
    assert r.value == [doc];
    assert PageItems(JList([rec])) == Ok([rec]);
  }

  /** Two pages that both succeed are read one after the other. */
  lemma CollectTwoPages<T, E>(pageResult: nat -> Result<seq<T>, E>, first: seq<T>, second: seq<T>)
    requires pageResult(1) == Ok(first) && pageResult(2) == Ok(second)
    ensures CollectPages(pageResult, 2) == Ok(first + second)
  {
    assert CollectPages(pageResult, 0) == Ok([]);
    assert CollectPages(pageResult, 1) == Ok([] + first);
    assert [] + first == first;
  }

  /** The two-page catalog yields the two renamed records, years still text. */
  lemma TwoPageCatalog(baseUrl: string)
    ensures CatalogRecords(baseUrl, TwoPageRemote(baseUrl))
            == Ok([StoredDoc("tt1234567", "Sample Movie 1", "2025"), StoredDoc("tt7654321", "Sample Movie 2", "2024")])
  {
    var remote := TwoPageRemote(baseUrl);
    var u1, u2 := PageUrl(baseUrl, 1), PageUrl(baseUrl, 2);
    assert |u1| > |baseUrl| && |u2| > |baseUrl|;
    PageUrlInjective(baseUrl, 1, 2);
    var r1 := CatalogRecord("tt1234567", "Sample Movie 1", "2025");
    var r2 := CatalogRecord("tt7654321", "Sample Movie 2", "2024");
    assert remote(u1) == Some(DataPage([r1]));
    assert remote(u2) == Some(DataPage([r2]));
    assert FetchPage(1, baseUrl, remote) == Ok(JList([r1]));
    assert FetchPage(2, baseUrl, remote) == Ok(JList([r2]));
    OneRecordPage("tt1234567", "Sample Movie 1", "2025");
    OneRecordPage("tt7654321", "Sample Movie 2", "2024");
    var results := PageResults(baseUrl, remote);
    assert results(1) == PageDocs(1, baseUrl, remote);
    assert results(2) == PageDocs(2, baseUrl, remote);
    CollectTwoPages(results, [StoredDoc("tt1234567", "Sample Movie 1", "2025")],
                    [StoredDoc("tt7654321", "Sample Movie 2", "2024")]);
    assert PageCount(remote(baseUrl).value) == Ok(2);
    assert CatalogRecords(baseUrl, remote) == CollectPages(results, 2);
    assert [StoredDoc("tt1234567", "Sample Movie 1", "2025")] + [StoredDoc("tt7654321", "Sample Movie 2", "2024")]
        == [StoredDoc("tt1234567", "Sample Movie 1", "2025"), StoredDoc("tt7654321", "Sample Movie 2", "2024")];
  }

  /** Two rebuilds in a row against an unchanged catalog report the same
      count, and the index then holds the catalog's records once. */
  method RebuildTwice(es: SearchCluster, baseUrl: string, indexName: string, remote: Remote)
    returns (first: Result<IndexMoviesResponse, ApiError>, second: Result<IndexMoviesResponse, ApiError>)
    modifies es
    ensures first.Ok? <==> second.Ok?
    ensures first.Ok? ==> first.value == second.value
    ensures second.Ok? ==>
            CatalogRecords(baseUrl, remote).Ok?
            && (second.value.indexedMoviesCount > 0 ==>
                  indexName in es.indices
                  && multiset(es.indices[indexName]) == multiset(CatalogRecords(baseUrl, remote).value))
  {
    var trace1, trace2;
    ghost var docs1, docs2;
    first, trace1, docs1 := IndexMovies(es, true, baseUrl, indexName, remote);
    second, trace2, docs2 := IndexMovies(es, true, baseUrl, indexName, remote);
    if first.Ok? {
      assert |multiset(docs1)| == |multiset(docs2)|;
    }
  }
}
