/** The remote movie catalog as the indexing endpoint reads it
    (backend/cinema/app.py:40-92): the page URL, `fetch_page`, the page count
    of the first response, the renaming of each record's fields, and the
    record set the catalog holds, in page order. */
module Catalog {
  import opened Wrappers
  import opened Decimal
  import opened Types

  /** The catalog service: the decoded body answered at a URL, or None when the
      request fails or the body is not JSON. */
  type Remote = string -> Option<Json>

  /** `f"{base_url}?page={page}"` */
  function PageUrl(baseUrl: string, page: int): string {
    baseUrl + "?page=" + IntToString(page)
  }

  /** `fetch_page`: GET the page URL and take its `data` field, or an empty
      list when there is none. A body that is not an object has no `.get`. */
  function FetchPage(page: int, baseUrl: string, remote: Remote): (r: Result<Json, ApiError>)
    ensures r.Ok? <==> remote(PageUrl(baseUrl, page)).Some? && remote(PageUrl(baseUrl, page)).value.JObject?
    ensures r.Ok? && "data" in remote(PageUrl(baseUrl, page)).value.fields
            ==> r.value == remote(PageUrl(baseUrl, page)).value.fields["data"]
    ensures r.Ok? && "data" !in remote(PageUrl(baseUrl, page)).value.fields ==> r.value == JList([])
    ensures remote(PageUrl(baseUrl, page)).None? ==> r == Err(UpstreamFailure)
  {
    match remote(PageUrl(baseUrl, page))
    case None => Err(UpstreamFailure)
    case Some(JObject(f)) => Ok(if "data" in f then f["data"] else JList([]))
    case Some(_) => Err(MalformedCatalog)
  }

  /** Number of pages `range(1, total_pages + 1)` visits, from the first
      response's `total_pages` (0 when absent). A boolean counts as 0 or 1, as
      Python's arithmetic does; any other non-integer raises. */
  function PageCount(body: Json): (r: Result<nat, ApiError>)
    ensures body.JObject? && "total_pages" !in body.fields ==> r == Ok(0)
    ensures body.JObject? && "total_pages" in body.fields && body.fields["total_pages"].JInt?
            ==> r == Ok(if body.fields["total_pages"].i < 0 then 0 else body.fields["total_pages"].i)
    ensures !body.JObject? ==> r.Err?
  {
    match body
    case JObject(f) =>
      var total := if "total_pages" in f then f["total_pages"] else JInt(0);
      (match total
       case JInt(n) => Ok(if n < 0 then 0 else n)
       case JBool(b) => Ok(if b then 1 else 0)
       case _ => Err(MalformedCatalog))
    case _ => Err(MalformedCatalog)
  }

  /** The elements that `for movie in movies_on_page` visits. Iterating a
      string or an object visits characters or keys, which then fail as
      records, so only the empty ones pass; null and numbers do not iterate. */
  function PageItems(data: Json): Result<seq<Json>, ApiError> {
    match data
    case JList(items) => Ok(items)
    case JStr(s) => if s == "" then Ok([]) else Err(MalformedCatalog)
    case JObject(f) => if f == map[] then Ok([]) else Err(MalformedCatalog)
    case _ => Err(MalformedCatalog)
  }

  /** The renaming of one catalog record into a stored document:
      `imdbID`, `Title` and `Year` become `imdb_id`, `title` and `year`, with
      the values untouched. A missing key is a KeyError. */
  function Normalize(record: Json): (r: Result<Json, ApiError>)
    ensures r.Ok? <==> record.JObject? && "imdbID" in record.fields && "Title" in record.fields
                       && "Year" in record.fields
    ensures r.Ok? ==> r.value.JObject? && r.value.fields.Keys == {"imdb_id", "title", "year"}
                      && r.value.fields["imdb_id"] == record.fields["imdbID"]
                      && r.value.fields["title"] == record.fields["Title"]
                      && r.value.fields["year"] == record.fields["Year"]
  {
    match record
    case JObject(f) =>
      if "imdbID" in f && "Title" in f && "Year" in f
      then Ok(JObject(map["imdb_id" := f["imdbID"], "title" := f["Title"], "year" := f["Year"]]))
      else Err(MalformedCatalog)
    case _ => Err(MalformedCatalog)
  }

  /** The list comprehension that renames every record of a page; the first
      record that cannot be renamed fails the page. */
  function NormalizeAll(records: seq<Json>): (r: Result<seq<Json>, ApiError>)
    ensures r.Ok? <==> forall i :: 0 <= i < |records| ==> Normalize(records[i]).Ok?
    ensures r.Ok? ==> |r.value| == |records|
                      && forall i :: 0 <= i < |records| ==> Normalize(records[i]) == Ok(r.value[i])
  {
    if records == [] then Ok([])
    else match Normalize(records[0])
      case Err(e) => Err(e)
      case Ok(doc) =>
        match NormalizeAll(records[1..])
        case Err(e) => Err(e)
        case Ok(rest) => Ok([doc] + rest)
  }

  /** `future.result()` followed by the renaming comprehension: the renamed
      records of a fetched page, or the failure raised on the way. */
  function PageRecords(fetched: Result<Json, ApiError>): Result<seq<Json>, ApiError> {
    match fetched
    case Err(e) => Err(e)
    case Ok(data) =>
      match PageItems(data)
      case Err(e) => Err(e)
      case Ok(items) => NormalizeAll(items)
  }

  /** The renamed records of one page, or the failure that page raises. */
  function PageDocs(page: int, baseUrl: string, remote: Remote): Result<seq<Json>, ApiError> {
    PageRecords(FetchPage(page, baseUrl, remote))
  }

  /** The outcome of every page of one catalog, as a function of the page
      number. */
  function PageResults(baseUrl: string, remote: Remote): nat -> Result<seq<Json>, ApiError> {
    p => PageDocs(p, baseUrl, remote)
  }

  /** The page numbers 1..n in order. */
  function Pages(n: nat): (ps: seq<nat>)
    ensures |ps| == n && forall k :: 0 <= k < n ==> ps[k] == k + 1
  {
    seq(n, k => k + 1)
  }

  /** The records of a page that succeeds; nothing for one that fails. */
  function OkOrEmpty<T, E>(r: Result<seq<T>, E>): seq<T> {
    if r.Ok? then r.value else []
  }

  /** The records of the pages `ps`, one page after the other. */
  function Gather<T, E>(pageResult: nat -> Result<seq<T>, E>, ps: seq<nat>): seq<T> {
    if ps == [] then []
    else Gather(pageResult, ps[..|ps| - 1]) + OkOrEmpty(pageResult(ps[|ps| - 1]))
  }

  /** Sum of the page lengths of the pages `ps`. */
  function TotalLength<T, E>(pageResult: nat -> Result<seq<T>, E>, ps: seq<nat>): nat {
    if ps == [] then 0
    else TotalLength(pageResult, ps[..|ps| - 1]) + |OkOrEmpty(pageResult(ps[|ps| - 1]))|
  }

  /** Pages 1..n read in page order, failing at the first page that fails:
      the reference against which the concurrent collection is judged. */
  function CollectPages<T, E>(pageResult: nat -> Result<seq<T>, E>, n: nat): Result<seq<T>, E> {
    if n == 0 then Ok([])
    else match CollectPages(pageResult, n - 1)
      case Err(e) => Err(e)
      case Ok(earlier) =>
        match pageResult(n)
        case Err(e) => Err(e)
        case Ok(docs) => Ok(earlier + docs)
  }

  /** The whole catalog: the first response gives the page count, then every
      page is read. */
  function CatalogRecords(baseUrl: string, remote: Remote): Result<seq<Json>, ApiError> {
    match remote(baseUrl)
    case None => Err(UpstreamFailure)
    case Some(body) =>
      match PageCount(body)
      case Err(e) => Err(e)
      case Ok(n) => CollectPages(PageResults(baseUrl, remote), n)
  }

  // ---------------------------------------------------------------------------
  // Properties

  /** Different pages are requested at different URLs. */
  lemma PageUrlInjective(baseUrl: string, p: int, q: int)
    ensures PageUrl(baseUrl, p) == PageUrl(baseUrl, q) ==> p == q
  {
    var prefix := baseUrl + "?page=";
    if PageUrl(baseUrl, p) == PageUrl(baseUrl, q) {
      assert IntToString(p) == PageUrl(baseUrl, p)[|prefix|..];
      assert IntToString(q) == PageUrl(baseUrl, q)[|prefix|..];
      IntToStringInjective(p, q);
    }
  }

  /** The catalog of `n` pages succeeds exactly when every page does. */
  lemma {:induction false} CollectPagesOk<T, E>(pageResult: nat -> Result<seq<T>, E>, n: nat)
    ensures CollectPages(pageResult, n).Ok? <==> forall p :: 1 <= p <= n ==> pageResult(p).Ok?
  {
    if n > 0 {
      CollectPagesOk(pageResult, n - 1);
    }
  }

  /** A catalog that succeeds holds the pages' records in page order. */
  lemma {:induction false} CollectPagesValue<T, E>(pageResult: nat -> Result<seq<T>, E>, n: nat)
    requires CollectPages(pageResult, n).Ok?
    ensures CollectPages(pageResult, n).value == Gather(pageResult, Pages(n))
  {
    if n > 0 {
      CollectPagesValue(pageResult, n - 1);
      assert Pages(n)[..n - 1] == Pages(n - 1);
    }
  }

  /** The records gathered from pages `ps` number the sum of the page lengths. */
  lemma {:induction false} GatherLength<T, E>(pageResult: nat -> Result<seq<T>, E>, ps: seq<nat>)
    ensures |Gather(pageResult, ps)| == TotalLength(pageResult, ps)
  {
    if ps != [] {
      GatherLength(pageResult, ps[..|ps| - 1]);
    }
  }

  /** Gathering two runs of pages is gathering each and joining. */
  lemma {:induction false} GatherConcat<T, E>(pageResult: nat -> Result<seq<T>, E>, a: seq<nat>, b: seq<nat>)
    ensures Gather(pageResult, a + b) == Gather(pageResult, a) + Gather(pageResult, b)
    decreases |b|
  {
    if b == [] {
      assert a + b == a;
    } else {
      var last := |b| - 1;
      assert (a + b)[..|a + b| - 1] == a + b[..last];
      GatherConcat(pageResult, a, b[..last]);
    }
  }

  /** A page without records adds nothing wherever it is gathered: skipping
      empty pages (`if movies_on_page:`) changes nothing. */
  lemma EmptyPageAddsNothing<T, E>(pageResult: nat -> Result<seq<T>, E>, a: seq<nat>, p: nat, b: seq<nat>)
    requires OkOrEmpty(pageResult(p)) == []
    ensures Gather(pageResult, a + [p] + b) == Gather(pageResult, a + b)
  {
    GatherConcat(pageResult, a + [p], b);
    GatherConcat(pageResult, a, b);
    assert (a + [p])[..|a + [p]| - 1] == a;
  }

  /** Removing one page from a run of pages removes exactly that page. */
  lemma RemoveAt(b: seq<nat>, j: nat)
    requires j < |b|
    ensures multiset(b[..j] + b[j + 1..]) == multiset(b) - multiset{b[j]}
  {
    assert b == b[..j] + [b[j]] + b[j + 1..];
    assert multiset(b) == multiset(b[..j]) + multiset{b[j]} + multiset(b[j + 1..]);
  }

  /** Gathering one more page adds that page's records at the end. */
  lemma GatherSnoc<T, E>(pageResult: nat -> Result<seq<T>, E>, ps: seq<nat>, p: nat)
    ensures Gather(pageResult, ps + [p]) == Gather(pageResult, ps) + OkOrEmpty(pageResult(p))
  {
    assert (ps + [p])[..|ps|] == ps;
  }

  /** Gathering a run of pages around one page is gathering the pages before
      it, that page, and the pages after it. */
  lemma GatherAround<T, E>(pageResult: nat -> Result<seq<T>, E>, before: seq<nat>, x: nat, after: seq<nat>)
    ensures Gather(pageResult, before + [x] + after)
            == Gather(pageResult, before) + OkOrEmpty(pageResult(x)) + Gather(pageResult, after)
  {
    GatherConcat(pageResult, before + [x], after);
    GatherSnoc(pageResult, before, x);
  }

  /** Gathering a run of pages is gathering it without page `j`, plus that
      page's records. */
  lemma GatherRemove<T, E>(pageResult: nat -> Result<seq<T>, E>, b: seq<nat>, j: nat)
    requires j < |b|
    ensures multiset(Gather(pageResult, b))
            == multiset(Gather(pageResult, b[..j] + b[j + 1..])) + multiset(OkOrEmpty(pageResult(b[j])))
  {
    var before, after := b[..j], b[j + 1..];
    assert b == before + [b[j]] + after;
    var g1, page, g2 := Gather(pageResult, before), OkOrEmpty(pageResult(b[j])), Gather(pageResult, after);
    GatherAround(pageResult, before, b[j], after);
    assert Gather(pageResult, b) == g1 + page + g2;
    GatherConcat(pageResult, before, after);
    RemoveMiddle(g1, page, g2);
  }

  /** Taking the middle run out of three leaves the other two, counted with
      multiplicity. */
  lemma RemoveMiddle<T>(g1: seq<T>, page: seq<T>, g2: seq<T>)
    ensures multiset(g1 + page + g2) == multiset(g1 + g2) + multiset(page)
  {
    assert multiset(g1 + page + g2) == multiset(g1) + multiset(page) + multiset(g2);
    assert multiset(g1 + g2) == multiset(g1) + multiset(g2);
  }

  /** Gathering pages in any order gives the same records, counted with
      multiplicity: completion order does not matter. */
  lemma {:induction false} GatherPermutation<T, E>(pageResult: nat -> Result<seq<T>, E>, a: seq<nat>, b: seq<nat>)
    requires multiset(a) == multiset(b)
    ensures multiset(Gather(pageResult, a)) == multiset(Gather(pageResult, b))
    decreases |a|
  {
    if a == [] {
      assert |b| == |multiset(b)| == 0;
    } else {
      var a' := a[..|a| - 1];
      var x := a[|a| - 1];
      assert a == a' + [x];
      assert multiset(a') == multiset(a) - multiset{x};
      assert x in multiset(b);
      var j :| 0 <= j < |b| && b[j] == x;
      RemoveAt(b, j);
      GatherPermutation(pageResult, a', b[..j] + b[j + 1..]);
      GatherRemove(pageResult, b, j);
    }
  }
}
