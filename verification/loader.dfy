/** The non-I/O part of `fetchMovies`: turning what the network delivered
    into either a page of movies or an error message. The request itself
    (URL, `fetch`, `response.json()`) is outside the model; its outcome is
    an input. */
module Loader {
  import opened Values
  import opened Text
  import opened Catalog

  /** The `meta` object of a response body. */
  datatype Meta = Meta(currentPage: Option<int>, lastPage: Option<int>)

  /** What `response.json()` settles with. `Unparsable` is a rejection with
      its message. `Json` is any parsed value: `data` is `Some` exactly when
      the value is a truthy object whose `data` field is an array, and
      `meta` is `None` when that field is missing or falsy. */
  datatype Body =
    | Unparsable(reason: string)
    | Json(data: Option<seq<Movie>>, meta: Option<Meta>)

  /** How the request settled: `fetch` rejected, or a response arrived. */
  datatype FetchOutcome =
    | NetworkFailure(reason: string)
    | Response(status: int, body: Body)

  /** `response.ok`. */
  predicate IsOk(status: int) {
    200 <= status <= 299
  }

  /** A successfully loaded page. */
  datatype Page = Page(movies: seq<Movie>, currentPage: int, lastPage: int)

  datatype LoadResult = Loaded(page: Page) | Failed(message: string)

  const HttpErrorPrefix := "Failed to fetch movies (HTTP "
  const FormatErrorMessage := "API response format error: no \"data\" array"

  function HttpErrorMessage(status: int): string {
    HttpErrorPrefix + IntToString(status) + ")"
  }

  /** The status-code error message names the status code. */
  lemma HttpErrorNamesStatus(status: int)
    ensures Includes(HttpErrorMessage(status), IntToString(status))
  {
    var m := HttpErrorMessage(status);
    var n := IntToString(status);
    assert m[|HttpErrorPrefix|..|HttpErrorPrefix| + |n|] == n;
    assert OccursAt(m, n, |HttpErrorPrefix|);
  }

  /** The current page: the response's `meta.current_page` when `meta` is
      present and that field is truthy, page 1 otherwise. */
  function CurrentPageOf(meta: Option<Meta>): (p: int)
    ensures p != 0
    ensures meta.Some? && TruthyInt(meta.value.currentPage) ==> p == meta.value.currentPage.value
    ensures !(meta.Some? && TruthyInt(meta.value.currentPage)) ==> p == 1
  {
    if meta.Some? then IntOr(meta.value.currentPage, 1) else 1
  }

  /** The last page: the response's `meta.last_page` when `meta` is present
      and that field is truthy, 1 otherwise. Neither value is checked
      against the other or against 1. */
  function LastPageOf(meta: Option<Meta>): (p: int)
    ensures p != 0
    ensures meta.Some? && TruthyInt(meta.value.lastPage) ==> p == meta.value.lastPage.value
    ensures !(meta.Some? && TruthyInt(meta.value.lastPage)) ==> p == 1
  {
    if meta.Some? then IntOr(meta.value.lastPage, 1) else 1
  }

  /** The `try` block of `fetchMovies` up to the state updates: a non-ok
      status fails before the body is read, a body without a `data` array
      fails with the format message, anything else is a page. */
  function Interpret(o: FetchOutcome): (r: LoadResult)
    ensures r.Loaded? <==> o.Response? && IsOk(o.status) && o.body.Json? && o.body.data.Some?
    ensures r.Loaded? ==> r.page.movies == o.body.data.value
    ensures r.Loaded? ==> r.page.currentPage == CurrentPageOf(o.body.meta)
    ensures r.Loaded? ==> r.page.lastPage == LastPageOf(o.body.meta)
    ensures o.NetworkFailure? ==> r == Failed(o.reason)
    ensures o.Response? && !IsOk(o.status) ==>
              r == Failed(HttpErrorMessage(o.status)) && Includes(r.message, IntToString(o.status))
    ensures o.Response? && IsOk(o.status) && o.body.Unparsable? ==> r == Failed(o.body.reason)
    ensures o.Response? && IsOk(o.status) && o.body.Json? && o.body.data.None? ==> r == Failed(FormatErrorMessage)
  {
    match o
    case NetworkFailure(reason) => Failed(reason)
    case Response(status, body) =>
      if !IsOk(status) then HttpErrorNamesStatus(status); Failed(HttpErrorMessage(status))
      else
        match body
        case Unparsable(reason) => Failed(reason)
        case Json(data, meta) =>
          if data.None? then Failed(FormatErrorMessage)
          else Loaded(Page(data.value, CurrentPageOf(meta), LastPageOf(meta)))
  }
}
