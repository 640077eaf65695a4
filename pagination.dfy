/**
 * The cursor pagination loop `fetchAllProducts` (productGetter.js:93-114):
 * request a page, append its edges, continue from its `endCursor` while it
 * reports `hasNextPage`. A query that throws ends the loop with that error.
 */
module Pagination {
  import opened Results
  import opened RemoteCatalog

  /**
   * Starting at cursor `c`, the loop issues exactly `n` requests: each of
   * the first `n - 1` answers is a page that reports a next page, and the
   * `n`-th answer is an error or a page that reports none.
   */
  predicate Stops(api: Api, c: Cursor, n: nat)
    decreases n
  {
    n > 0 &&
    match api(c)
    case Failure(_) => n == 1
    case Success(page) =>
      if page.pageInfo.hasNextPage then n > 1 && Stops(api, page.pageInfo.endCursor, n - 1)
      else n == 1
  }

  /** The result of the loop started at cursor `c`: every page's edges, first page first. */
  function FetchFrom(api: Api, c: Cursor, n: nat): Result<seq<RemoteProduct>, FetchError>
    requires Stops(api, c, n)
    decreases n
  {
    match api(c)
    case Failure(e) => Failure(e)
    case Success(page) =>
      if !page.pageInfo.hasNextPage then Success(page.edges)
      else
        match FetchFrom(api, page.pageInfo.endCursor, n - 1)
        case Failure(e) => Failure(e)
        case Success(rest) => Success(page.edges + rest)
  }

  /** The cursors of the requests the loop started at `c` sends, in order. */
  function Cursors(api: Api, c: Cursor, n: nat): seq<Cursor>
    requires Stops(api, c, n)
    decreases n
  {
    match api(c)
    case Failure(_) => [c]
    case Success(page) =>
      if page.pageInfo.hasNextPage then [c] + Cursors(api, page.pageInfo.endCursor, n - 1) else [c]
  }

  /** `products.concat(...)` applied in front of a later result. */
  function Prepend(products: seq<RemoteProduct>, r: Result<seq<RemoteProduct>, FetchError>): Result<seq<RemoteProduct>, FetchError>
  {
    match r
    case Failure(e) => Failure(e)
    case Success(rest) => Success(products + rest)
  }

  /** Prepending nothing changes nothing; prepending twice is prepending the concatenation. */
  lemma PrependLaws(a: seq<RemoteProduct>, b: seq<RemoteProduct>, r: Result<seq<RemoteProduct>, FetchError>)
    ensures Prepend([], r) == r
    ensures Prepend(a, Prepend(b, r)) == Prepend(a + b, r)
  {
    if r.Success? {
      assert [] + r.value == r.value;
      assert a + (b + r.value) == (a + b) + r.value;
    }
  }

  /**
   * fetchAllProducts (productGetter.js:93-114). `n` is the number of
   * requests the API lets the loop make before it stops; the loop itself
   * never looks at it. `requested` records the cursor of every request sent.
   */
  method FetchAllProducts(api: Api, ghost n: nat) returns (r: Result<seq<RemoteProduct>, FetchError>, requested: seq<Cursor>)
    requires Stops(api, None, n)
    ensures r == FetchFrom(api, None, n)
    ensures requested == Cursors(api, None, n)
  {
    var products: seq<RemoteProduct> := [];
    var hasNextPage := true;
    var cursor: Cursor := None;
    requested := [];
    ghost var left := n;
    PrependLaws([], [], FetchFrom(api, None, n));
    while hasNextPage
      invariant hasNextPage ==> Stops(api, cursor, left)
      invariant hasNextPage ==> FetchFrom(api, None, n) == Prepend(products, FetchFrom(api, cursor, left))
      invariant hasNextPage ==> Cursors(api, None, n) == requested + Cursors(api, cursor, left)
      invariant !hasNextPage ==> FetchFrom(api, None, n) == Success(products)
      invariant !hasNextPage ==> Cursors(api, None, n) == requested
      decreases left
    {
      requested := requested + [cursor];
      var response := api(cursor);
      if response.Failure? {
        return Failure(response.error), requested;
      }
      var page := response.value;
      if page.pageInfo.hasNextPage {
        assert FetchFrom(api, cursor, left) == Prepend(page.edges, FetchFrom(api, page.pageInfo.endCursor, left - 1));
        assert Cursors(api, cursor, left) == [cursor] + Cursors(api, page.pageInfo.endCursor, left - 1);
        PrependLaws(products, page.edges, FetchFrom(api, page.pageInfo.endCursor, left - 1));
      }
      products := products + page.edges;
      hasNextPage := page.pageInfo.hasNextPage;
      cursor := page.pageInfo.endCursor;
      left := left - 1;
    }
    r := Success(products);
  }

  /**
   * The request count and the cursor chain: exactly `n` requests, the first
   * with cursor `c`, each later one with the `endCursor` of the page before,
   * every page but the last reporting a next page.
   */
  lemma {:induction false} CursorsChain(api: Api, c: Cursor, n: nat)
    requires Stops(api, c, n)
    ensures var cs := Cursors(api, c, n);
      && |cs| == n && cs[0] == c
      && (forall k :: 0 <= k < n - 1 ==>
            && api(cs[k]).Success?
            && api(cs[k]).value.pageInfo.hasNextPage
            && cs[k + 1] == api(cs[k]).value.pageInfo.endCursor)
      && (api(cs[n - 1]).Failure? || !api(cs[n - 1]).value.pageInfo.hasNextPage)
    decreases n
  {
    var page := api(c);
    if page.Success? && page.value.pageInfo.hasNextPage {
      var next := page.value.pageInfo.endCursor;
      CursorsChain(api, next, n - 1);
      var cs := Cursors(api, c, n);
      var rest := Cursors(api, next, n - 1);
      assert cs == [c] + rest;
      forall k | 1 <= k < n - 1
        ensures api(cs[k]).Success? && api(cs[k]).value.pageInfo.hasNextPage
        ensures cs[k + 1] == api(cs[k]).value.pageInfo.endCursor
      {
        assert cs[k] == rest[k - 1] && cs[k + 1] == rest[k];
      }
    }
  }

  /** The number of requests is determined by the API: the loop cannot stop after two different counts. */
  lemma {:induction false} StopsUnique(api: Api, c: Cursor, n: nat, m: nat)
    requires Stops(api, c, n) && Stops(api, c, m)
    ensures n == m
    decreases n
  {
    var page := api(c);
    if page.Success? && page.value.pageInfo.hasNextPage {
      StopsUnique(api, page.value.pageInfo.endCursor, n - 1, m - 1);
    }
  }

  /**
   * `pages` is what the API serves along the cursor chain from `c`: the
   * answer to `c` is the first page, the answer to each page's `endCursor`
   * is the next page, every page but the last reports a next page and the
   * last reports none.
   */
  predicate Serves(api: Api, c: Cursor, pages: seq<Page>)
    decreases |pages|
  {
    && |pages| > 0
    && api(c) == Success(pages[0])
    && if |pages| == 1 then !pages[0].pageInfo.hasNextPage
       else pages[0].pageInfo.hasNextPage && Serves(api, pages[0].pageInfo.endCursor, pages[1..])
  }

  /** All edges of `pages`, in page order. */
  function AllEdges(pages: seq<Page>): seq<RemoteProduct>
    decreases |pages|
  {
    if pages == [] then [] else pages[0].edges + AllEdges(pages[1..])
  }

  /**
   * Pagination order and count: when the API serves the pages `pages`, the
   * loop issues exactly `|pages|` requests and returns all their edges
   * concatenated in page order.
   */
  lemma {:induction false} ServedCatalog(api: Api, c: Cursor, pages: seq<Page>)
    requires Serves(api, c, pages)
    ensures Stops(api, c, |pages|)
    ensures FetchFrom(api, c, |pages|) == Success(AllEdges(pages))
    decreases |pages|
  {
    if |pages| > 1 {
      ServedCatalog(api, pages[0].pageInfo.endCursor, pages[1..]);
    } else {
      assert pages[1..] == [];
      assert AllEdges(pages) == pages[0].edges + [] == pages[0].edges;
      assert FetchFrom(api, c, 1) == Success(pages[0].edges);
    }
  }
}
