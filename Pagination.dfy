/** `fetchPaginatedData`: request pages 1, 2, 3, ... of one search query, 100
    items per page, append each page's items, and stop after the first page that
    does not hold exactly 100 items; a non-OK status on any page aborts the whole
    fetch with that status. The HTTP endpoint is an oracle from page number to
    reply. */
module Pagination {
  import opened Wrappers

  /** The `per_page` value of every request, and the length of a full page. */
  const PageSize: nat := 100

  /** The answer to one page request: a non-OK HTTP status, or the page's items. */
  datatype PageReply<T> = Failed(status: int) | Page(items: seq<T>)

  /** One search query's endpoint: the reply to the request for each page number. */
  type Server<T> = nat -> PageReply<T>

  /** A reply after which no further page is requested. */
  predicate EndsFetch<T>(reply: PageReply<T>) {
    reply.Failed? || |reply.items| != PageSize
  }

  /** Some page in `from..bound` ends the fetch, so a fetch from `from` stops. */
  ghost predicate StopsWithin<T>(server: Server<T>, from: nat, bound: nat) {
    exists k :: from <= k <= bound && EndsFetch(server(k))
  }

  /** The first page, from `from` on, whose reply ends the fetch. */
  ghost function FirstStop<T>(server: Server<T>, from: nat, bound: nat): (k: nat)
    requires StopsWithin(server, from, bound)
    ensures from <= k <= bound && EndsFetch(server(k))
    ensures forall j :: from <= j < k ==> !EndsFetch(server(j))
    decreases bound - from
  {
    if EndsFetch(server(from)) then from
    else
      assert StopsWithin(server, from + 1, bound);
      FirstStop(server, from + 1, bound)
  }

  /** A fetch that has already passed full pages stops at the same page. */
  lemma {:induction false} FirstStopFromLater<T>(server: Server<T>, from: nat, page: nat, bound: nat)
    requires StopsWithin(server, from, bound)
    requires from <= page <= FirstStop(server, from, bound)
    ensures StopsWithin(server, page, bound)
    ensures FirstStop(server, page, bound) == FirstStop(server, from, bound)
    decreases page - from
  {
    if page > from {
      assert StopsWithin(server, from + 1, bound);
      FirstStopFromLater(server, from + 1, page, bound);
    }
  }

  /** A result with `prefix` in front of its items; an error stays the same error. */
  function Prepend<T>(prefix: seq<T>, r: Result<seq<T>, int>): Result<seq<T>, int> {
    match r
    case Ok(items) => Ok(prefix + items)
    case Err(status) => Err(status)
  }

  lemma PrependNothing<T>(r: Result<seq<T>, int>)
    ensures Prepend([], r) == r
  {
    if r.Ok? {
      assert [] + r.value == r.value;
    }
  }

  lemma PrependTwice<T>(a: seq<T>, b: seq<T>, r: Result<seq<T>, int>)
    ensures Prepend(a, Prepend(b, r)) == Prepend(a + b, r)
  {
    if r.Ok? {
      assert a + (b + r.value) == (a + b) + r.value;
    }
  }

  /** Reference definition, page by page: a failed page gives its status, a page
      that is not full gives its items, and a full page gives its items followed
      by what the rest of the fetch gives. */
  ghost function FetchFrom<T>(server: Server<T>, from: nat, bound: nat): Result<seq<T>, int>
    requires StopsWithin(server, from, bound)
    decreases bound - from
  {
    match server(from)
    case Failed(status) => Err(status)
    case Page(items) =>
      if |items| != PageSize then Ok(items)
      else
        assert StopsWithin(server, from + 1, bound);
        Prepend(items, FetchFrom(server, from + 1, bound))
  }

  /** The items of a reply; a failed reply has none. */
  function ItemsOf<T>(reply: PageReply<T>): seq<T> {
    if reply.Page? then reply.items else []
  }

  /** The items of pages `from` to `to - 1`, concatenated in page order. */
  ghost function Pages<T>(server: Server<T>, from: nat, to: nat): seq<T>
    decreases if to <= from then 0 else to - from
  {
    if to <= from then [] else ItemsOf(server(from)) + Pages(server, from + 1, to)
  }

  /** Full pages hold `PageSize` items each. */
  lemma {:induction false} FullPagesLength<T>(server: Server<T>, from: nat, to: nat)
    requires from <= to
    requires forall j :: from <= j < to ==> server(j).Page? && |server(j).items| == PageSize
    ensures |Pages(server, from, to)| == PageSize * (to - from)
    decreases (to as int) - (from as int)
  {
    if from < to {
      FullPagesLength(server, from + 1, to);
    }
  }

  /** What a fetch returns, in closed form: with `k` the first page that ends
      it, the status of page `k` if that page failed, and otherwise the in-order
      concatenation of pages `from` to `k`. No partial data accompanies an error. */
  lemma {:induction false} FetchFromIsConcatenation<T>(server: Server<T>, from: nat, bound: nat)
    requires StopsWithin(server, from, bound)
    ensures var k := FirstStop(server, from, bound);
      FetchFrom(server, from, bound) ==
        match server(k)
        case Failed(status) => Err(status)
        case Page(items) => Ok(Pages(server, from, k) + items)
    decreases bound - from
  {
    if !EndsFetch(server(from)) {
      assert StopsWithin(server, from + 1, bound);
      FetchFromIsConcatenation(server, from + 1, bound);
      var k := FirstStop(server, from, bound);
      assert FirstStop(server, from + 1, bound) == k;
      assert Pages(server, from, k) == server(from).items + Pages(server, from + 1, k);
      match server(k)
      case Failed(_) =>
      case Page(items) =>
        assert server(from).items + (Pages(server, from + 1, k) + items)
            == (server(from).items + Pages(server, from + 1, k)) + items;
    } else {
      assert Pages(server, from, from) == [];
      match server(from)
      case Failed(_) =>
      case Page(items) =>
        assert [] + items == items;
    }
  }

  /** No results: the first page is empty, so exactly one page is requested and
      the fetch returns nothing. */
  lemma NoResults<T>(server: Server<T>, bound: nat)
    requires 1 <= bound && server(1) == Page([])
    ensures StopsWithin(server, 1, bound)
    ensures FirstStop(server, 1, bound) == 1
    ensures FetchFrom(server, 1, bound) == Ok([])
  {
    assert EndsFetch(server(1));
  }

  /** A result count that is an exact multiple of the page size: after `n` full
      pages the fetch requests page `n + 1`, which is empty, and returns the
      `PageSize * n` items of the full pages. */
  lemma ExactMultipleOfPageSize<T>(server: Server<T>, n: nat, bound: nat)
    requires n + 1 <= bound
    requires forall j :: 1 <= j <= n ==> server(j).Page? && |server(j).items| == PageSize
    requires server(n + 1) == Page([])
    ensures StopsWithin(server, 1, bound)
    ensures FirstStop(server, 1, bound) == n + 1
    ensures FetchFrom(server, 1, bound) == Ok(Pages(server, 1, n + 1))
    ensures |Pages(server, 1, n + 1)| == PageSize * n
  {
    assert EndsFetch(server(n + 1));
    assert StopsWithin(server, 1, bound);
    var k := FirstStop(server, 1, bound);
    assert k == n + 1;
    FetchFromIsConcatenation(server, 1, bound);
    assert Pages(server, 1, k) + [] == Pages(server, 1, k);
    FullPagesLength(server, 1, n + 1);
  }

  /** A failed page after full pages aborts the fetch with that page's status,
      after requesting exactly the pages up to and including it. */
  lemma FailedPageAborts<T>(server: Server<T>, j: nat, status: int, bound: nat)
    requires 1 <= j <= bound
    requires forall i :: 1 <= i < j ==> server(i).Page? && |server(i).items| == PageSize
    requires server(j) == Failed(status)
    ensures StopsWithin(server, 1, bound)
    ensures FirstStop(server, 1, bound) == j
    ensures FetchFrom(server, 1, bound) == Err(status)
  {
    assert EndsFetch(server(j));
    assert StopsWithin(server, 1, bound);
    var k := FirstStop(server, 1, bound);
    assert k == j;
    FetchFromIsConcatenation(server, 1, bound);
  }

  /** `fetchPaginatedData`: the `while (hasNextPage)` loop. Besides the result
      it returns the page numbers it requested, in request order. */
  method FetchPaginatedData<T>(server: Server<T>, ghost bound: nat)
    returns (r: Result<seq<T>, int>, requested: seq<nat>)
    requires StopsWithin(server, 1, bound)
    ensures r == FetchFrom(server, 1, bound)
    ensures |requested| == FirstStop(server, 1, bound)
    ensures forall i :: 0 <= i < |requested| ==> requested[i] == i + 1
  {
    ghost var last := FirstStop(server, 1, bound);
    var data: seq<T> := [];
    var page: nat := 1;
    var hasNextPage := true;
    requested := [];
    PrependNothing(FetchFrom(server, 1, bound));
    while hasNextPage
      invariant 1 <= page <= last + 1
      invariant hasNextPage <==> page <= last
      invariant |requested| == page - 1
      invariant forall i :: 0 <= i < |requested| ==> requested[i] == i + 1
      invariant hasNextPage ==> StopsWithin(server, page, bound)
      invariant hasNextPage ==> FetchFrom(server, 1, bound) == Prepend(data, FetchFrom(server, page, bound))
      invariant !hasNextPage ==> FetchFrom(server, 1, bound) == Ok(data)
      decreases last + 1 - page
    {
      FirstStopFromLater(server, 1, page, bound);
      var reply := server(page);
      requested := requested + [page];
      if reply.Failed? {
        r := Err(reply.status);
        return;
      }
      if page < last {
        assert !EndsFetch(server(page));
        assert StopsWithin(server, page + 1, bound);
        FirstStopFromLater(server, 1, page + 1, bound);
        PrependTwice(data, reply.items, FetchFrom(server, page + 1, bound));
      }
      data := data + reply.items;
      hasNextPage := |reply.items| == PageSize;
      page := page + 1;
    }
    r := Ok(data);
  }
}
