/**
  `paginate`: the cursor-pagination loop over the primary data API. The page
  responses (what `_request` returns for each request, in order) are a
  scripted sequence; the loop's own requests are recorded so that what it
  sends can be stated.
 */
module Pagination {
  import opened Wrappers

  /** A query parameter value. */
  datatype Param = PInt(n: int) | PText(s: string)

  type Params = map<string, Param>

  const PageLimit: int := 200
  const DefaultOrder: string := "id(asc)"

  /** A row of a page's `data` list: a JSON object, or anything else. */
  datatype Item<T> = Record(rec: T) | NonRecord

  /** A page's `data`: a list (an empty one when the key is missing), or some
      other value, which `len()` accepts iff `sized` (a string or an object). */
  datatype PageData<T> = Rows(items: seq<Item<T>>) | NotAList(sized: bool)

  /** What one request of the loop comes to: a response with its status, its
      `data` and `meta.paging.next` ("" when it is missing or falsy), or an
      exception raised by `_request` (the first `_ensure_auth_header`, or the
      token refresh after a 401, failing) or by `resp.json()` reading a 200
      body. */
  datatype Page<T> = Page(status: int, data: PageData<T>, next: string) | Raised

  /** One request of the loop: the URL, and the query parameters (`None` when
      the loop sends none). */
  datatype PageRequest = PageRequest(url: string, params: Option<Params>)

  /** `len(rows) < params["limit"]` raises `TypeError`, or a request raised;
      either way the exception leaves `paginate` and the rows gathered so far
      are lost. */
  datatype PageError = TypeError | RequestRaised

  /** The rows returned (or the error raised) and the requests sent. */
  datatype Listing<T> = Listing(result: Result<seq<T>, PageError>, requests: seq<PageRequest>)

  /** `params = dict(params or {})` with `limit` defaulting to 200 and `order`
      to "id(asc)": the caller's entries are all kept, and only those two keys
      are added. */
  function WithDefaults(params: Option<Params>): (p: Params)
    ensures "limit" in p && "order" in p
    ensures params.Some? ==> forall k :: k in params.value ==> k in p && p[k] == params.value[k]
    ensures forall k :: k in p && k != "limit" && k != "order" ==> params.Some? && k in params.value
    ensures (params.None? || "limit" !in params.value) ==> p["limit"] == PInt(PageLimit)
    ensures (params.None? || "order" !in params.value) ==> p["order"] == PText(DefaultOrder)
  {
    var given := if params.Some? then params.value else map[];
    var withLimit := if "limit" in given then given else given["limit" := PInt(PageLimit)];
    if "order" in withLimit then withLimit else withLimit["order" := PText(DefaultOrder)]
  }

  /** `[r for r in rows if isinstance(r, dict)]`. */
  function Records<T>(items: seq<Item<T>>): (r: seq<T>)
    ensures |r| <= |items|
    decreases |items|
  {
    if |items| == 0 then []
    else
      match items[0]
      case Record(x) => [x] + Records(items[1..])
      case NonRecord => Records(items[1..])
  }

  /** A row is kept iff it is an object of the list: nothing else gets in and
      no object is lost. */
  lemma {:induction false} RecordsKeep<T>(items: seq<Item<T>>, x: T)
    ensures x in Records(items) <==> Record(x) in items
    decreases |items|
  {
    if |items| > 0 {
      RecordsKeep(items[1..], x);
      assert Record(x) in items <==> items[0] == Record(x) || Record(x) in items[1..];
    }
  }

  /** The kept rows are in list order: each is followed by the rows kept from
      the list after it. */
  lemma RecordsAppend<T>(a: seq<Item<T>>, b: seq<Item<T>>)
    ensures Records(a + b) == Records(a) + Records(b)
    decreases |a|
  {
    if |a| > 0 {
      assert (a + b)[1..] == a[1..] + b;
      RecordsAppend(a[1..], b);
    } else {
      assert a + b == b;
    }
  }

  /** The rows a 200 page adds: its records, or none when `data` is not a list. */
  function PageRows<T>(pg: Page<T>): seq<T> {
    if pg.Page? && pg.data.Rows? then Records(pg.data.items) else []
  }

  /** The `next` link of a response, "" for a request that raised. */
  function NextLink<T>(pg: Page<T>): string {
    if pg.Page? then pg.next else ""
  }

  /** The loop ends at this page: a raise, a non-200 status, or no `next`
      link. */
  predicate Stops<T>(pg: Page<T>) {
    pg.Raised? || pg.status != 200 || pg.next == ""
  }

  /** The script ends the loop at or after page `i`. */
  predicate StopsFrom<T>(pages: seq<Page<T>>, i: nat) {
    exists j :: i <= j < |pages| && Stops(pages[j])
  }

  /** `len(rows) < limit` can be evaluated: `rows` has a length and `limit` is
      a number. */
  predicate Comparable<T>(data: PageData<T>, limit: Param) {
    (data.Rows? || data.sized) && limit.PInt?
  }

  /** The index of the first page from `i` on that ends the loop. */
  function FirstStop<T>(pages: seq<Page<T>>, i: nat): (k: nat)
    requires StopsFrom(pages, i)
    ensures i <= k < |pages| && Stops(pages[k])
    ensures forall j :: i <= j < k ==> !Stops(pages[j])
    decreases |pages| - i
  {
    if Stops(pages[i]) then i
    else
      assert StopsFrom(pages, i + 1) by {
        var j :| i <= j < |pages| && Stops(pages[j]);
        assert j != i;
      }
      FirstStop(pages, i + 1)
  }

  /** The loop from page `i`, with `url` and `sent` the next request and `acc`
      the rows so far. */
  function Loop<T>(limit: Param, url: string, sent: Option<Params>, pages: seq<Page<T>>, i: nat, acc: seq<T>): (l: Listing<T>)
    requires StopsFrom(pages, i)
    ensures |l.requests| > 0 && l.requests[0] == PageRequest(url, sent)
    ensures l.result.Ok? ==> acc <= l.result.value
    decreases |pages| - i
  {
    var req := PageRequest(url, sent);
    var pg := pages[i];
    if pg.Raised? then Listing(Err(RequestRaised), [req])
    else if pg.status != 200 then Listing(Ok(acc), [req])
    else if pg.next != "" then
      assert StopsFrom(pages, i + 1) by {
        var j :| i <= j < |pages| && Stops(pages[j]);
        assert j != i;
      }
      var l := Loop(limit, pg.next, None, pages, i + 1, acc + PageRows(pg));
      l.(requests := [req] + l.requests)
    else if Comparable(pg.data, limit) then Listing(Ok(acc + PageRows(pg)), [req])
    else Listing(Err(TypeError), [req])
  }

  /** `paginate(url, params)` over the scripted pages. The script must end the
      loop: the source loops for ever on a server that always links a next page. */
  function Paginate<T>(url: string, params: Option<Params>, pages: seq<Page<T>>): (l: Listing<T>)
    requires StopsFrom(pages, 0)
    ensures |l.requests| > 0 && l.requests[0] == PageRequest(url, Some(WithDefaults(params)))
  {
    var p := WithDefaults(params);
    Loop(p["limit"], url, Some(p), pages, 0, [])
  }

  /** The rows of pages `i` up to (not including) `k`, in page order. */
  function RowsBetween<T>(pages: seq<Page<T>>, i: nat, k: nat): seq<T>
    requires i <= k <= |pages|
    decreases k - i
  {
    if i == k then [] else PageRows(pages[i]) + RowsBetween(pages, i + 1, k)
  }

  /** The requests of the loop from page `i`: with `k` the first page that
      ends it, k - i + 1 of them, each after the first to the previous page's
      `next` link and with no params. */
  lemma {:induction false} LoopRequests<T>(limit: Param, url: string, sent: Option<Params>, pages: seq<Page<T>>,
                                           i: nat, acc: seq<T>)
    requires StopsFrom(pages, i)
    ensures var l := Loop(limit, url, sent, pages, i, acc);
      var k := FirstStop(pages, i);
      && |l.requests| == k - i + 1
      && l.requests[0] == PageRequest(url, sent)
      && (forall m :: 0 < m <= k - i ==> l.requests[m] == PageRequest(NextLink(pages[i + m - 1]), None))
    decreases |pages| - i
  {
    var pg := pages[i];
    if !Stops(pg) {
      var k := FirstStop(pages, i);
      assert StopsFrom(pages, i + 1) by {
        assert i < k;
      }
      var acc' := acc + PageRows(pg);
      LoopRequests(limit, pg.next, None, pages, i + 1, acc');
      assert FirstStop(pages, i + 1) == k;
      var l' := Loop(limit, pg.next, None, pages, i + 1, acc');
      var l := Loop(limit, url, sent, pages, i, acc);
      assert l.requests == [PageRequest(url, sent)] + l'.requests;
      forall m | 0 < m <= k - i
        ensures l.requests[m] == PageRequest(NextLink(pages[i + m - 1]), None)
      {
        if m > 1 {
          assert l.requests[m] == l'.requests[m - 1];
        }
      }
    }
  }

  /** The outcome the loop from page `i` should have, with `k` the page that
      ends it: a raise at `k` is an error; a non-200 at `k` returns the rows
      of the pages before it; otherwise page `k`'s rows are added too, or the
      length test raises. */
  function Outcome<T>(limit: Param, pages: seq<Page<T>>, i: nat, k: nat, acc: seq<T>): Result<seq<T>, PageError>
    requires i <= k < |pages|
  {
    if pages[k].Raised? then Err(RequestRaised)
    else if pages[k].status != 200 then Ok(acc + RowsBetween(pages, i, k))
    else if Comparable(pages[k].data, limit) then Ok(acc + RowsBetween(pages, i, k + 1))
    else Err(TypeError)
  }

  /** The loop's result is that outcome for the first page that ends it. */
  lemma {:induction false} LoopResult<T>(limit: Param, url: string, sent: Option<Params>, pages: seq<Page<T>>,
                                         i: nat, acc: seq<T>)
    requires StopsFrom(pages, i)
    ensures Loop(limit, url, sent, pages, i, acc).result == Outcome(limit, pages, i, FirstStop(pages, i), acc)
    decreases |pages| - i
  {
    var pg := pages[i];
    if Stops(pg) {
      LoopStops(limit, url, sent, pages, i, acc);
    } else {
      LoopContinues(limit, url, sent, pages, i, acc);
      var k := FirstStop(pages, i);
      var acc' := acc + PageRows(pg);
      LoopResult(limit, pg.next, None, pages, i + 1, acc');
      OutcomeStep(limit, pages, i, k, acc);
    }
  }

  /** Moving page `i`'s rows into the accumulator leaves the outcome alone. */
  lemma OutcomeStep<T>(limit: Param, pages: seq<Page<T>>, i: nat, k: nat, acc: seq<T>)
    requires i < k < |pages|
    ensures Outcome(limit, pages, i + 1, k, acc + PageRows(pages[i])) == Outcome(limit, pages, i, k, acc)
  {
    if pages[k].Raised? {
    } else if pages[k].status != 200 {
      RowsStep(pages, i, k, acc);
    } else if Comparable(pages[k].data, limit) {
      RowsStep(pages, i, k + 1, acc);
    }
  }

  /** A page that ends the loop decides its outcome on its own. */
  lemma LoopStops<T>(limit: Param, url: string, sent: Option<Params>, pages: seq<Page<T>>, i: nat, acc: seq<T>)
    requires i < |pages| && Stops(pages[i])
    ensures StopsFrom(pages, i) && FirstStop(pages, i) == i
    ensures Loop(limit, url, sent, pages, i, acc).result == Outcome(limit, pages, i, i, acc)
  {
    assert StopsFrom(pages, i);
    assert acc + RowsBetween(pages, i, i) == acc;
    assert acc + RowsBetween(pages, i, i + 1) == acc + PageRows(pages[i]) by {
      assert RowsBetween(pages, i, i + 1) == PageRows(pages[i]) + RowsBetween(pages, i + 1, i + 1);
    }
  }

  /** A page that does not end the loop hands on to the next one, with its
      rows carried along. */
  lemma LoopContinues<T>(limit: Param, url: string, sent: Option<Params>, pages: seq<Page<T>>, i: nat, acc: seq<T>)
    requires StopsFrom(pages, i) && !Stops(pages[i])
    ensures StopsFrom(pages, i + 1) && FirstStop(pages, i + 1) == FirstStop(pages, i)
    ensures Loop(limit, url, sent, pages, i, acc).result
         == Loop(limit, NextLink(pages[i]), None, pages, i + 1, acc + PageRows(pages[i])).result
  {
    assert StopsFrom(pages, i + 1) by {
      assert i < FirstStop(pages, i);
    }
  }

  /** Carrying page `i`'s rows in the accumulator is the same as counting
      them among the rows from `i`. */
  lemma RowsStep<T>(pages: seq<Page<T>>, i: nat, k: nat, acc: seq<T>)
    requires i < k <= |pages|
    ensures acc + PageRows(pages[i]) + RowsBetween(pages, i + 1, k) == acc + RowsBetween(pages, i, k)
  {
    assert RowsBetween(pages, i, k) == PageRows(pages[i]) + RowsBetween(pages, i + 1, k);
  }

  /** What `paginate` does: with `k` the first page that ends the loop, it
      sends k + 1 requests, the first to `url` with the defaulted params and
      each later one to the previous page's `next` link with none. A request
      that raises ends it with the error and none of the rows; a non-200 page
      ends it with the rows of the pages before; a 200 page without a `next`
      link ends it with its rows added, unless the length test raises. */
  lemma PaginateOutcome<T>(url: string, params: Option<Params>, pages: seq<Page<T>>)
    requires StopsFrom(pages, 0)
    ensures var l := Paginate(url, params, pages);
      var k := FirstStop(pages, 0);
      && |l.requests| == k + 1
      && l.requests[0] == PageRequest(url, Some(WithDefaults(params)))
      && (forall m :: 0 < m <= k ==> l.requests[m] == PageRequest(NextLink(pages[m - 1]), None))
      && (pages[k].Raised? ==> l.result == Err(RequestRaised))
      && (pages[k].Page? && pages[k].status != 200 ==> l.result == Ok(RowsBetween(pages, 0, k)))
      && (pages[k].Page? && pages[k].status == 200 ==>
            l.result == if Comparable(pages[k].data, WithDefaults(params)["limit"])
                        then Ok(RowsBetween(pages, 0, k + 1)) else Err(TypeError))
  {
    var p := WithDefaults(params);
    var k := FirstStop(pages, 0);
    LoopRequests(p["limit"], url, Some(p), pages, 0, []);
    LoopResult(p["limit"], url, Some(p), pages, 0, []);
    assert Outcome(p["limit"], pages, 0, k, []) == Loop(p["limit"], url, Some(p), pages, 0, []).result;
    assert [] + RowsBetween(pages, 0, k) == RowsBetween(pages, 0, k);
    assert [] + RowsBetween(pages, 0, k + 1) == RowsBetween(pages, 0, k + 1);
  }

  /** A row is returned only if some page before the end listed it as an
      object: non-object rows never appear. */
  lemma {:induction false} RowsBetweenFrom<T>(pages: seq<Page<T>>, i: nat, k: nat, x: T)
    requires i <= k <= |pages|
    requires x in RowsBetween(pages, i, k)
    ensures exists j :: i <= j < k && pages[j].Page? && pages[j].data.Rows? && Record(x) in pages[j].data.items
    decreases k - i
  {
    if x in PageRows(pages[i]) {
      RecordsKeep(pages[i].data.items, x);
    } else {
      RowsBetweenFrom(pages, i + 1, k, x);
    }
  }
}
