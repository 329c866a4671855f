/**
  The adaptive page loop that walks a paged item listing. It appears three times
  in the application (item search, CSV export and the tag aggregation fallback)
  with the same control: advance the offset by the length of the page received,
  shrink the request size to a short page's length while the server's
  `TotalRecordCount` says more items exist, and stop on an empty page or on a
  short page once the total is reached or unknown.

  The server is modelled as a finite catalog: a request `(start, limit)` returns
  the next `min(limit, cap)` items from `start`, where `cap` is the server's own
  page cap, and every reply carries the same reported total (which need not be
  the catalog's real size).
 */
module Scan {
  import opened Wrappers
  import Json

  datatype Catalog<T> = Catalog(items: seq<T>, cap: nat, total: Option<int>)

  /**
    The total a reply's `TotalRecordCount` gives the loop: the test
    `total_count is not None and isinstance(total_count, int)` admits integers
    and, since `bool` is a subclass of `int`, booleans as 1 and 0; any other
    value leaves the total unknown.
   */
  function ReportedTotal(v: Json.Json): (r: Option<int>)
    ensures v.JInt? ==> r == Some(v.i)
    ensures v.JBool? ==> r == Some(if v.b then 1 else 0)
    ensures r.Some? <==> v.JInt? || v.JBool?
  {
    match v
    case JInt(i) => Some(i)
    case JBool(b) => Some(if b then 1 else 0)
    case _ => None
  }

  /** One page request, as `page_items(..., start, limit)` issues it. */
  datatype Request = Request(start: nat, limit: nat)

  /** Everything one walk did: the requests in order and the items received, in order. */
  datatype Walk<T> = Walk(requests: seq<Request>, fetched: seq<T>)

  function Min(a: int, b: int): int {
    if a <= b then a else b
  }

  /** The server's reply to a request: a run of consecutive items starting at `start`. */
  function Page<T>(c: Catalog<T>, r: Request): (p: seq<T>)
    ensures |p| <= r.limit && |p| <= c.cap
    ensures r.start < |c.items| && 0 < r.limit && 0 < c.cap ==> p != []
    ensures r.start < |c.items| && r.limit <= c.cap ==> |p| == Min(r.limit, |c.items| - r.start)
    ensures p != [] ==> r.start + |p| <= |c.items| && p == c.items[r.start..r.start + |p|]
  {
    var lo := Min(r.start, |c.items|);
    c.items[lo..Min(lo + Min(r.limit, c.cap), |c.items|)]
  }

  /**
    The loop's decision after a non-empty page of `len` items answered `r`:
    the next request, or None when the loop breaks.
   */
  function Next<T>(c: Catalog<T>, r: Request, len: nat): (n: Option<Request>)
    requires len > 0
    ensures n.Some? ==> n.value.start == r.start + len && n.value.limit <= r.limit
    ensures n.Some? && len <= r.limit ==> 0 < n.value.limit
    ensures n.None? <==> len < r.limit && (c.total.None? || r.start + len >= c.total.value)
  {
    var next := r.start + len;
    if c.total.Some? && next < c.total.value then
      Some(Request(next, if 0 < len < r.limit then len else r.limit))
    else if len < r.limit then None
    else Some(Request(next, r.limit))
  }

  /** The walk that starts with request `r`. */
  function WalkFrom<T>(c: Catalog<T>, r: Request): (w: Walk<T>)
    ensures |w.requests| >= 1 && w.requests[0] == r
    decreases |c.items| - r.start
  {
    var p := Page(c, r);
    if p == [] then Walk([r], [])
    else
      match Next(c, r, |p|)
      case None => Walk([r], p)
      case Some(r') =>
        var rest := WalkFrom(c, r');
        Walk([r] + rest.requests, p + rest.fetched)
  }

  /** Re-associates the loop invariant across one page that leads to request `r'`. */
  lemma StepInto<T>(c: Catalog<T>, r: Request, before: Walk<T>, r': Request)
    requires Page(c, r) != [] && Next(c, r, |Page(c, r)|) == Some(r')
    ensures var w := WalkFrom(c, r); var w' := WalkFrom(c, r');
      Walk(before.requests + w.requests, before.fetched + w.fetched)
      == Walk((before.requests + [r]) + w'.requests, (before.fetched + Page(c, r)) + w'.fetched)
  {
    var w' := WalkFrom(c, r');
    assert WalkFrom(c, r) == Walk([r] + w'.requests, Page(c, r) + w'.fetched);
    assert before.requests + ([r] + w'.requests) == (before.requests + [r]) + w'.requests;
    assert before.fetched + (Page(c, r) + w'.fetched) == (before.fetched + Page(c, r)) + w'.fetched;
  }

  /**
    The loop itself: `current_start`/`current_limit` updated page by page, every
    request recorded, every received item appended.
   */
  method AdaptiveScan<T>(c: Catalog<T>, start: nat, limit: nat) returns (requests: seq<Request>, fetched: seq<T>)
    ensures Walk(requests, fetched) == WalkFrom(c, Request(start, limit))
  {
    requests, fetched := [], [];
    var currentStart: nat, currentLimit: nat := start, limit;
    while true
      invariant var w := WalkFrom(c, Request(currentStart, currentLimit));
        WalkFrom(c, Request(start, limit)) == Walk(requests + w.requests, fetched + w.fetched)
      decreases |c.items| - currentStart
    {
      var r := Request(currentStart, currentLimit);
      var items := Page(c, r);
      ghost var before := Walk(requests, fetched);
      requests := requests + [r];
      if items == [] {
        break;
      }
      fetched := fetched + items;
      var batchSize := |items|;
      currentStart := currentStart + batchSize;
      if c.total.Some? && currentStart < c.total.value {
        if 0 < batchSize < currentLimit {
          currentLimit := batchSize;
        }
        StepInto(c, r, before, Request(currentStart, currentLimit));
        continue;
      }
      if batchSize < currentLimit {
        break;
      }
      StepInto(c, r, before, Request(currentStart, currentLimit));
    }
  }

  function Last<X>(s: seq<X>): X
    requires s != []
  {
    s[|s| - 1]
  }

  /** A walk that goes on to `r'` ends with the walk from `r'`. */
  lemma LastStep<T>(c: Catalog<T>, r: Request, r': Request)
    requires Page(c, r) != [] && Next(c, r, |Page(c, r)|) == Some(r')
    ensures Last(WalkFrom(c, r).requests) == Last(WalkFrom(c, r').requests)
  {
    var rest := WalkFrom(c, r');
    assert WalkFrom(c, r).requests == [r] + rest.requests;
  }

  /**
    The last page ends exactly as many items after the first offset as the walk
    received (`total_processed` is the sum of page lengths).
   */
  lemma {:induction false} WalkLength<T>(c: Catalog<T>, r: Request)
    ensures var w := WalkFrom(c, r);
      Last(w.requests).start + |Page(c, Last(w.requests))| == r.start + |w.fetched|
    decreases |c.items| - r.start
  {
    var p := Page(c, r);
    if p != [] {
      match Next(c, r, |p|)
      case None =>
      case Some(r') =>
        WalkLength(c, r');
        LastStep(c, r, r');
    }
  }

  /** A run of `items` from `start` followed by a run from where it ends is one run. */
  lemma SliceStep<T>(items: seq<T>, start: nat, p: seq<T>, rest: seq<T>)
    requires start + |p| <= |items| && p == items[start..start + |p|]
    requires rest != [] ==> start + |p| + |rest| <= |items| && rest == items[start + |p|..start + |p| + |rest|]
    ensures start + |p + rest| <= |items| && p + rest == items[start..start + |p + rest|]
  {
    if rest != [] {
      assert items[start..start + |p + rest|] == items[start..start + |p|] + items[start + |p|..start + |p| + |rest|];
    }
  }

  /** The items received form one contiguous run of the catalog starting at the first offset. */
  lemma {:induction false} WalkIsSlice<T>(c: Catalog<T>, r: Request)
    ensures var w := WalkFrom(c, r);
      w.fetched != [] ==> r.start + |w.fetched| <= |c.items| && w.fetched == c.items[r.start..r.start + |w.fetched|]
    decreases |c.items| - r.start
  {
    var p := Page(c, r);
    if p != [] {
      match Next(c, r, |p|)
      case None =>
      case Some(r') =>
        WalkIsSlice(c, r');
        var rest := WalkFrom(c, r').fetched;
        assert WalkFrom(c, r).fetched == p + rest;
        SliceStep(c.items, r.start, p, rest);
    }
  }

  /**
    Request `q'` follows request `q`: `q` received a non-empty page, `q'` starts
    where that page ended, and keeps `q`'s size except after a short page while
    the reported total says more items exist, when the size becomes that page's
    length.
   */
  ghost predicate Follows<T>(c: Catalog<T>, q: Request, q': Request) {
    var len := |Page(c, q)|;
    0 < len
    && q'.start == q.start + len
    && q'.limit == (if c.total.Some? && q.start + len < c.total.value && len < q.limit then len else q.limit)
  }

  ghost predicate Chained<T>(c: Catalog<T>, rs: seq<Request>) {
    forall k :: 0 <= k < |rs| - 1 ==> Follows(c, rs[k], rs[k + 1])
  }

  /** Every request after the first follows its predecessor. */
  lemma {:induction false} WalkChain<T>(c: Catalog<T>, r: Request)
    ensures Chained(c, WalkFrom(c, r).requests)
    decreases |c.items| - r.start
  {
    var p := Page(c, r);
    if p != [] {
      match Next(c, r, |p|)
      case None =>
      case Some(r') =>
        WalkChain(c, r');
        var w := WalkFrom(c, r);
        var rest := WalkFrom(c, r');
        assert w.requests == [r] + rest.requests;
        forall k | 0 <= k < |w.requests| - 1
          ensures Follows(c, w.requests[k], w.requests[k + 1])
        {
          if k == 0 {
            assert w.requests[0] == r && w.requests[1] == r';
          } else {
            var j := k - 1;
            assert w.requests[k] == rest.requests[j] && w.requests[k + 1] == rest.requests[j + 1];
            assert Follows(c, rest.requests[j], rest.requests[j + 1]);
          }
        }
    }
  }

  /**
    Why the walk stopped: its last page was empty, or it was short while the
    reported total was unknown or already reached.
   */
  lemma {:induction false} WalkStops<T>(c: Catalog<T>, r: Request)
    ensures var q := Last(WalkFrom(c, r).requests); var len := |Page(c, q)|;
      len == 0 || (len < q.limit && (c.total.None? || q.start + len >= c.total.value))
    decreases |c.items| - r.start
  {
    var p := Page(c, r);
    if p != [] {
      match Next(c, r, |p|)
      case None =>
      case Some(r') =>
        WalkStops(c, r');
        LastStep(c, r, r');
    }
  }

  /**
    Nothing is skipped when the server either reports the true total or does not
    cap pages below the requested size: the walk receives every item from the
    first offset on.
   */
  lemma {:induction false} WalkComplete<T>(c: Catalog<T>, r: Request)
    requires r.start <= |c.items| && 0 < r.limit && 0 < c.cap
    requires c.total == Some(|c.items|) || r.limit <= c.cap
    ensures WalkFrom(c, r).fetched == c.items[r.start..]
    decreases |c.items| - r.start
  {
    var p := Page(c, r);
    if p != [] {
      match Next(c, r, |p|)
      case None =>
      case Some(r') =>
        WalkComplete(c, r');
        assert c.items[r.start..] == p + c.items[r'.start..];
    }
  }

  /**
    A server that caps pages at 50 while reporting 120 items, walked with size
    100: the requests are (0,100), (50,50), (100,50) and all 120 items arrive.
   */
  lemma ServerCapExample(items: seq<int>)
    requires |items| == 120
    ensures var w := WalkFrom(Catalog(items, 50, Some(120)), Request(0, 100));
      w.requests == [Request(0, 100), Request(50, 50), Request(100, 50)] && w.fetched == items
  {
    var c := Catalog(items, 50, Some(120));
    assert |Page(c, Request(120, 50))| == 0;
    assert |Page(c, Request(100, 50))| == 20;
    assert WalkFrom(c, Request(100, 50)).requests == [Request(100, 50)];
    assert |Page(c, Request(50, 50))| == 50;
    assert WalkFrom(c, Request(50, 50)).requests == [Request(50, 50), Request(100, 50)];
    assert |Page(c, Request(0, 100))| == 50;
    WalkComplete(c, Request(0, 100));
  }

  /**
    A server that under-reports its total (425 for 550 items) with pages of up
    to 500, walked with size 500: a full first page keeps the walk going past
    the reported total, and the short second page ends it.
   */
  lemma UnderreportedTotalExample(items: seq<int>)
    requires |items| == 550
    ensures var w := WalkFrom(Catalog(items, 500, Some(425)), Request(0, 500));
      w.requests == [Request(0, 500), Request(500, 500)] && w.fetched == items
  {
    var c := Catalog(items, 500, Some(425));
    assert |Page(c, Request(500, 500))| == 50;
    assert WalkFrom(c, Request(500, 500)).requests == [Request(500, 500)];
    assert |Page(c, Request(0, 500))| == 500;
    WalkComplete(c, Request(0, 500));
  }
}
