/** The paging arithmetic of the upload list page of the web front end:
    clamping the query parameters, the number of pages, the window of at most
    five page links around the current page, and the First/Prev/Next/Last
    controls with their ellipses. */
module Pagination {
  import opened Wrappers
  import Upload

  const WindowSize := 5
  const DefaultLimit := 20

  /** What `Number(...)` makes of a query parameter: absent, so that the
      default applies; a whole number (an empty value is 0); or NaN, as for
      `?page=abc` or a repeated parameter, which arrives as an array. */
  datatype QueryNumber = Absent | Whole(value: int) | NotANumber

  /** `Math.max(1, Number(searchParams?.page ?? 1))`; `None` stands for
      NaN, which `Math.max` passes through. */
  function PageParam(raw: QueryNumber): (page: Option<int>)
    ensures page.None? <==> raw.NotANumber?
    ensures page.Some? ==> page.value >= 1
    ensures raw.Absent? ==> page == Some(1)
    ensures raw.Whole? ==> page == Some(if raw.value >= 1 then raw.value else 1)
  {
    match raw
    case Absent => Some(1)
    case Whole(v) => Some(if v < 1 then 1 else v)
    case NotANumber => None
  }

  /** `Math.max(1, Number(searchParams?.limit ?? 20))`: note there is no
      upper cap; `None` stands for NaN. */
  function LimitParam(raw: QueryNumber): (limit: Option<int>)
    ensures limit.None? <==> raw.NotANumber?
    ensures limit.Some? ==> limit.value >= 1
    ensures raw.Absent? ==> limit == Some(DefaultLimit)
    ensures raw.Whole? ==> limit == Some(if raw.value >= 1 then raw.value else 1)
  {
    match raw
    case Absent => Some(DefaultLimit)
    case Whole(v) => Some(if v < 1 then 1 else v)
    case NotANumber => None
  }

  /** `Math.max(1, Math.ceil(total / limit))`: enough pages for every item,
      and no empty page after the first. */
  function TotalPages(total: nat, limit: int): (pages: int)
    requires limit >= 1
    ensures pages >= 1
    ensures total <= pages * limit
    ensures pages == 1 || (pages - 1) * limit < total
  {
    var q := total / limit;
    var ceil := if q * limit == total then q else q + 1;
    if ceil < 1 then 1 else ceil
  }

  datatype Controls = Controls(
    totalPages: int,
    start: int,
    end: int,
    window: seq<int>,
    prevTarget: int,
    nextTarget: int,
    firstDisabled: bool,
    prevDisabled: bool,
    nextDisabled: bool,
    lastDisabled: bool,
    leadingEllipsis: bool,
    trailingEllipsis: bool)

  /** The page links `Array.from({ length: end - start + 1 }, (_, i) => start + i)`;
      a negative length gives no links. */
  function Window(start: int, end: int): (w: seq<int>)
    ensures |w| == if end >= start then end - start + 1 else 0
    ensures forall k :: 0 <= k < |w| ==> w[k] == start + k
  {
    if end >= start then seq(end - start + 1, i => start + i) else []
  }

  /** The pagination controls for the current `page` and `limit`. */
  function Paginate(page: int, limit: int, total: nat): (c: Controls)
    requires page >= 1 && limit >= 1
    ensures c.totalPages >= 1
    ensures page <= c.totalPages ==> 1 <= c.prevTarget <= c.totalPages && 1 <= c.nextTarget <= c.totalPages
    ensures c.firstDisabled <==> page == 1
    ensures c.prevDisabled <==> page == 1
    ensures c.nextDisabled <==> page == c.totalPages
    ensures c.lastDisabled <==> page == c.totalPages
    ensures c.prevTarget == if page == 1 then 1 else page - 1
    ensures c.nextTarget == if page < c.totalPages then page + 1 else c.totalPages
  {
    var totalPages := TotalPages(total, limit);
    var start := if page - WindowSize / 2 < 1 then 1 else page - WindowSize / 2;
    var end := if totalPages < start + WindowSize - 1 then totalPages else start + WindowSize - 1;
    Controls(
      totalPages, start, end, Window(start, end),
      if page - 1 < 1 then 1 else page - 1,
      if totalPages < page + 1 then totalPages else page + 1,
      page == 1, page == 1, page == totalPages, page == totalPages,
      start > 1, end < totalPages)
  }

  /** The page links: at most five consecutive pages within range, starting
      two before the current page when there is room, holding the current
      page, with an ellipsis on each side exactly when pages lie beyond. */
  lemma WindowAroundPage(page: int, limit: int, total: nat)
    requires page >= 1 && limit >= 1
    ensures var c := Paginate(page, limit, total);
      |c.window| <= WindowSize
      && (forall k :: 0 <= k < |c.window| ==> 1 <= c.window[k] <= c.totalPages)
      && (forall k :: 0 <= k < |c.window| - 1 ==> c.window[k + 1] == c.window[k] + 1)
    ensures var c := Paginate(page, limit, total);
      page <= c.totalPages ==>
        page in c.window
        && c.window[0] == (if page <= 3 then 1 else page - 2)
        && |c.window| == (if c.totalPages - c.window[0] + 1 < WindowSize then c.totalPages - c.window[0] + 1 else WindowSize)
        && (c.leadingEllipsis <==> c.window[0] > 1)
        && (c.trailingEllipsis <==> c.window[|c.window| - 1] < c.totalPages)
  {
    var c := Paginate(page, limit, total);
    if page <= c.totalPages {
      assert c.window[page - c.start] == page;
    }
  }

  /** The backend serves at most `Upload.MaxPageSize` uploads per page, but
      this page counts pages with its own, uncapped limit: with `limit=500`
      and 1000 uploads it offers two pages, and the backend's two pages hold
      uploads 0 to 199, so upload 200 is on no page. */
  lemma UncappedLimitHidesUploads()
    ensures var limit := LimitParam(Whole(500)).value;
      var c := Paginate(1, limit, 1000);
      var take := Upload.Take(limit);
      c.totalPages == 2
      && forall p :: 1 <= p <= c.totalPages ==>
        !(Upload.Skip(p, take) <= 200 < Upload.Skip(p, take) + take)
  {
    var limit := LimitParam(Whole(500)).value;
    assert TotalPages(1000, limit) == 2;
    assert Upload.Take(limit) == 100;
  }

  /** The page count computed from the limit the backend actually applies. */
  function ServedTotalPages(total: nat, limit: int): (pages: int)
    requires limit >= 1
    ensures pages >= 1
  {
    TotalPages(total, Upload.Take(limit))
  }

  /** With the served limit every upload is on one of the offered pages:
      upload i is on page `i / take + 1`. */
  lemma ServedLimitReachesEveryUpload(total: nat, limit: int, i: nat)
    requires limit >= 1 && i < total
    ensures var take := Upload.Take(limit);
      var p := i / take + 1;
      1 <= p <= ServedTotalPages(total, limit)
      && Upload.Skip(p, take) <= i < Upload.Skip(p, take) + take
  {
    PageOfItem(total, Upload.Take(limit), i);
  }

  /** Item i of `total` lies on page `i / take + 1`, which is one of the
      `TotalPages(total, take)` pages. */
  lemma PageOfItem(total: nat, take: int, i: nat)
    requires 1 <= take && i < total
    ensures var p := i / take + 1;
      1 <= p <= TotalPages(total, take)
      && Upload.Skip(p, take) <= i < Upload.Skip(p, take) + take
  {
    var pages := TotalPages(total, take);
    var q := i / take;
    Upload.SkipOfRow(i, take);
    assert Upload.Skip(q + 1, take) == q * take;
    if q >= pages {
      MultiplyMonotone(pages, q, take);
      assert false;
    }
  }

  lemma MultiplyMonotone(a: int, b: int, c: nat)
    requires a <= b
    ensures a * c <= b * c
  {
    assert b * c == a * c + (b - a) * c;
  }
}
