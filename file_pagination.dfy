/**
 * `FilePagination`: the page links and ellipses `generatePaginationItems`
 * emits, the Previous/Next guards, and the "Showing X to Y" range.
 */
module FilePagination {
  import opened Wrappers
  import opened Schema
  import FileStorage

  datatype PageItem = PageLink(page: int, isActive: bool) | StartEllipsis | EndEllipsis

  /** `pagination?.totalPages || 1`: a missing or zero count of pages is one page. */
  function EffectiveTotalPages(totalPages: Option<int>): (t: int)
    ensures t != 0
    ensures totalPages.Some? && totalPages.value != 0 ==> t == totalPages.value
  {
    if totalPages.None? || totalPages.value == 0 then 1 else totalPages.value
  }

  /** The component renders nothing unless there are at least two pages. */
  predicate Rendered(totalPages: Option<int>) {
    EffectiveTotalPages(totalPages) > 1
  }

  function Max(a: int, b: int): int {
    if a >= b then a else b
  }

  /** The links for pages `lo` to `hi`, the current one active. */
  function Links(lo: int, hi: int, current: int): (r: seq<PageItem>)
    ensures |r| == if lo > hi then 0 else hi - lo + 1
    ensures forall k :: 0 <= k < |r| ==> r[k] == PageLink(lo + k, current == lo + k)
    decreases hi - lo
  {
    if lo > hi then [] else [PageLink(lo, current == lo)] + Links(lo + 1, hi, current)
  }

  /** The first and last page of the window around the current page. */
  function WindowStart(current: int): int {
    Max(2, current - 1)
  }

  function WindowEnd(totalPages: int, current: int): int {
    FileStorage.Min(totalPages - 1, current + 1)
  }

  /** Everything before the window: the first page, then the leading ellipsis. */
  function Head(totalPages: int, current: int): seq<PageItem> {
    (if totalPages > 1 then [PageLink(1, current == 1)] else [])
    + (if current > 3 then [StartEllipsis] else [])
  }

  /** Everything after the window: the trailing ellipsis, then the last page. */
  function Tail(totalPages: int, current: int): seq<PageItem> {
    (if current < totalPages - 2 then [EndEllipsis] else [])
    + (if totalPages > 1 then [PageLink(totalPages, current == totalPages)] else [])
  }

  /** What `generatePaginationItems` emits, for the effective page count. */
  function PaginationItems(totalPages: int, current: int): seq<PageItem> {
    Head(totalPages, current)
    + Links(WindowStart(current), WindowEnd(totalPages, current), current)
    + Tail(totalPages, current)
  }

  lemma {:induction false} LinksSnoc(lo: int, hi: int, current: int)
    requires lo <= hi + 1
    ensures Links(lo, hi + 1, current) == Links(lo, hi, current) + [PageLink(hi + 1, current == hi + 1)]
  {
    var a := Links(lo, hi + 1, current);
    var b := Links(lo, hi, current) + [PageLink(hi + 1, current == hi + 1)];
    assert |a| == |b|;
    forall k | 0 <= k < |a| ensures a[k] == b[k] {
      if k < |a| - 1 {
        assert b[k] == Links(lo, hi, current)[k];
      }
    }
  }

  /** `generatePaginationItems`: pushes the first page, an ellipsis, the window page by page, an ellipsis and the last page. */
  method GeneratePaginationItems(totalPages: Option<int>, current: int) returns (items: seq<PageItem>)
    ensures items == PaginationItems(EffectiveTotalPages(totalPages), current)
  {
    var t := EffectiveTotalPages(totalPages);
    items := [];
    if t > 1 {
      items := items + [PageLink(1, current == 1)];
    }
    if current > 3 {
      items := items + [StartEllipsis];
    }
    ghost var head := items;
    assert head == Head(t, current);
    var lo := Max(2, current - 1);
    var hi := FileStorage.Min(t - 1, current + 1);
    var i := lo;
    while i <= hi
      invariant lo <= i <= Max(lo, hi + 1)
      invariant items == head + Links(lo, i - 1, current)
      decreases hi - i
    {
      AppendLink(head, lo, i, current);
      items := items + [PageLink(i, current == i)];
      i := i + 1;
    }
    assert lo == WindowStart(current) && hi == WindowEnd(t, current);
    assert Links(lo, i - 1, current) == Links(lo, hi, current);
    ghost var body := items;
    ghost var tail: seq<PageItem> := [];
    if current < t - 2 {
      items := items + [EndEllipsis];
      tail := tail + [EndEllipsis];
    }
    assert items == body + tail;
    if t > 1 {
      AppendOne(body, tail, PageLink(t, current == t));
      items := items + [PageLink(t, current == t)];
      tail := tail + [PageLink(t, current == t)];
    }
    assert items == body + tail && tail == Tail(t, current);
  }

  /** One more link at the end of the window. */
  lemma AppendLink(head: seq<PageItem>, lo: int, i: int, current: int)
    requires lo <= i
    ensures (head + Links(lo, i - 1, current)) + [PageLink(i, current == i)] == head + Links(lo, i, current)
  {
    LinksSnoc(lo, i - 1, current);
    AppendOne(head, Links(lo, i - 1, current), PageLink(i, current == i));
  }

  lemma AppendOne<T>(a: seq<T>, b: seq<T>, x: T)
    ensures (a + b) + [x] == a + (b + [x])
  {
  }

  /** Page `p` has a link among the items. */
  predicate Shown(items: seq<PageItem>, p: int) {
    exists k :: 0 <= k < |items| && items[k].PageLink? && items[k].page == p
  }

  /** The items, laid out: where the window sits and what surrounds it. */
  lemma Layout(totalPages: int, current: int)
    requires totalPages > 1
    ensures var items, h, w := PaginationItems(totalPages, current), |Head(totalPages, current)|,
                                Links(WindowStart(current), WindowEnd(totalPages, current), current);
      && |items| == h + |w| + |Tail(totalPages, current)|
      && items[0] == PageLink(1, current == 1)
      && items[|items| - 1] == PageLink(totalPages, current == totalPages)
      && (h == 2 <==> current > 3) && (h == 2 ==> items[1] == StartEllipsis)
      && (forall k :: 0 <= k < |w| ==> items[h + k] == w[k])
      && (current < totalPages - 2 <==> |Tail(totalPages, current)| == 2)
      && (current < totalPages - 2 ==> items[|items| - 2] == EndEllipsis)
  {
    var h := Head(totalPages, current);
    var w := Links(WindowStart(current), WindowEnd(totalPages, current), current);
    var tl := Tail(totalPages, current);
    var items := PaginationItems(totalPages, current);
    assert items == h + w + tl;
    forall k | 0 <= k < |w| ensures items[|h| + k] == w[k] {
      assert (h + w + tl)[|h| + k] == w[k];
    }
  }

  /** Where a link can sit: first, inside the window (numbered from its start), or last. */
  lemma LinkPosition(totalPages: int, current: int, k: int)
    requires totalPages > 1
    requires 0 <= k < |PaginationItems(totalPages, current)| && PaginationItems(totalPages, current)[k].PageLink?
    ensures var items, h, lo, hi := PaginationItems(totalPages, current), |Head(totalPages, current)|,
                                    WindowStart(current), WindowEnd(totalPages, current);
      && 2 <= lo && hi <= totalPages - 1
      && (|| (k == 0 && items[k] == PageLink(1, current == 1))
          || (h <= k <= h + hi - lo && items[k] == PageLink(lo + k - h, current == lo + k - h))
          || (k == |items| - 1 && items[k] == PageLink(totalPages, current == totalPages)))
  {
    var items := PaginationItems(totalPages, current);
    var h := |Head(totalPages, current)|;
    var w := Links(WindowStart(current), WindowEnd(totalPages, current), current);
    Layout(totalPages, current);
    if h <= k < h + |w| {
      assert items[k] == w[k - h];
    }
  }

  /**
   * The page numbers on the links rise strictly from `1` to the last page,
   * so no page is linked twice.
   */
  lemma PagesStrictlyIncrease(totalPages: int, current: int)
    requires totalPages > 1
    ensures var items := PaginationItems(totalPages, current);
      && (forall k :: 0 <= k < |items| && items[k].PageLink? ==> 1 <= items[k].page <= totalPages)
      && (forall j, k :: 0 <= j < k < |items| && items[j].PageLink? && items[k].PageLink? ==>
            items[j].page < items[k].page)
  {
    var items := PaginationItems(totalPages, current);
    forall k | 0 <= k < |items| && items[k].PageLink?
      ensures 1 <= items[k].page <= totalPages
    {
      LinkPosition(totalPages, current, k);
    }
    forall j, k | 0 <= j < k < |items| && items[j].PageLink? && items[k].PageLink?
      ensures items[j].page < items[k].page
    {
      LinkPosition(totalPages, current, j);
      LinkPosition(totalPages, current, k);
    }
  }

  /** The links shown are exactly the first page, the last page and the window around the current page. */
  lemma ShownIff(totalPages: int, current: int, p: int)
    requires totalPages > 1
    ensures Shown(PaginationItems(totalPages, current), p) <==>
      p == 1 || p == totalPages || WindowStart(current) <= p <= WindowEnd(totalPages, current)
  {
    var items := PaginationItems(totalPages, current);
    if Shown(items, p) {
      var k :| 0 <= k < |items| && items[k].PageLink? && items[k].page == p;
      LinkPosition(totalPages, current, k);
    }
    if p == 1 || p == totalPages || WindowStart(current) <= p <= WindowEnd(totalPages, current) {
      ShownWhenListed(totalPages, current, p);
    }
  }

  lemma ShownWhenListed(totalPages: int, current: int, p: int)
    requires totalPages > 1
    requires p == 1 || p == totalPages || WindowStart(current) <= p <= WindowEnd(totalPages, current)
    ensures Shown(PaginationItems(totalPages, current), p)
  {
    var items := PaginationItems(totalPages, current);
    var h := |Head(totalPages, current)|;
    var lo := WindowStart(current);
    var w := Links(lo, WindowEnd(totalPages, current), current);
    Layout(totalPages, current);
    if p == 1 {
      assert items[0].page == p;
    } else if p == totalPages {
      assert items[|items| - 1].page == p;
    } else {
      assert items[h + (p - lo)] == w[p - lo];
    }
  }

  /** The leading ellipsis appears exactly when the current page is past 3, the trailing one exactly when it is before the third-to-last. */
  lemma EllipsisIff(totalPages: int, current: int)
    requires totalPages > 1
    ensures var items := PaginationItems(totalPages, current);
      && (StartEllipsis in items <==> current > 3)
      && (EndEllipsis in items <==> current < totalPages - 2)
  {
    var items := PaginationItems(totalPages, current);
    var h := Head(totalPages, current);
    var w := Links(WindowStart(current), WindowEnd(totalPages, current), current);
    var tl := Tail(totalPages, current);
    assert items == h + w + tl;
    assert StartEllipsis !in w && EndEllipsis !in w;
    assert StartEllipsis !in tl && EndEllipsis !in h;
  }

  /** For a current page in range, its link appears, and it is the only active link. */
  lemma CurrentIsTheOnlyActiveLink(totalPages: int, current: int)
    requires 1 <= current <= totalPages && totalPages > 1
    ensures var items := PaginationItems(totalPages, current);
      && Shown(items, current)
      && forall k :: 0 <= k < |items| && items[k].PageLink? ==> (items[k].isActive <==> items[k].page == current)
  {
    ShownIff(totalPages, current, current);
    var items := PaginationItems(totalPages, current);
    var h := |Head(totalPages, current)|;
    var lo := WindowStart(current);
    var w := Links(lo, WindowEnd(totalPages, current), current);
    Layout(totalPages, current);
    forall k | 0 <= k < |items| && items[k].PageLink?
      ensures items[k].isActive <==> items[k].page == current
    {
      if h <= k < h + |w| {
        assert items[k] == w[k - h];
      } else if k < h {
        assert k == 0;
      } else {
        assert k == |items| - 1;
      }
    }
  }

  /** With the current page in range, every page has a link or lies behind the ellipsis on its side. */
  lemma EveryPageShownOrElided(totalPages: int, current: int, p: int)
    requires 1 <= current <= totalPages && totalPages > 1 && 1 <= p <= totalPages
    ensures var items := PaginationItems(totalPages, current);
      || Shown(items, p)
      || (p < current && StartEllipsis in items)
      || (p > current && EndEllipsis in items)
  {
    ShownIff(totalPages, current, p);
    EllipsisIff(totalPages, current);
  }

  /** `onPageChange` target of Previous: the page before, only past the first page. */
  function PreviousTarget(current: int): Option<int> {
    if current > 1 then Some(current - 1) else None
  }

  /** `onPageChange` target of Next: the page after, only before the last page. */
  function NextTarget(current: int, totalPages: Option<int>): Option<int> {
    if current < EffectiveTotalPages(totalPages) then Some(current + 1) else None
  }

  /** From a page in range, Previous and Next move one page and never leave the range; they are off exactly at the ends. */
  lemma NavigationStaysInRange(current: int, totalPages: Option<int>)
    requires 1 <= current <= EffectiveTotalPages(totalPages)
    ensures var t, prev, next := EffectiveTotalPages(totalPages), PreviousTarget(current), NextTarget(current, totalPages);
      && (prev.None? <==> current == 1)
      && (next.None? <==> current == t)
      && (prev.Some? ==> 1 <= prev.value <= t && prev.value == current - 1)
      && (next.Some? ==> 1 <= next.value <= t && next.value == current + 1)
  {
  }

  /** The first number of "Showing X to Y": `(currentPage - 1) * limit + 1`. */
  function ShowingFrom(current: int, limit: int): int {
    (current - 1) * limit + 1
  }

  /** The second number: `Math.min(currentPage * limit, total || 1)`. */
  function ShowingTo(current: int, limit: int, total: Option<int>): int {
    FileStorage.Min(current * limit, if total.None? || total.value == 0 then 1 else total.value)
  }

  lemma PageStart(current: int, limit: int)
    requires current >= 1 && limit >= 1
    ensures 0 <= (current - 1) * limit
    ensures current * limit == (current - 1) * limit + limit
  {
  }

  /**
   * When `total` is the count of a listing and the current page starts
   * inside it, the store answers that page exactly when the listing's folder
   * id binds, and then "Showing X to Y" covers exactly as many rows as the
   * page holds.
   */
  lemma ShowingCountsThePage(rows: seq<File>, userId: UserId, sel: FileStorage.Selection,
                             opts: FileStorage.PaginationOptions, current: int, limit: int)
    requires opts.page == Some(current) && opts.limit == Some(limit)
    requires current >= 1 && limit >= 1
    requires (current - 1) * limit < FileStorage.Count(rows, sel, userId)
    ensures FileStorage.List(rows, userId, sel, opts).Success? <==> FileStorage.FolderIdBinds(sel)
    ensures FileStorage.List(rows, userId, sel, opts).Success? ==>
      var total := FileStorage.Count(rows, sel, userId);
      ShowingTo(current, limit, Some(total)) - ShowingFrom(current, limit) + 1
        == |FileStorage.List(rows, userId, sel, opts).value|
  {
    var n := FileStorage.Count(rows, sel, userId);
    var start := (current - 1) * limit;
    assert 0 <= start by {
      PageStart(current, limit);
    }
    assert FileStorage.List(rows, userId, sel, opts).Success? <==> FileStorage.FolderIdBinds(sel) by {
      ExplicitPaging(sel, opts, current, limit);
    }
    if FileStorage.FolderIdBinds(sel) {
      assert |FileStorage.List(rows, userId, sel, opts).value| == FileStorage.Min(limit, n - start) by {
        ExplicitPaging(sel, opts, current, limit);
        PageSizeInside(rows, userId, sel, opts, start, limit, |FileStorage.List(rows, userId, sel, opts).value|, n);
      }
      assert ShowingTo(current, limit, Some(n)) - ShowingFrom(current, limit) + 1 == FileStorage.Min(limit, n - start) by {
        ShowingSpan(current, limit, n);
      }
    }
  }

  /** An explicit page and limit are used as given: the offset is `(page - 1) * limit`. */
  lemma ExplicitPaging(sel: FileStorage.Selection, opts: FileStorage.PaginationOptions, current: int, limit: int)
    requires opts.page == Some(current) && opts.limit == Some(limit)
    ensures FileStorage.Resolve(sel, opts).Offset() == (current - 1) * limit
    ensures FileStorage.Resolve(sel, opts).limit == limit
  {
    FileStorage.ProductIsMul(current - 1, limit);
  }

  /** A page that starts inside the count holds what is left of the count, up to the limit. */
  lemma PageSizeInside(rows: seq<File>, userId: UserId, sel: FileStorage.Selection,
                       opts: FileStorage.PaginationOptions, start: int, limit: int, size: int, n: nat)
    requires FileStorage.List(rows, userId, sel, opts).Success?
    requires FileStorage.Resolve(sel, opts).Offset() == start && FileStorage.Resolve(sel, opts).limit == limit
    requires size == |FileStorage.List(rows, userId, sel, opts).value| && n == FileStorage.Count(rows, sel, userId)
    requires 0 <= start < n
    ensures size == FileStorage.Min(limit, n - start)
  {
    FileStorage.PageSizeFromCount(rows, userId, sel, opts);
  }

  /** On a page that starts inside the total, "Showing X to Y" spans what is left of the page. */
  lemma ShowingSpan(current: int, limit: int, total: nat)
    requires current >= 1 && limit >= 1 && (current - 1) * limit < total
    ensures ShowingTo(current, limit, Some(total)) - ShowingFrom(current, limit) + 1
         == FileStorage.Min(limit, total - (current - 1) * limit)
  {
    PageStart(current, limit);
  }
}
