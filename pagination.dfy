/**
 * The paging arithmetic every listing endpoint repeats: `page`/`limit`
 * defaults, `skip`, the `pagination` block of the response, and the window a
 * `.skip(skip).limit(limit)` cursor returns.
 */
module Pagination {
  import opened Wrappers
  import Js

  /**
   * `parseInt(x) || d`: `None` stands for an absent or unparseable query
   * value (NaN); 0 is falsy as well and also falls back to `d`.
   */
  function IntOr(v: Option<int>, d: int): (r: int)
    ensures v.Some? && v.value != 0 ==> r == v.value
    ensures v.None? || v.value == 0 ==> r == d
  {
    if v.Some? && v.value != 0 then v.value else d
  }

  datatype Paging = Paging(page: int, limit: int, skip: int)

  /** Page defaults to 1 and limit to 10; skip is `(page - 1) * limit`. */
  function ParsePaging(pageQuery: Option<int>, limitQuery: Option<int>): (p: Paging)
    ensures p.page != 0 && p.limit != 0
    ensures pageQuery.None? ==> p.page == 1
    ensures limitQuery.None? ==> p.limit == 10
    ensures pageQuery.Some? && pageQuery.value != 0 ==> p.page == pageQuery.value
    ensures limitQuery.Some? && limitQuery.value != 0 ==> p.limit == limitQuery.value
    ensures p.skip == (p.page - 1) * p.limit
    ensures p.page >= 1 && p.limit >= 1 ==> p.skip >= 0
  {
    var page := IntOr(pageQuery, 1);
    var limit := IntOr(limitQuery, 10);
    MulMonotone(0, page - 1, limit);
    Paging(page, limit, (page - 1) * limit)
  }

  /** Multiplying by a non-negative factor keeps the order. */
  lemma MulMonotone(a: int, b: int, c: int)
    ensures a <= b && c >= 0 ==> a * c <= b * c
  {
  }

  datatype PageMeta = PageMeta(total: int, page: int, limit: int, totalPages: int, hasNextPage: bool, hasPrevPage: bool)

  /** The response's `pagination` block: `totalPages` is `Math.ceil(total / limit)`. */
  function Meta(total: nat, page: int, limit: int): (m: PageMeta)
    requires limit != 0
    ensures m.total == total && m.page == page && m.limit == limit
    ensures limit > 0 ==> (m.totalPages - 1) * limit < total <= m.totalPages * limit
    ensures m.hasNextPage <==> page < m.totalPages
    ensures m.hasPrevPage <==> page > 1
  {
    var pages := Js.CeilDiv(total, limit);
    PageMeta(total, page, limit, pages, page < pages, page > 1)
  }

  /** With a positive page and limit, a next page is announced exactly when items lie beyond this one. */
  lemma NextPageExactlyWhenMoreItems(total: nat, page: int, limit: int)
    requires page >= 1 && limit >= 1
    ensures Meta(total, page, limit).hasNextPage <==> page * limit < total
  {
    var n := Meta(total, page, limit).totalPages;
    if page < n {
      MulMonotone(page, n - 1, limit);
    } else {
      MulMonotone(n, page, limit);
    }
  }

  /** With a positive limit there are no pages exactly when there are no items. */
  lemma NoPagesExactlyWhenEmpty(total: nat, limit: int)
    requires limit >= 1
    ensures Meta(total, 1, limit).totalPages >= 0
    ensures Meta(total, 1, limit).totalPages == 0 <==> total == 0
  {
    var n := Meta(total, 1, limit).totalPages;
    if n < 0 {
      MulMonotone(n, -1, limit);
    } else if n >= 1 {
      MulMonotone(0, n - 1, limit);
    }
  }

  function Abs(x: int): nat {
    if x < 0 then -x else x
  }

  /**
   * What `.skip(skip).limit(limit)` returns from an ordered result: the
   * elements after the first `skip`, at most |limit| of them (the database
   * treats a negative limit as its absolute value).
   */
  function Window<T>(s: seq<T>, skip: nat, limit: int): (w: seq<T>)
    requires limit != 0
    ensures skip >= |s| ==> w == []
    ensures skip < |s| ==> |w| == if |s| - skip < Abs(limit) then |s| - skip else Abs(limit)
    ensures forall k :: 0 <= k < |w| ==> skip + k < |s| && w[k] == s[skip + k]
  {
    if skip >= |s| then []
    else if |s| - skip < Abs(limit) then s[skip..]
    else s[skip..skip + Abs(limit)]
  }
}
