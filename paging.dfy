/**
 * The pagination arithmetic that the catalog listing and the admin listings share:
 * `page = parseInt(req.query.page) || 1`, `offset = (page - 1) * limit`,
 * `totalPages = Math.ceil(total / limit)`, and the `hasNext`/`hasPrev` flags.
 */
module Paging {
  import opened Wrappers

  /** `parseInt(q) || 1`: a `NaN` parse (None) and 0 fall back to page 1; any other value, negative ones included, is kept. */
  function PageNumber(parsed: Option<int>): (page: int)
    ensures page != 0
    ensures parsed.Some? && parsed.value != 0 ==> page == parsed.value
    ensures parsed.None? || parsed == Some(0) ==> page == 1
  {
    if parsed.None? || parsed.value == 0 then 1 else parsed.value
  }

  /** `Math.ceil(n / d)` on non-negative integers: the least number of `d`-sized pages that hold `n` rows. */
  function CeilDiv(n: nat, d: nat): (q: nat)
    requires d > 0
    ensures q * d >= n
    ensures q > 0 ==> (q - 1) * d < n
  {
    if n == 0 then 0
    else
      var k := (n - 1) / d;
      assert n - 1 == k * d + (n - 1) % d;
      k + 1
  }

  /** The `pagination` object handed to the listing templates. */
  datatype Pagination = Pagination(current: int, total: nat, hasNext: bool, hasPrev: bool, next: int, prev: int)

  /** One listing request: the page shown, the LIMIT/OFFSET of its query, and its pagination object. */
  datatype Window = Window(page: int, limit: nat, offset: int, pagination: Pagination)

  /** The pagination of a listing of `rows` rows, `limit` per page, for the parsed `page` query parameter. */
  function Paginate(parsed: Option<int>, rows: nat, limit: nat): (w: Window)
    requires limit > 0
    ensures w.page == PageNumber(parsed) && w.limit == limit
    ensures w.offset == (w.page - 1) * limit
    ensures w.pagination.current == w.page
    ensures w.pagination.total * limit >= rows
    ensures w.pagination.total > 0 ==> (w.pagination.total - 1) * limit < rows
    ensures w.pagination.hasNext <==> w.page < w.pagination.total
    ensures w.pagination.hasPrev <==> w.page > 1
    ensures w.pagination.next == w.page + 1 && w.pagination.prev == w.page - 1
  {
    var page := PageNumber(parsed);
    var totalPages := CeilDiv(rows, limit);
    Window(page, limit, (page - 1) * limit,
           Pagination(page, totalPages, page < totalPages, page > 1, page + 1, page - 1))
  }

  lemma MulMonotone(a: int, b: int, c: nat)
    requires a <= b
    ensures a * c <= b * c
  {
  }

  /** Every page between 1 and the page count starts at a row that exists. */
  lemma {:induction false} PageStartsInsideListing(parsed: Option<int>, rows: nat, limit: nat)
    requires limit > 0
    requires 1 <= Paginate(parsed, rows, limit).page <= Paginate(parsed, rows, limit).pagination.total
    ensures 0 <= Paginate(parsed, rows, limit).offset < rows
  {
    var w := Paginate(parsed, rows, limit);
    MulMonotone(0, w.page - 1, limit);
    MulMonotone(w.page - 1, w.pagination.total - 1, limit);
  }

  /** Row `i` of a listing lies on page `i / limit + 1`, inside the page range, and on no other page. */
  lemma {:induction false} RowOnExactlyOnePage(rows: nat, limit: nat, i: nat, other: int)
    requires limit > 0 && i < rows
    ensures var p := i / limit + 1;
      && 1 <= p <= CeilDiv(rows, limit)
      && (p - 1) * limit <= i < (p - 1) * limit + limit
      && ((other - 1) * limit <= i < (other - 1) * limit + limit ==> other == p)
  {
    var p := i / limit + 1;
    var t := CeilDiv(rows, limit);
    assert i == (i / limit) * limit + i % limit;
    assert (p - 1) * limit <= i < (p - 1) * limit + limit;
    if p > t {
      MulMonotone(t, p - 1, limit);
    }
    if (other - 1) * limit <= i < (other - 1) * limit + limit {
      if other < p {
        MulMonotone(other, p - 1, limit);
      } else if other > p {
        MulMonotone(p, other - 1, limit);
      }
    }
  }

  /**
   * An empty listing has no pages; it still offers a next page exactly when the requested page is
   * negative, since `parseInt` keeps a negative number and only 0 and NaN fall back to page 1.
   */
  lemma EmptyListingNext(parsed: Option<int>, limit: nat)
    requires limit > 0
    ensures Paginate(parsed, 0, limit).pagination.total == 0
    ensures Paginate(parsed, 0, limit).pagination.hasNext <==> parsed.Some? && parsed.value < 0
  {
  }

  /** From a page in range, `next` is in range whenever `hasNext` is set: following it never leaves the listing. */
  lemma NextStaysInRange(parsed: Option<int>, rows: nat, limit: nat)
    requires limit > 0
    requires Paginate(parsed, rows, limit).page >= 1
    ensures var w := Paginate(parsed, rows, limit);
      w.pagination.hasNext ==> 2 <= w.pagination.next <= w.pagination.total
  {
  }
}
