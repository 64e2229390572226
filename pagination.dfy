/** Offset pagination as the catalogue listings build it: `take: limit`,
    `skip: (page - 1) * limit`, defaults limit 20 and page 1, and
    `totalPages: Math.ceil(total / limit)` in the response metadata. */
module Pagination {
  import opened Common

  const DefaultLimit: int := 20
  const DefaultPage: int := 1

  /** The query bounds of the listing DTOs: `limit` and `page` are at least 1 when present. */
  predicate ValidPaging(limit: Option<int>, page: Option<int>) {
    (limit.Some? ==> limit.value >= 1) && (page.Some? ==> page.value >= 1)
  }

  function OrDefault(x: Option<int>, default: int): int {
    if x.Some? then x.value else default
  }

  function Skip(page: int, limit: int): nat
    requires page >= 1 && limit >= 1
  {
    (page - 1) * limit
  }

  /** The pages tile the rows: the first page skips nothing, and each page starts where the one
      before it ends. */
  lemma SkipTiles(page: int, limit: int)
    requires page >= 1 && limit >= 1
    ensures Skip(1, limit) == 0
    ensures Skip(page + 1, limit) == Skip(page, limit) + limit
  {
    Distribute(page - 1, limit);
  }

  /** `Math.ceil(total / limit)`, characterised without division. */
  function TotalPages(total: nat, limit: int): (r: nat)
    requires limit >= 1
    ensures total <= r * limit < total + limit
  {
    var q := (total + limit - 1) / limit;
    assert q * limit + (total + limit - 1) % limit == total + limit - 1;
    q
  }

  datatype Meta = Meta(currentPage: int, totalPages: nat, limit: int, totalItems: nat)

  function PageMeta(total: nat, page: int, limit: int): (m: Meta)
    requires limit >= 1
    ensures m.totalItems == total && m.currentPage == page && m.limit == limit
    ensures m.totalPages == TotalPages(total, limit)
    ensures m.totalPages == 0 <==> total == 0
  {
    Meta(page, TotalPages(total, limit), limit, total)
  }

  /** The rows a query with `skip` and `take` returns from an ordered result set. */
  function Window<T>(rows: seq<T>, skip: nat, take: nat): (r: seq<T>)
    ensures |r| <= take
    ensures skip >= |rows| ==> r == []
    ensures forall k :: 0 <= k < |r| ==> skip + k < |rows| && r[k] == rows[skip + k]
  {
    if skip >= |rows| then []
    else if skip + take <= |rows| then rows[skip..skip + take]
    else rows[skip..]
  }

  /** A page of a listing: the rows of the requested page and the metadata. */
  datatype Page<T> = Page(data: seq<T>, meta: Meta)

  function PageOf<T>(matched: seq<T>, total: nat, page: int, limit: int): (r: Page<T>)
    requires page >= 1 && limit >= 1
    ensures r.meta.totalItems == total && r.meta.totalPages == TotalPages(total, limit)
    ensures r.meta.currentPage == page && r.meta.limit == limit
    ensures |r.data| <= limit
    ensures forall k :: 0 <= k < |r.data| ==> Skip(page, limit) + k < |matched| && r.data[k] == matched[Skip(page, limit) + k]
  {
    Page(Window(matched, Skip(page, limit), limit), PageMeta(total, page, limit))
  }

  /** A row is on the page `PageOf` builds for any page whose window covers its position,
      and that page is within totalPages. */
  lemma RowIsOnPageOf<T>(rows: seq<T>, limit: int, page: int, k: nat)
    requires limit >= 1 && page >= 1 && k < |rows|
    requires Skip(page, limit) <= k < Skip(page, limit) + limit
    ensures var r := PageOf(rows, |rows|, page, limit);
      && page <= r.meta.totalPages
      && rows[k] in r.data
  {
    var tp := TotalPages(|rows|, limit);
    if tp < page {
      MultiplyMonotone(tp, page - 1, limit);
      assert false;
    }
    WindowHolds(rows, Skip(page, limit), limit, k);
    var r := PageOf(rows, |rows|, page, limit);
    assert r.data == Window(rows, Skip(page, limit), limit);
    assert r.data[k - Skip(page, limit)] == rows[k];
  }

  /** Row `k` of the result set is on page `k / limit + 1`, and that page is within the
      page count the metadata reports. */
  lemma RowIsOnItsPage<T>(rows: seq<T>, limit: int, k: nat)
    requires limit >= 1 && k < |rows|
    ensures var page := k / limit + 1;
      && 1 <= page <= TotalPages(|rows|, limit)
      && Skip(page, limit) <= k < Skip(page, limit) + limit
      && k - Skip(page, limit) < |Window(rows, Skip(page, limit), limit)|
      && Window(rows, Skip(page, limit), limit)[k - Skip(page, limit)] == rows[k]
  {
    var page := k / limit + 1;
    var q, rem := k / limit, k % limit;
    assert k == q * limit + rem && 0 <= rem < limit;
    assert Skip(page, limit) == q * limit;
    var tp := TotalPages(|rows|, limit);
    assert |rows| <= tp * limit;
    if tp < page {
      assert tp <= q;
      assert tp * limit <= q * limit by {
        MultiplyMonotone(tp, q, limit);
      }
      assert false;
    }
    WindowHolds(rows, Skip(page, limit), limit, k);
  }

  /** A row between `skip` and `skip + take` is in the window, at its offset from `skip`. */
  lemma WindowHolds<T>(rows: seq<T>, skip: nat, take: nat, k: nat)
    requires skip <= k < skip + take && k < |rows|
    ensures k - skip < |Window(rows, skip, take)| && Window(rows, skip, take)[k - skip] == rows[k]
  {
  }

  /** A page past the last one the metadata reports is empty. */
  lemma PagesPastTheEndAreEmpty<T>(rows: seq<T>, limit: int, page: int)
    requires limit >= 1 && page > TotalPages(|rows|, limit)
    ensures Window(rows, Skip(page, limit), limit) == []
  {
    var tp := TotalPages(|rows|, limit);
    assert tp <= page - 1;
    MultiplyMonotone(tp, page - 1, limit);
  }

  /** Every page up to the count the metadata reports holds at least one row. */
  lemma PagesWithinCountAreNonEmpty<T>(rows: seq<T>, limit: int, page: int)
    requires limit >= 1 && 1 <= page <= TotalPages(|rows|, limit)
    ensures |Window(rows, Skip(page, limit), limit)| > 0
  {
    var tp := TotalPages(|rows|, limit);
    MultiplyMonotone(page - 1, tp - 1, limit);
    Distribute(tp - 1, limit);
    assert Skip(page, limit) < |rows|;
  }

  lemma Distribute(a: int, c: int)
    ensures (a + 1) * c == a * c + c
  {
  }

  lemma MultiplyMonotone(a: nat, b: nat, c: nat)
    requires a <= b
    ensures a * c <= b * c
  {
    assert b * c == a * c + (b - a) * c;
  }
}
