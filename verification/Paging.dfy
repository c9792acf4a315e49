/** app/utils/pagination.py and the offset/limit listings: pages cut a filtered, ordered table. */
module Paging {
  import opened Common

  /** `total_pages`; the limit of a listing is at least 1. */
  function TotalPages(total: nat, limit: nat): nat
    requires limit > 0
  {
    (total + limit - 1) / limit
  }

  datatype Pagination = Pagination(page: nat, limit: nat, totalItems: nat, totalPages: nat)

  datatype ListData<T> = ListData(data: seq<T>, pagination: Pagination)

  function Cut(n: nat, rows: nat): nat { if n <= rows then n else rows }

  function Slice<T>(rows: seq<T>, offset: nat, limit: nat): seq<T> {
    rows[Cut(offset, |rows|)..Cut(offset + limit, |rows|)]
  }

  /** OFFSET (page - 1) * limit LIMIT limit. */
  function Page<T>(rows: seq<T>, page: nat, limit: nat): seq<T>
    requires page > 0
  {
    Slice(rows, (page - 1) * limit, limit)
  }

  /** One listing request over the table in its fixed order: the filtered page and its pagination. */
  function Listing<T(!new)>(table: seq<T>, keep: T -> bool, page: nat, limit: nat): ListData<T>
    requires page > 0 && limit > 0
  {
    var rows := Filter(table, keep);
    ListData(Page(rows, page, limit), Pagination(page, limit, |rows|, TotalPages(|rows|, limit)))
  }

  lemma TotalPagesBounds(total: nat, limit: nat)
    requires limit > 0
    ensures var n := TotalPages(total, limit);
      && total <= n * limit && (total > 0 ==> n > 0 && (n - 1) * limit < total) && (n == 0 <==> total == 0)
  {
    var n := TotalPages(total, limit);
    var rest := (total + limit - 1) % limit;
    assert total + limit - 1 == n * limit + rest && 0 <= rest < limit;
    assert (n - 1) * limit == n * limit - limit;
  }

  lemma Multiples(p: nat, q: nat, limit: nat)
    requires p <= q
    ensures p * limit <= q * limit
  {
  }

  lemma SliceExtends<T>(rows: seq<T>, offset: nat, limit: nat)
    ensures rows[..Cut(offset, |rows|)] + Slice(rows, offset, limit) == rows[..Cut(offset + limit, |rows|)]
  {
  }

  /** The data of pages 1 to `n`, one after the other. */
  function FirstPages<T>(rows: seq<T>, n: nat, limit: nat): seq<T> {
    if n == 0 then [] else FirstPages(rows, n - 1, limit) + Page(rows, n, limit)
  }

  lemma {:induction false} FirstPagesArePrefix<T>(rows: seq<T>, n: nat, limit: nat)
    ensures FirstPages(rows, n, limit) == rows[..Cut(n * limit, |rows|)]
  {
    if n == 0 {
      assert n * limit == 0;
    } else {
      FirstPagesArePrefix(rows, n - 1, limit);
      SliceExtends(rows, (n - 1) * limit, limit);
      assert (n - 1) * limit + limit == n * limit;
    }
  }

  /** Going through all pages gives every matching row once, in order. */
  lemma PagesPartition<T(!new)>(table: seq<T>, keep: T -> bool, limit: nat, anyPage: nat)
    requires limit > 0 && anyPage > 0
    ensures FirstPages(Filter(table, keep), Listing(table, keep, anyPage, limit).pagination.totalPages, limit)
         == Filter(table, keep)
  {
    var rows := Filter(table, keep);
    var n := TotalPages(|rows|, limit);
    TotalPagesBounds(|rows|, limit);
    FirstPagesArePrefix(rows, n, limit);
    assert rows[..|rows|] == rows;
  }

  /** Every page before the last is full, the last is not empty, and later pages are empty. */
  lemma PageSizes<T(!new)>(table: seq<T>, keep: T -> bool, page: nat, limit: nat)
    requires limit > 0 && page > 0
    ensures var l := Listing(table, keep, page, limit);
      && (page < l.pagination.totalPages ==> |l.data| == limit)
      && (page == l.pagination.totalPages ==> 0 < |l.data| <= limit)
      && (page > l.pagination.totalPages ==> l.data == [])
  {
    var rows := Filter(table, keep);
    var n := TotalPages(|rows|, limit);
    TotalPagesBounds(|rows|, limit);
    assert (page - 1) * limit + limit == page * limit;
    if page < n {
      Multiples(page, n - 1, limit);
    } else if page > n {
      Multiples(n, page - 1, limit);
    }
  }

  /** A listing holds the matching rows from its offset on, one after the other, and counts all of them
      and the fewest pages that hold them. */
  lemma ListingHolds<T(!new)>(table: seq<T>, keep: T -> bool, page: nat, limit: nat, k: nat)
    requires page > 0 && limit > 0 && k < |Listing(table, keep, page, limit).data|
    ensures var l := Listing(table, keep, page, limit);
      (page - 1) * limit + k < |Filter(table, keep)| && l.data[k] == Filter(table, keep)[(page - 1) * limit + k]
  {
    var rows := Filter(table, keep);
    SliceAt(rows, (page - 1) * limit, limit, k);
  }

  lemma SliceAt<T>(rows: seq<T>, offset: nat, limit: nat, k: nat)
    requires k < |Slice(rows, offset, limit)|
    ensures offset + k < |rows| && Slice(rows, offset, limit)[k] == rows[offset + k]
  {
  }

  lemma ListingCounts<T(!new)>(table: seq<T>, keep: T -> bool, page: nat, limit: nat, pages: nat)
    requires page > 0 && limit > 0
    ensures var p := Listing(table, keep, page, limit).pagination;
      && p.page == page && p.limit == limit && p.totalItems == |Filter(table, keep)|
      && (p.totalPages <= pages <==> p.totalItems <= pages * limit)
  {
    var total := |Filter(table, keep)|;
    var n := TotalPages(total, limit);
    TotalPagesBounds(total, limit);
    if n <= pages {
      Multiples(n, pages, limit);
    } else {
      Multiples(pages, n - 1, limit);
    }
  }
}
