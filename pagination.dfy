/** Offset pagination: page p of size l skips (p - 1) * l rows and takes at
    most l, and the metadata reports the total row count and the number of
    pages, the ceiling of total / l.  The query is modelled as the full,
    ordered result rows. */
module Pagination {
  import opened Results

  const DefaultPage: int := 1
  const DefaultLimit: int := 10

  datatype PaginationMeta = PaginationMeta(total: nat, page: int, limit: int, totalPages: nat)

  datatype Paginated<T> = Paginated(data: seq<T>, pagination: PaginationMeta)

  function OrDefault(o: Option<int>, default: int): int
  {
    match o
    case Some(v) => v
    case None => default
  }

  /** The rows a page skips. */
  function Skip(page: int, limit: int): int
  {
    (page - 1) * limit
  }

  /** The number of pages needed for total rows, limit to a page. */
  function TotalPages(total: nat, limit: int): (n: nat)
    requires limit > 0
    ensures total == 0 <==> n == 0
    ensures total <= n * limit
    ensures n > 0 ==> (n - 1) * limit < total
  {
    var n := (total + limit - 1) / limit;
    assert n * limit <= total + limit - 1 < (n + 1) * limit;
    n
  }

  /** The rows the query returns for a given offset and row limit: at most
      take rows, starting at row skip. */
  function Window<T>(rows: seq<T>, skip: nat, take: nat): (w: seq<T>)
    ensures |w| <= take
    ensures skip >= |rows| ==> w == []
    ensures skip < |rows| ==> |w| == if skip + take <= |rows| then take else |rows| - skip
    ensures forall i :: 0 <= i < |w| ==> skip + i < |rows| && w[i] == rows[skip + i]
  {
    if skip >= |rows| then []
    else rows[skip .. if skip + take <= |rows| then skip + take else |rows|]
  }

  /** A page of the rows, with its metadata.  Omitted page and limit default
      to 1 and 10. */
  function Paginate<T>(rows: seq<T>, page: Option<int>, limit: Option<int>): (p: Paginated<T>)
    requires page.Some? ==> page.value >= 1
    requires limit.Some? ==> limit.value >= 1
    ensures page.None? ==> p.pagination.page == DefaultPage
    ensures limit.None? ==> p.pagination.limit == DefaultLimit
    ensures page.Some? ==> p.pagination.page == page.value
    ensures limit.Some? ==> p.pagination.limit == limit.value
    ensures p.pagination.total == |rows|
    ensures p.pagination.totalPages == TotalPages(|rows|, p.pagination.limit)
    ensures p.data == Window(rows, Skip(p.pagination.page, p.pagination.limit), p.pagination.limit)
  {
    var pg := OrDefault(page, DefaultPage);
    var lim := OrDefault(limit, DefaultLimit);
    MulMonotone(0, pg - 1, lim);
    var skip: nat := Skip(pg, lim);
    var data := Window(rows, skip, lim);
    Paginated(data, PaginationMeta(|rows|, pg, lim, TotalPages(|rows|, lim)))
  }

  /** What a page holds: at most limit rows, each the row at its offset from
      the page's skip, and on page 1 a prefix of the rows. */
  lemma PageContents<T>(rows: seq<T>, page: Option<int>, limit: Option<int>)
    requires page.Some? ==> page.value >= 1
    requires limit.Some? ==> limit.value >= 1
    ensures var p := Paginate(rows, page, limit);
            && |p.data| <= p.pagination.limit && |p.data| <= |rows|
            && (p.pagination.page == 1 ==> p.data == rows[..|p.data|])
            && (forall i :: 0 <= i < |p.data| ==>
                  var k := Skip(p.pagination.page, p.pagination.limit) + i;
                  0 <= k < |rows| && p.data[i] == rows[k])
  {
    var p := Paginate(rows, page, limit);
    var skip := Skip(p.pagination.page, p.pagination.limit);
    MulMonotone(0, p.pagination.page - 1, p.pagination.limit);
    assert p.data == Window(rows, skip, p.pagination.limit);
    if p.pagination.page == 1 {
      assert skip == 0;
      assert p.data == rows[..|p.data|];
    }
  }

  lemma MulMonotone(a: int, b: int, c: nat)
    requires a <= b
    ensures a * c <= b * c
  {
  }

  /** The pages from the given one to the last, concatenated. */
  function PagesFrom<T>(rows: seq<T>, limit: int, page: int): seq<T>
    requires limit >= 1 && page >= 1
    decreases TotalPages(|rows|, limit) + 1 - page
  {
    if page > TotalPages(|rows|, limit) then []
    else Paginate(rows, Some(page), Some(limit)).data + PagesFrom(rows, limit, page + 1)
  }

  /** Pages from the given one on hold exactly the rows from that page's
      offset on. */
  lemma {:induction false} PagesFromSuffix<T>(rows: seq<T>, limit: int, page: int)
    requires limit >= 1 && page >= 1
    ensures var skip := Skip(page, limit);
            PagesFrom(rows, limit, page) == rows[if skip <= |rows| then skip else |rows|..]
    decreases TotalPages(|rows|, limit) + 1 - page
  {
    var n := TotalPages(|rows|, limit);
    var skip := Skip(page, limit);
    if page > n {
      MulMonotone(n, page - 1, limit);
    } else {
      MulMonotone(page - 1, n - 1, limit);
      MulMonotone(0, page - 1, limit);
      assert 0 <= skip < |rows|;
      assert Skip(page + 1, limit) == skip + limit by {
        assert page * limit == (page - 1) * limit + limit;
      }
      var data := Paginate(rows, Some(page), Some(limit)).data;
      assert PagesFrom(rows, limit, page) == data + PagesFrom(rows, limit, page + 1);
      PagesFromSuffix(rows, limit, page + 1);
      assert data == Window(rows, skip, limit);
      WindowThenRest(rows, skip, limit);
    }
  }

  /** The rows from skip on are the window followed by the rows after it. */
  lemma WindowThenRest<T>(rows: seq<T>, skip: nat, take: nat)
    requires skip < |rows|
    ensures var end := if skip + take <= |rows| then skip + take else |rows|;
            rows[skip..] == Window(rows, skip, take) + rows[end..]
  {
    var end := if skip + take <= |rows| then skip + take else |rows|;
    assert rows[skip..] == rows[skip..end] + rows[end..];
  }

  /** Reading pages 1, 2, ... up to the page count returns every row once,
      in order: no row is skipped or repeated. */
  lemma PagesCoverAllRows<T>(rows: seq<T>, limit: int)
    requires limit >= 1
    ensures PagesFrom(rows, limit, 1) == rows
  {
    PagesFromSuffix(rows, limit, 1);
  }
}
