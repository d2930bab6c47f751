/** The paging shared by the admin feedback listing, the admin student
    listing and a student's own feedback list: the `page`/`limit` query
    parameters with their defaults, the `skip`/`limit` window, and the
    `pagination` object of the response. */
module Pagination {
  import opened Common
  import opened Sorting

  lemma MulMonotone(a: int, b: int, c: int)
    requires a <= b && c >= 0
    ensures a * c <= b * c
  {
    assert b * c - a * c == (b - a) * c;
  }

  /** `Math.ceil(total / limit)`: enough pages of `limit` records for `total`
      records, and one page fewer would not be enough. */
  function PageCount(total: nat, limit: nat): (pages: nat)
    requires limit >= 1
    ensures pages * limit >= total
    ensures pages == 0 || (pages - 1) * limit < total
    ensures pages == 0 <==> total == 0
    decreases total
  {
    if total == 0 then 0
    else
      var rest := PageCount(if total <= limit then 0 else total - limit, limit);
      assert (1 + rest) * limit == limit + rest * limit;
      1 + rest
  }

  /** `PageCount` is the least page count that holds every record. */
  lemma PageCountIsLeast(total: nat, limit: nat, n: nat)
    requires limit >= 1 && n * limit >= total
    ensures PageCount(total, limit) <= n
  {
    var pages := PageCount(total, limit);
    if pages > n {
      MulMonotone(n, pages - 1, limit);
    }
  }

  /** Page `page` is before the last page exactly when records remain after it. */
  lemma NextPageMeaning(page: int, limit: int, total: nat)
    requires page >= 1 && limit >= 1
    ensures page < PageCount(total, limit) <==> page * limit < total
  {
    var pages := PageCount(total, limit);
    if page < pages {
      MulMonotone(page, pages - 1, limit);
    } else {
      MulMonotone(pages, page, limit);
    }
  }

  /** The `pagination` object of a listing response. */
  datatype PageInfo = PageInfo(current: int, pages: nat, total: nat, hasNext: bool, hasPrev: bool)

  /** `{ current: page, pages: Math.ceil(total / limit), total, hasNext: page < pages, hasPrev: page > 1 }`:
      there is a next page exactly when records remain after this one, and a
      previous page exactly when this is not the first. */
  function Paginate(page: int, limit: int, total: nat): (p: PageInfo)
    requires page >= 1 && limit >= 1
    ensures p.current == page && p.total == total
    ensures p.pages * limit >= total && (p.pages == 0 || (p.pages - 1) * limit < total)
    ensures p.hasNext <==> page * limit < total
    ensures p.hasPrev <==> page > 1
  {
    var pages := PageCount(total, limit);
    NextPageMeaning(page, limit, total);
    PageInfo(page, pages, total, page < pages, page > 1)
  }

  /** `(page - 1) * limit`: the number of records before page `page`. */
  function Skip(page: int, limit: int): (n: nat)
    requires page >= 1 && limit >= 1
    ensures n == (page - 1) * limit
  {
    MulMonotone(0, page - 1, limit);
    (page - 1) * limit
  }

  /** `.skip((page - 1) * limit).limit(limit)`: the records of page `page`. */
  function Window<T>(s: seq<T>, page: int, limit: int): (r: seq<T>)
    requires page >= 1 && limit >= 1
    ensures |r| <= limit
    ensures Skip(page, limit) >= |s| ==> r == []
    ensures Skip(page, limit) < |s| ==> |r| == (if |s| - Skip(page, limit) < limit then |s| - Skip(page, limit) else limit)
    ensures forall i :: 0 <= i < |r| ==> r[i] == s[Skip(page, limit) + i]
  {
    var skip := Skip(page, limit);
    if skip >= |s| then []
    else if |s| - skip <= limit then s[skip..]
    else s[skip..skip + limit]
  }

  /** Every record is on exactly one page: record `i` is entry `i % limit` of
      page `i / limit + 1`, and that page is within the page count. */
  lemma RecordOnItsPage<T>(s: seq<T>, limit: int, i: int)
    requires limit >= 1 && 0 <= i < |s|
    ensures 1 <= i / limit + 1 <= PageCount(|s|, limit)
    ensures var w := Window(s, i / limit + 1, limit);
            i % limit < |w| && w[i % limit] == s[i]
  {
    var q, m := i / limit, i % limit;
    assert q * limit + m == i;
    var pages := PageCount(|s|, limit);
    if q + 1 > pages {
      MulMonotone(pages, q, limit);
    }
    assert (q + 1 - 1) * limit == q * limit;
  }

  /** What the `page` and `limit` validators accept and the values the
      handler then uses: `Number.parseInt(p) || 1` and `Number.parseInt(l) || defaultLimit`.
      An accepted parameter is never 0, so the `||` default applies exactly
      when the parameter is absent. */
  function PageRequest(page: IntParam, limit: IntParam, defaultLimit: int, maxLimit: int): (r: Option<(int, int)>)
    requires 1 <= defaultLimit <= maxLimit
    ensures r.Some? <==> (page.Absent? || (page.Int? && page.n >= 1)) && limit.OptionalIntIn(1, maxLimit)
    ensures r.Some? ==> r.value.0 == (if page.Int? then page.n else 1)
    ensures r.Some? ==> r.value.1 == (if limit.Int? then limit.n else defaultLimit)
    ensures r.Some? ==> r.value.0 >= 1 && 1 <= r.value.1 <= maxLimit
  {
    if (page.Absent? || (page.Int? && page.n >= 1)) && limit.OptionalIntIn(1, maxLimit) then
      Some((page.OrDefault(1), limit.OrDefault(defaultLimit)))
    else None
  }

  /** A page of records and the `pagination` object that comes with it. */
  datatype Listing<T> = Listing(items: seq<T>, pagination: PageInfo)

  /** A page of a sorted result is itself sorted. */
  lemma WindowKeepsOrder<T>(s: seq<T>, page: int, limit: int, le: (T, T) -> bool)
    requires page >= 1 && limit >= 1 && SortedBy(s, le)
    ensures SortedBy(Window(s, page, limit), le)
  {
    var w := Window(s, page, limit);
    forall i, j | 0 <= i < j < |w| ensures le(w[i], w[j]) {
      assert w[i] == s[(page - 1) * limit + i] && w[j] == s[(page - 1) * limit + j];
    }
  }

  /** Whatever holds of every record holds of every record on a page. */
  lemma WindowKeeps<T>(s: seq<T>, page: int, limit: int, p: T -> bool)
    requires page >= 1 && limit >= 1
    requires forall i :: 0 <= i < |s| ==> p(s[i])
    ensures forall i :: 0 <= i < |Window(s, page, limit)| ==> p(Window(s, page, limit)[i])
  {
    var w := Window(s, page, limit);
    forall i | 0 <= i < |w| ensures p(w[i]) {
      assert w[i] == s[(page - 1) * limit + i];
    }
  }
}
