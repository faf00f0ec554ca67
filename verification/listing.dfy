/** Offset pagination shared by the two paginated list endpoints. */
module Listing {
  import opened Common
  import Seqs

  /** One page of a listing: the items plus the counts the client paginates with. */
  datatype Page<T> = Page(items: seq<T>, total: nat, page: int, pageSize: int, totalPages: nat)

  /** The endpoints' defaults for an omitted `page` and `page_size`, and the bound on `page_size`. */
  const DefaultPage: int := 1
  const DefaultPageSize: int := 20
  const MaxPageSize: int := 100

  /** A query parameter outside its declared bounds: the framework answers 422. */
  datatype QueryError = Unprocessable

  /** `page >= 1` and `1 <= page_size <= 100`, as the endpoints declare. */
  predicate ValidPaging(page: int, pageSize: int) {
    page >= 1 && 1 <= pageSize <= MaxPageSize
  }

  lemma MulMonotone(a: int, b: int, c: int)
    requires a <= b && c >= 0
    ensures a * c <= b * c
  {
  }

  /** The number of pages needed for `total` items: the ceiling of `total / pageSize`. */
  function TotalPages(total: nat, pageSize: int): (n: nat)
    requires pageSize >= 1
    ensures total == 0 ==> n == 0
    ensures total > 0 ==> n >= 1 && (n - 1) * pageSize < total <= n * pageSize
  {
    if total != 0 then
      var q := (total + pageSize - 1) / pageSize;
      var m := (total + pageSize - 1) % pageSize;
      assert total + pageSize - 1 == q * pageSize + m;
      assert (q - 1) * pageSize == q * pageSize - pageSize;
      MulMonotone(0, q, pageSize);
      q
    else 0
  }

  /** The ceiling is the only page count whose pages hold `total` items with none empty. */
  lemma {:induction false} TotalPagesUnique(total: nat, pageSize: int, n: nat)
    requires pageSize >= 1
    requires total > 0 && (n - 1) * pageSize < total <= n * pageSize
    ensures n == TotalPages(total, pageSize)
  {
    var t := TotalPages(total, pageSize);
    if n < t {
      MulMonotone(n, t - 1, pageSize);
    } else if n > t {
      MulMonotone(t, n - 1, pageSize);
    }
  }

  /** How many items precede page `page`. */
  function Offset(page: int, pageSize: int): nat
    requires page >= 1 && pageSize >= 1
  {
    MulMonotone(0, page - 1, pageSize);
    (page - 1) * pageSize
  }

  /**
   * The offset of page `page` is past the end of `total` items exactly when
   * the page is past the last one.
   */
  lemma OffsetAgainstTotal(total: nat, page: int, pageSize: int)
    requires page >= 1 && pageSize >= 1
    ensures Offset(page, pageSize) >= 0
    ensures page > TotalPages(total, pageSize) ==> Offset(page, pageSize) >= total
    ensures page <= TotalPages(total, pageSize) ==> Offset(page, pageSize) < total
  {
    var n := TotalPages(total, pageSize);
    MulMonotone(0, page - 1, pageSize);
    if page > n {
      MulMonotone(n, page - 1, pageSize);
    } else {
      MulMonotone(page - 1, n - 1, pageSize);
    }
  }

  /** At most `size` items of `s` starting at position `offset`. */
  function Slice<T>(s: seq<T>, offset: nat, size: nat): (r: seq<T>)
    ensures |r| == Min(size, Max(0, |s| - offset))
    ensures forall i :: 0 <= i < |r| ==> r[i] == s[offset + i]
  {
    if offset >= |s| then [] else s[offset..Min(offset + size, |s|)]
  }

  /**
   * Page `page` of `ordered`: skip `(page - 1) * pageSize` items and take at
   * most `pageSize` of the rest.
   */
  function Paginate<T>(ordered: seq<T>, page: int, pageSize: int): (r: Page<T>)
    requires page >= 1 && pageSize >= 1
    ensures r.total == |ordered| && r.page == page && r.pageSize == pageSize
    ensures r.totalPages == TotalPages(|ordered|, pageSize)
    ensures |r.items| == Min(pageSize, Max(0, |ordered| - Offset(page, pageSize)))
    ensures forall i :: 0 <= i < |r.items| ==> r.items[i] == ordered[Offset(page, pageSize) + i]
    ensures page > r.totalPages ==> |r.items| == 0
    ensures page <= r.totalPages ==> |r.items| > 0
  {
    var n := TotalPages(|ordered|, pageSize);
    var off := Offset(page, pageSize);
    OffsetAgainstTotal(|ordered|, page, pageSize);
    var items := Slice(ordered, off, pageSize);
    assert page > n ==> |items| == 0;
    assert page <= n ==> |items| > 0;
    Page(items, |ordered|, page, pageSize, n)
  }

  /** A page is a contiguous run of the ordered listing: it repeats nothing and draws every item from it. */
  lemma PageWithinListing<T>(ordered: seq<T>, page: int, pageSize: int)
    requires page >= 1 && pageSize >= 1
    ensures multiset(Paginate(ordered, page, pageSize).items) <= multiset(ordered)
  {
    var items := Paginate(ordered, page, pageSize).items;
    var off := Offset(page, pageSize);
    if |items| > 0 {
      var end := off + |items|;
      assert items == ordered[off..end];
      assert ordered == ordered[..off] + ordered[off..end] + ordered[end..];
      assert multiset(ordered) == multiset(ordered[..off]) + multiset(items) + multiset(ordered[end..]);
    }
  }

  /**
   * Every item of the ordered listing is shown on exactly one page, at a
   * fixed position: item `i` is entry `i % pageSize` of page `i / pageSize + 1`.
   */
  lemma ItemOnItsPage<T>(ordered: seq<T>, pageSize: int, i: int)
    requires pageSize >= 1 && 0 <= i < |ordered|
    ensures var p := i / pageSize + 1;
            && 1 <= p <= TotalPages(|ordered|, pageSize)
            && i % pageSize < |Paginate(ordered, p, pageSize).items|
            && Paginate(ordered, p, pageSize).items[i % pageSize] == ordered[i]
  {
    var p := i / pageSize + 1;
    var n := TotalPages(|ordered|, pageSize);
    assert i == (p - 1) * pageSize + i % pageSize;
    if p > n {
      MulMonotone(n, p - 1, pageSize);
    }
  }

  /**
   * 47 items at 15 per page make 4 pages, the last holding 2 items; a page
   * past the end is echoed back, empty, rather than clamped.
   */
  lemma FortySevenAtFifteen<T>(ordered: seq<T>)
    requires |ordered| == 47
    ensures Paginate(ordered, 4, 15).totalPages == 4
    ensures |Paginate(ordered, 4, 15).items| == 2
    ensures Paginate(ordered, 5, 15).page == 5 && |Paginate(ordered, 5, 15).items| == 0
  {
    TotalPagesUnique(47, 15, 4);
  }

  /** The elements of `s` that satisfy `p`, newest first by `key`. */
  function Newest<T(==)>(s: seq<T>, p: T -> bool, key: T -> int): (r: seq<T>)
    ensures |r| == Seqs.Count(s, p)
    ensures Seqs.SortedDesc(r, key)
    ensures multiset(r) == multiset(Seqs.Filter(s, p))
    ensures forall i :: 0 <= i < |r| ==> r[i] in s && p(r[i])
    ensures forall i :: 0 <= i < |s| && p(s[i]) ==> s[i] in r
  {
    var matching := Seqs.Filter(s, p);
    var r := Seqs.SortDesc(matching, key);
    assert forall i :: 0 <= i < |r| ==> r[i] in matching by {
      forall i | 0 <= i < |r| ensures r[i] in matching {
        assert r[i] in multiset(r);
      }
    }
    assert forall i :: 0 <= i < |matching| ==> matching[i] in r by {
      forall i | 0 <= i < |matching| ensures matching[i] in r {
        assert matching[i] in multiset(matching);
      }
    }
    assert |r| == |multiset(r)| == |multiset(matching)| == |matching|;
    r
  }

  /** Elements satisfying `p` that are strictly newer than `t`. */
  function NewerMatch<T>(p: T -> bool, key: T -> int, t: int): T -> bool {
    x => p(x) && key(x) > t
  }

  /** Elements satisfying `p` that are at least as new as `t`. */
  function SameOrNewerMatch<T>(p: T -> bool, key: T -> int, t: int): T -> bool {
    x => p(x) && key(x) >= t
  }

  /**
   * The position of an element in the newest-first listing, up to ties:
   * every strictly newer match precedes it, and it precedes at least one
   * match (itself included) as new as it.
   */
  lemma ListingRank<T>(s: seq<T>, p: T -> bool, key: T -> int, j: int)
    requires 0 <= j < |Newest(s, p, key)|
    ensures var x := Newest(s, p, key)[j];
      Seqs.Count(s, NewerMatch(p, key, key(x))) <= j < Seqs.Count(s, SameOrNewerMatch(p, key, key(x)))
  {
    var ordered := Newest(s, p, key);
    var t := key(ordered[j]);
    var matching := Seqs.Filter(s, p);
    Seqs.SortedRank(ordered, key, j);
    Seqs.CountPermutation(ordered, matching, Seqs.Above(key, t));
    Seqs.CountPermutation(ordered, matching, Seqs.AtLeast(key, t));
    Seqs.CountFilter(s, p, Seqs.Above(key, t), NewerMatch(p, key, t));
    Seqs.CountFilter(s, p, Seqs.AtLeast(key, t), SameOrNewerMatch(p, key, t));
  }

  /** Every element of the newest-first listing sits at its rank. */
  lemma ListingRanks<T>(s: seq<T>, p: T -> bool, key: T -> int)
    ensures var ordered := Newest(s, p, key);
      forall j :: 0 <= j < |ordered| ==>
        Seqs.Count(s, NewerMatch(p, key, key(ordered[j]))) <= j < Seqs.Count(s, SameOrNewerMatch(p, key, key(ordered[j])))
  {
    forall j | 0 <= j < |Newest(s, p, key)|
      ensures Seqs.Count(s, NewerMatch(p, key, key(Newest(s, p, key)[j]))) <= j
              < Seqs.Count(s, SameOrNewerMatch(p, key, key(Newest(s, p, key)[j])))
    {
      ListingRank(s, p, key, j);
    }
  }

  /** A page of a ranked sequence keeps each element's rank, shifted by the page's offset. */
  lemma PageKeepsRank<T>(s: seq<T>, p: T -> bool, key: T -> int, ordered: seq<T>, page: int, pageSize: int)
    requires page >= 1 && pageSize >= 1
    requires forall j :: 0 <= j < |ordered| ==>
      Seqs.Count(s, NewerMatch(p, key, key(ordered[j]))) <= j < Seqs.Count(s, SameOrNewerMatch(p, key, key(ordered[j])))
    ensures var items := Paginate(ordered, page, pageSize).items;
      forall i :: 0 <= i < |items| ==>
        Seqs.Count(s, NewerMatch(p, key, key(items[i]))) <= Offset(page, pageSize) + i
        < Seqs.Count(s, SameOrNewerMatch(p, key, key(items[i])))
  {
    var items := Paginate(ordered, page, pageSize).items;
    var off := Offset(page, pageSize);
    forall i | 0 <= i < |items|
      ensures Seqs.Count(s, NewerMatch(p, key, key(items[i]))) <= off + i
              < Seqs.Count(s, SameOrNewerMatch(p, key, key(items[i])))
    {
      assert items[i] == ordered[off + i];
    }
  }

  /** Every item of a page of the newest-first listing sits at its rank. */
  lemma PaginatedRank<T>(s: seq<T>, p: T -> bool, key: T -> int, page: int, pageSize: int)
    requires page >= 1 && pageSize >= 1
    ensures var items := Paginate(Newest(s, p, key), page, pageSize).items;
      forall i :: 0 <= i < |items| ==>
        Seqs.Count(s, NewerMatch(p, key, key(items[i]))) <= Offset(page, pageSize) + i
        < Seqs.Count(s, SameOrNewerMatch(p, key, key(items[i])))
  {
    ListingRanks(s, p, key);
    PageKeepsRank(s, p, key, Newest(s, p, key), page, pageSize);
  }

  /**
   * What a page of any listing with the shape of `Newest(s, p, key)` holds:
   * matches, newest first, none repeated, each at its rank.
   */
  lemma PageOfListing<T>(s: seq<T>, p: T -> bool, key: T -> int, ordered: seq<T>, page: int, pageSize: int)
    requires page >= 1 && pageSize >= 1
    requires Seqs.SortedDesc(ordered, key)
    requires multiset(ordered) == multiset(Seqs.Filter(s, p))
    requires forall i :: 0 <= i < |ordered| ==> ordered[i] in s && p(ordered[i])
    requires forall j :: 0 <= j < |ordered| ==>
      Seqs.Count(s, NewerMatch(p, key, key(ordered[j]))) <= j < Seqs.Count(s, SameOrNewerMatch(p, key, key(ordered[j])))
    ensures var items := Paginate(ordered, page, pageSize).items;
      && (forall i :: 0 <= i < |items| ==> items[i] in s && p(items[i]))
      && Seqs.SortedDesc(items, key)
      && multiset(items) <= multiset(Seqs.Filter(s, p))
      && (forall i :: 0 <= i < |items| ==>
            Seqs.Count(s, NewerMatch(p, key, key(items[i]))) <= Offset(page, pageSize) + i
            < Seqs.Count(s, SameOrNewerMatch(p, key, key(items[i]))))
  {
    PageKeepsRank(s, p, key, ordered, page, pageSize);
    PageWithinListing(ordered, page, pageSize);
    PageSorted(ordered, key, page, pageSize);
    PageMembers(s, p, ordered, page, pageSize);
  }

  /** A page of a newest-first listing is newest first. */
  lemma PageSorted<T>(ordered: seq<T>, key: T -> int, page: int, pageSize: int)
    requires page >= 1 && pageSize >= 1
    requires Seqs.SortedDesc(ordered, key)
    ensures Seqs.SortedDesc(Paginate(ordered, page, pageSize).items, key)
  {
    var items := Paginate(ordered, page, pageSize).items;
    var off := Offset(page, pageSize);
    forall i, j | 0 <= i < j < |items| ensures key(items[i]) >= key(items[j]) {
      assert items[i] == ordered[off + i] && items[j] == ordered[off + j];
    }
  }

  /** A page of a listing of matches holds only matches. */
  lemma PageMembers<T>(s: seq<T>, p: T -> bool, ordered: seq<T>, page: int, pageSize: int)
    requires page >= 1 && pageSize >= 1
    requires forall i :: 0 <= i < |ordered| ==> ordered[i] in s && p(ordered[i])
    ensures var items := Paginate(ordered, page, pageSize).items;
      forall i :: 0 <= i < |items| ==> items[i] in s && p(items[i])
  {
    var items := Paginate(ordered, page, pageSize).items;
    var off := Offset(page, pageSize);
    forall i | 0 <= i < |items| ensures items[i] in s && p(items[i]) {
      assert items[i] == ordered[off + i];
    }
  }

  /**
   * `pg` is page `page` of the elements of `s` satisfying `p`, newest first by
   * `key`: the counts the client paginates with, then at most `pageSize`
   * matches, none repeated, each placed after exactly the strictly newer
   * matches (up to ties).
   */
  ghost predicate IsPage<T>(s: seq<T>, p: T -> bool, key: T -> int, page: int, pageSize: int, pg: Page<T>) {
    && ValidPaging(page, pageSize)
    && pg.total == Seqs.Count(s, p)
    && pg.page == page && pg.pageSize == pageSize
    && pg.totalPages == TotalPages(pg.total, pageSize)
    && |pg.items| == Min(pageSize, Max(0, pg.total - Offset(page, pageSize)))
    && (page > pg.totalPages ==> |pg.items| == 0)
    && (forall i :: 0 <= i < |pg.items| ==> pg.items[i] in s && p(pg.items[i]))
    && Seqs.SortedDesc(pg.items, key)
    && multiset(pg.items) <= multiset(Seqs.Filter(s, p))
    && (forall i :: 0 <= i < |pg.items| ==>
          Seqs.Count(s, NewerMatch(p, key, key(pg.items[i])))
          <= Offset(page, pageSize) + i
          < Seqs.Count(s, SameOrNewerMatch(p, key, key(pg.items[i]))))
  }

  /** The page a valid request is answered with, described item by item. */
  lemma ValidPage<T>(s: seq<T>, p: T -> bool, key: T -> int, page: int, pageSize: int)
    requires ValidPaging(page, pageSize)
    ensures IsPage(s, p, key, page, pageSize, Paginate(Newest(s, p, key), page, pageSize))
  {
    var ordered := Newest(s, p, key);
    ListingRanks(s, p, key);
    PageOfListing(s, p, key, ordered, page, pageSize);
  }

  /**
   * A paginated list endpoint: refuse out-of-bounds paging, otherwise one
   * page of the elements satisfying `p`, newest first.
   */
  function ListPage<T(==)>(s: seq<T>, p: T -> bool, key: T -> int, page: int, pageSize: int): (r: Result<Page<T>, QueryError>)
    ensures r.Err? <==> !ValidPaging(page, pageSize)
    ensures r.Ok? ==> IsPage(s, p, key, page, pageSize, r.value)
  {
    if !ValidPaging(page, pageSize) then Err(Unprocessable)
    else
      ValidPage(s, p, key, page, pageSize);
      Ok(Paginate(Newest(s, p, key), page, pageSize))
  }

  /** Pages of a newest-first sequence run newest to oldest. */
  lemma PagesInOrder<T>(ordered: seq<T>, key: T -> int, pageSize: int, early: int, late: int, i: int, j: int)
    requires Seqs.SortedDesc(ordered, key)
    requires pageSize >= 1 && 1 <= early < late
    requires 0 <= i < |Paginate(ordered, early, pageSize).items|
    requires 0 <= j < |Paginate(ordered, late, pageSize).items|
    ensures key(Paginate(ordered, early, pageSize).items[i]) >= key(Paginate(ordered, late, pageSize).items[j])
  {
    MulMonotone(early, late - 1, pageSize);
    assert Offset(early, pageSize) + i < Offset(late, pageSize) + j;
  }

  /**
   * Pages run newest to oldest: every item of an earlier page is at least
   * as new as every item of a later one.
   */
  lemma EarlierPagesNewer<T>(s: seq<T>, p: T -> bool, key: T -> int, pageSize: int, early: int, late: int)
    requires ValidPaging(early, pageSize) && ValidPaging(late, pageSize) && early < late
    ensures forall x, y ::
      (x in ListPage(s, p, key, early, pageSize).value.items && y in ListPage(s, p, key, late, pageSize).value.items)
      ==> key(x) >= key(y)
  {
    var ordered := Newest(s, p, key);
    var a := Paginate(ordered, early, pageSize);
    var b := Paginate(ordered, late, pageSize);
    assert ListPage(s, p, key, early, pageSize) == Ok(a);
    assert ListPage(s, p, key, late, pageSize) == Ok(b);
    forall x, y | x in a.items && y in b.items
      ensures key(x) >= key(y)
    {
      var i :| 0 <= i < |a.items| && a.items[i] == x;
      var j :| 0 <= j < |b.items| && b.items[j] == y;
      PagesInOrder(ordered, key, pageSize, early, late, i, j);
    }
  }

  /** Every element satisfying `p` is listed on some page between 1 and `total_pages`. */
  lemma ListedOnSomePage<T>(s: seq<T>, p: T -> bool, key: T -> int, pageSize: int, k: int)
    requires 1 <= pageSize <= MaxPageSize
    requires 0 <= k < |s| && p(s[k])
    ensures exists pg :: 1 <= pg <= TotalPages(Seqs.Count(s, p), pageSize)
                         && s[k] in ListPage(s, p, key, pg, pageSize).value.items
  {
    var ordered := Newest(s, p, key);
    var i :| 0 <= i < |ordered| && ordered[i] == s[k];
    ListedInOrder(ordered, pageSize, i);
    var pg :| 1 <= pg <= TotalPages(|ordered|, pageSize) && ordered[i] in Paginate(ordered, pg, pageSize).items;
    ListPageIsPaginate(s, p, key, pg, pageSize);
  }

  /** Every item of an ordered listing is shown on some page between 1 and `total_pages`. */
  lemma ListedInOrder<T>(ordered: seq<T>, pageSize: int, i: int)
    requires pageSize >= 1 && 0 <= i < |ordered|
    ensures exists pg :: 1 <= pg <= TotalPages(|ordered|, pageSize) && ordered[i] in Paginate(ordered, pg, pageSize).items
  {
    ItemOnItsPage(ordered, pageSize, i);
    var pg := i / pageSize + 1;
    assert Paginate(ordered, pg, pageSize).items[i % pageSize] == ordered[i];
  }

  /** A valid request's page is the slice of the newest-first listing. */
  lemma ListPageIsPaginate<T>(s: seq<T>, p: T -> bool, key: T -> int, page: int, pageSize: int)
    requires ValidPaging(page, pageSize)
    ensures ListPage(s, p, key, page, pageSize) == Ok(Paginate(Newest(s, p, key), page, pageSize))
  {
  }
}
