/** `PagedList<T>`: one page of a result set together with the totals needed
    to move between pages. The page is a list (the class derives from
    `List<T>`); its counters are set once, by one of three constructors. */
module Paging {
  import opened Text

  function Min(a: int, b: int): int { if a <= b then a else b }
  function Max(a: int, b: int): int { if a >= b then a else b }

  function Abs(x: int): nat { if x >= 0 then x else -x }

  /** C#'s `/` on int: the magnitude of the quotient is |a| / |b| rounded
      down, and its sign is that of a * b, so it truncates toward zero. */
  function TruncDiv(a: int, b: int): (q: int)
    requires b != 0
    ensures Abs(q) == Abs(a) / Abs(b)
    ensures (a >= 0) == (b > 0) ==> q >= 0
    ensures (a >= 0) != (b > 0) ==> q <= 0
  {
    if (a >= 0) == (b > 0) then Abs(a) / Abs(b) else -(Abs(a) / Abs(b))
  }

  /** C#'s `%` on int: `a == b * (a / b) + a % b`, the remainder is smaller
      than the divisor in magnitude and takes the sign of the dividend. */
  function TruncRem(a: int, b: int): (r: int)
    requires b != 0
    ensures a == b * TruncDiv(a, b) + r
    ensures Abs(r) < Abs(b)
    ensures r != 0 ==> (r > 0 <==> a > 0)
  {
    TruncRemIsSignedRemainder(a, b);
    a - b * TruncDiv(a, b)
  }

  /** What is left over after the truncated quotient is |a| % |b|, with the sign of a. */
  lemma TruncRemIsSignedRemainder(a: int, b: int)
    requires b != 0
    ensures a - b * TruncDiv(a, b) == if a >= 0 then Abs(a) % Abs(b) else -(Abs(a) % Abs(b))
  {
    var A: int, B: int := Abs(a), Abs(b);
    var q: int, m: int := A / B, A % B;
    assert A == B * q + m;
    if a >= 0 && b > 0 {
      assert a - b * TruncDiv(a, b) == A - B * q;
    } else if a >= 0 {
      NegatedProduct(B, q);
      assert b * TruncDiv(a, b) == (-B) * (-q);
    } else if b > 0 {
      NegatedProduct(B, q);
      assert b * TruncDiv(a, b) == B * (-q);
    } else {
      NegatedProduct(B, q);
      assert b * TruncDiv(a, b) == (-B) * q;
    }
  }

  lemma NegatedProduct(x: int, y: int)
    ensures (-x) * y == -(x * y) && x * (-y) == -(x * y) && (-x) * (-y) == x * y
  {
  }

  /** A negative divisor only flips the quotient's sign and leaves the remainder. */
  lemma TruncDivNegatedDivisor(a: int, b: int)
    requires b != 0
    ensures TruncDiv(a, -b) == -TruncDiv(a, b)
    ensures TruncRem(a, -b) == TruncRem(a, b)
  {
    assert (-b) * TruncDiv(a, -b) == b * TruncDiv(a, b);
  }

  /** p is the ceiling of total / size, the least p with total <= p * size. */
  ghost predicate IsCeilingQuotient(p: int, total: int, size: int) {
    (p - 1) * size < total <= p * size
  }

  /** The constructors' page count, the truncated quotient plus one when the
      remainder is positive, is the ceiling, for every total and every
      positive size (a negative total included). */
  lemma PageCountIsCeiling(total: int, size: int)
    requires size > 0
    ensures IsCeilingQuotient(TruncDiv(total, size) + (if TruncRem(total, size) > 0 then 1 else 0), total, size)
  {
    var q, r := TruncDiv(total, size), TruncRem(total, size);
    assert total == size * q + r && -size < r < size;
    MulSucc(q, size);
    assert q * size == size * q;
  }

  /** TotalPages as the constructors compute it. For a positive page size it
      is the ceiling of total / size. For a negative one (`Take` then takes
      nothing) there is at most one page, exactly when 0 < total < |size|. */
  ghost function PageCount(total: int, size: int): (p: int)
    requires size != 0
    ensures size > 0 ==> IsCeilingQuotient(p, total, size)
    ensures size < 0 && total >= 0 ==> p <= 1 && (p == 1 <==> 0 < total < -size)
  {
    if size > 0 then
      PageCountIsCeiling(total, size);
      TruncDiv(total, size) + (if TruncRem(total, size) > 0 then 1 else 0)
    else
      NegativeSizePageCount(total, size);
      TruncDiv(total, size) + (if TruncRem(total, size) > 0 then 1 else 0)
  }

  lemma NegativeSizePageCount(total: int, size: int)
    requires size < 0
    ensures var p := TruncDiv(total, size) + (if TruncRem(total, size) > 0 then 1 else 0);
      total >= 0 ==> p <= 1 && (p == 1 <==> 0 < total < -size)
  {
    if total >= 0 {
      var q, r := TruncDiv(total, size), TruncRem(total, size);
      assert total == size * q + r;
      if 0 < total < -size {
        DivOfSmaller(total, -size);
        assert q == 0;
      } else if q == 0 {
        assert total == r;
      }
    }
  }

  /** The bound above needs a non-negative total: a caller-supplied total of
      -5 with size -2 gives 2 pages, since C# makes -5 / -2 = 2 and
      -5 % -2 = -1. */
  lemma NegativeTotalNegativeSizeExample()
    ensures TruncDiv(-5, -2) == 2 && TruncRem(-5, -2) == -1
    ensures PageCount(-5, -2) == 2
  {
  }

  lemma DivOfSmaller(a: int, b: int)
    requires 0 <= a < b
    ensures a / b == 0
  {
  }

  lemma MulMonotone(a: int, b: int, size: int)
    requires size > 0 && a <= b
    ensures a * size <= b * size
  {
    assert b * size - a * size == (b - a) * size;
  }

  /** The ceiling is unique, so the page count depends on the totals alone. */
  lemma CeilingUnique(p: int, q: int, total: int, size: int)
    requires size > 0
    requires IsCeilingQuotient(p, total, size) && IsCeilingQuotient(q, total, size)
    ensures p == q
  {
    if p < q {
      MulMonotone(p, q - 1, size);
    } else if q < p {
      MulMonotone(q, p - 1, size);
    }
  }

  /** Without items there is no page; with items at least one; never a negative count. */
  lemma PageCountOfCount(p: int, total: nat, size: int)
    requires size > 0 && IsCeilingQuotient(p, total, size)
    ensures p >= 0
    ensures p == 0 <==> total == 0
  {
    if p < 0 {
      MulMonotone(p, -1, size);
    } else if p == 0 {
    } else {
      MulMonotone(1, p, size);
    }
  }

  /** LINQ's `source.Skip(skip).Take(take)`: a negative skip counts as 0, a
      skip past the end leaves nothing, a non-positive take takes nothing. */
  function SkipTake<T>(s: seq<T>, skip: int, take: int): (r: seq<T>)
    ensures |r| == Min(Max(take, 0), |s| - Min(Max(skip, 0), |s|))
    ensures forall k :: 0 <= k < |r| ==> Max(skip, 0) + k < |s| && r[k] == s[Max(skip, 0) + k]
  {
    var start := Min(Max(skip, 0), |s|);
    var end := Min(start + Max(take, 0), |s|);
    s[start..end]
  }

  /** Page i (counted from 0) of size `size` holds an item exactly when i is
      below the page count. */
  lemma PageNonEmpty<T>(s: seq<T>, i: int, size: int, p: int)
    requires size > 0 && i >= 0 && IsCeilingQuotient(p, |s|, size)
    ensures SkipTake(s, i * size, size) != [] <==> i < p
  {
    MulMonotone(0, i, size);
    if i < p {
      MulMonotone(i, p - 1, size);
    } else {
      MulMonotone(p, i, size);
    }
  }

  /** Pages 0 .. n-1 one after the other. */
  function PagesUpTo<T>(s: seq<T>, size: int, n: nat): seq<T>
    requires size > 0
  {
    if n == 0 then [] else PagesUpTo(s, size, n - 1) + SkipTake(s, (n - 1) * size, size)
  }

  /** The first n pages are the first n * size items (or all of them). */
  lemma {:induction false} PagesUpToPrefix<T>(s: seq<T>, size: int, n: nat)
    requires size > 0
    ensures PagesUpTo(s, size, n) == s[..Min(n * size, |s|)]
  {
    if n > 0 {
      PagesUpToPrefix(s, size, n - 1);
      var a := Min((n - 1) * size, |s|);
      MulMonotone(0, n - 1, size);
      MulSucc(n - 1, size);
      assert SkipTake(s, (n - 1) * size, size) == s[a..Min(n * size, |s|)];
      assert s[..a] + s[a..Min(n * size, |s|)] == s[..Min(n * size, |s|)];
    }
  }

  /** Taken in order, the pages 0 .. TotalPages-1 give back the whole source:
      nothing is lost or repeated between pages. */
  lemma PagesPartitionSource<T>(s: seq<T>, size: int, p: int)
    requires size > 0 && IsCeilingQuotient(p, |s|, size)
    ensures p >= 0 && PagesUpTo(s, size, p) == s
  {
    PageCountOfCount(p, |s|, size);
    PagesUpToPrefix(s, size, p);
    assert s[..|s|] == s;
  }

  class PagedList<T> {
    /** The items of the inherited `List<T>`. */
    var items: seq<T>
    /** `Data`: None while the property is unset. */
    var data: Option<seq<T>>
    var pageIndex: int
    var pageSize: int
    var totalCount: int
    var totalPages: int

    /** The counters as every constructor leaves them: a non-zero page size
        and the page count computed from the total. */
    ghost predicate Valid()
      reads this
    {
      pageSize != 0 && totalPages == PageCount(totalCount, pageSize)
    }

    /** The constructor over `IQueryable<T>`; with `getOnlyTotalCount` only
        the counters are set. */
    constructor FromQuery(source: seq<T>, pageIndex: int, pageSize: int, getOnlyTotalCount: bool)
      requires pageSize != 0
      ensures Valid()
      ensures this.totalCount == |source|
      ensures this.pageIndex == pageIndex && this.pageSize == pageSize
      ensures getOnlyTotalCount ==> items == [] && data == None
      ensures !getOnlyTotalCount ==> items == SkipTake(source, pageIndex * pageSize, pageSize) && data == Some(items)
    {
      items, data := [], None;
      this.pageIndex, this.pageSize, totalCount, totalPages := 0, 0, 0, 0;
      new;
      var total := |source|;
      totalCount := total;
      totalPages := TruncDiv(total, pageSize);
      if TruncRem(total, pageSize) > 0 {
        totalPages := totalPages + 1;
      }
      this.pageSize := pageSize;
      this.pageIndex := pageIndex;
      if getOnlyTotalCount {
        return;
      }
      data := Some(SkipTake(source, pageIndex * pageSize, pageSize));
      items := items + SkipTake(source, pageIndex * pageSize, pageSize);
    }

    /** The constructor over `IList<T>`: at most `pageSize` items, taken from
        position `pageIndex * pageSize` on. `Data` stays unset. */
    constructor FromList(source: seq<T>, pageIndex: int, pageSize: int)
      requires pageSize != 0
      ensures Valid()
      ensures this.totalCount == |source|
      ensures this.pageIndex == pageIndex && this.pageSize == pageSize
      ensures items == SkipTake(source, pageIndex * pageSize, pageSize)
      ensures |items| <= Max(pageSize, 0) && |items| <= totalCount
      ensures data == None
    {
      items, data := [], None;
      this.pageIndex, this.pageSize, totalCount, totalPages := 0, 0, 0, 0;
      new;
      totalCount := |source|;
      totalPages := TruncDiv(totalCount, pageSize);
      if TruncRem(totalCount, pageSize) > 0 {
        totalPages := totalPages + 1;
      }
      this.pageSize := pageSize;
      this.pageIndex := pageIndex;
      items := items + SkipTake(source, pageIndex * pageSize, pageSize);
    }

    /** The constructor over an already sliced `IEnumerable<T>`: the caller's
        total is kept as given and the items are the source as it is. */
    constructor FromSlice(source: seq<T>, pageIndex: int, pageSize: int, totalCount: int)
      requires pageSize != 0
      ensures Valid()
      ensures this.totalCount == totalCount
      ensures this.pageIndex == pageIndex && this.pageSize == pageSize
      ensures items == source && data == None
    {
      items, data := [], None;
      this.pageIndex, this.pageSize, this.totalCount, totalPages := 0, 0, 0, 0;
      new;
      this.totalCount := totalCount;
      totalPages := TruncDiv(this.totalCount, pageSize);
      if TruncRem(this.totalCount, pageSize) > 0 {
        totalPages := totalPages + 1;
      }
      this.pageSize := pageSize;
      this.pageIndex := pageIndex;
      items := items + source;
    }

    /** With a positive page size and an index up to the page count, there
        is a previous page exactly when the page before starts at an
        existing item. An index past the last page still reports one. */
    function HasPreviousPage(): (r: bool)
      reads this
      ensures Valid() && pageSize > 0 && pageIndex <= totalPages ==>
        (r <==> 0 <= (pageIndex - 1) * pageSize < totalCount)
      ensures 0 <= totalPages < pageIndex ==> r
    {
      PreviousPageStart(pageIndex, totalPages, totalCount, pageSize);
      pageIndex > 0
    }

    /** With a positive page size there is a next page exactly when the page
        after this one starts at an existing item. */
    function HasNextPage(): (r: bool)
      reads this
      ensures Valid() && pageSize > 0 ==> (r <==> (pageIndex + 1) * pageSize < totalCount)
    {
      NextPageStart(pageIndex, totalPages, totalCount, pageSize);
      pageIndex + 1 < totalPages
    }
  }

  lemma NextPageStart(i: int, p: int, total: int, size: int)
    ensures size > 0 && IsCeilingQuotient(p, total, size) ==> (i + 1 < p <==> (i + 1) * size < total)
  {
    if size > 0 && IsCeilingQuotient(p, total, size) {
      if i + 1 < p {
        MulMonotone(i + 1, p - 1, size);
      } else {
        MulMonotone(p, i + 1, size);
      }
    }
  }

  lemma PreviousPageStart(i: int, p: int, total: int, size: int)
    ensures size > 0 && IsCeilingQuotient(p, total, size) && i <= p ==>
      (i > 0 <==> 0 <= (i - 1) * size < total)
  {
    if size > 0 && IsCeilingQuotient(p, total, size) && i <= p {
      if i > 0 {
        MulMonotone(0, i - 1, size);
        MulMonotone(i - 1, p - 1, size);
      } else {
        MulMonotone(i - 1, -1, size);
      }
    }
  }

  /** For a page built over the whole source, "has a next page" means exactly
      that the page after it holds items, and on the last page it is false. */
  lemma HasNextPageMeansMoreItems<T>(page: PagedList<T>, source: seq<T>)
    requires page.Valid() && page.totalCount == |source| && page.pageIndex >= 0
    ensures page.HasNextPage()
        <==> SkipTake(source, (page.pageIndex + 1) * page.pageSize, page.pageSize) != []
    ensures page.pageIndex == page.totalPages - 1 ==> !page.HasNextPage()
  {
    if page.pageSize > 0 {
      PageNonEmpty(source, page.pageIndex + 1, page.pageSize, page.totalPages);
    }
  }

  /** For a page within range, "has a previous page" means exactly that there
      is a page before it, and that page holds items. */
  lemma HasPreviousPageMeansEarlierItems<T>(page: PagedList<T>, source: seq<T>)
    requires page.Valid() && page.totalCount == |source| && 0 <= page.pageIndex < page.totalPages
    ensures page.HasPreviousPage()
        <==> page.pageIndex >= 1 && SkipTake(source, (page.pageIndex - 1) * page.pageSize, page.pageSize) != []
  {
    if page.pageSize > 0 && page.pageIndex >= 1 {
      PageNonEmpty(source, page.pageIndex - 1, page.pageSize, page.totalPages);
    }
  }
}
