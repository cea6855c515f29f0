/**
 Pagination as every serverless handler does it: a truthy limit selects the slice
 from the offset to the offset plus the limit, anything else the slice from the
 offset to the end.

 `limit` is `None` when the parameter was absent or empty, and `0` is falsy too,
 so both mean "to the end". Offsets and limits are whatever `int()` parsed, negative
 ones included; Python's slice rules decide what they select.
 */
module Paging {
  import opened Wrappers
  import opened Seqs

  function Min(a: int, b: int): int {
    if a <= b then a else b
  }

  /** `if limit:` on the parsed limit. */
  predicate Limited(limit: Option<int>) {
    limit.Some? && limit.value != 0
  }

  /** `page` is the run of `items` that starts at position `a`. */
  ghost predicate WindowAt<T>(items: seq<T>, a: int, page: seq<T>) {
    0 <= a <= |items| - |page| && page == items[a..a + |page|]
  }

  /** The page of `items` selected by `offset` and `limit`. */
  function Paginate<T>(items: seq<T>, offset: int, limit: Option<int>): (page: seq<T>)
    ensures exists a :: WindowAt(items, a, page)
    ensures 0 <= offset && !Limited(limit) ==> page == items[Min(offset, |items|)..]
    ensures 0 <= offset && Limited(limit) && limit.value > 0 ==>
      page == items[Min(offset, |items|)..Min(offset + limit.value, |items|)]
    ensures 0 <= offset && Limited(limit) && limit.value < 0 ==>
      page == (if offset < -limit.value < |items| then items[offset..offset + limit.value + |items|] else [])
    ensures offset < 0 && !Limited(limit) ==>
      page == items[(if offset + |items| < 0 then 0 else offset + |items|)..]
    ensures |items| <= offset ==> page == []
  {
    var page := if Limited(limit) then PySlice(items, offset, offset + limit.value)
                else PySlice(items, offset, |items|);
    var a := Clamp(offset, |items|);
    assert page == [] || page == items[a..a + |page|];
    assert page == [] ==> WindowAt(items, 0, page);
    assert page != [] ==> WindowAt(items, a, page);
    page
  }

  /** A handler's list body: the size before pagination, the page size and the page. */
  datatype Page<T> = Page(total: nat, count: nat, results: seq<T>)

  /** The list body of a handler: the size of the whole list, the size of the page and
      the page itself. */
  function MakePage<T>(items: seq<T>, offset: int, limit: Option<int>): (p: Page<T>)
    ensures p.total == |items| && p.count == |p.results| && p.count <= p.total
    ensures p.results == Paginate(items, offset, limit)
  {
    var page := Paginate(items, offset, limit);
    Page(|items|, |page|, page)
  }

  /** `n * size`, the offset of page number `n` when pages hold `size` items. */
  function Span(n: nat, size: nat): nat {
    if n == 0 then 0 else Span(n - 1, size) + size
  }

  lemma {:induction false} SpanIsProduct(n: nat, size: nat)
    ensures Span(n, size) == n * size
  {
    if n > 0 {
      SpanIsProduct(n - 1, size);
      assert n * size == (n - 1) * size + size;
    }
  }

  /** The `size` items from position `from` on, as far as there are any. */
  function PageOf<T>(items: seq<T>, from: nat, size: nat): seq<T> {
    items[Min(from, |items|)..Min(from + size, |items|)]
  }

  /** A request with a positive limit and a non-negative offset returns that page. */
  lemma PageAt<T>(items: seq<T>, from: nat, size: nat)
    requires size > 0
    ensures Paginate(items, from, Some(size)) == PageOf(items, from, size)
  {
  }

  /** The first `n` pages of `size` items: the pages at offsets 0, size, 2 * size, ... */
  function FirstPages<T>(items: seq<T>, size: nat, n: nat): seq<T>
    requires size > 0
  {
    if n == 0 then [] else FirstPages(items, size, n - 1) + PageOf(items, Span(n - 1, size), size)
  }

  /** Walking the pages of a fixed positive size loses and repeats nothing: the first
      `n` pages are exactly the first `n * size` items (or all of them). */
  lemma {:induction false} FirstPagesArePrefix<T>(items: seq<T>, size: nat, n: nat)
    requires size > 0
    ensures FirstPages(items, size, n) == items[..Min(Span(n, size), |items|)]
  {
    if n > 0 {
      FirstPagesArePrefix(items, size, n - 1);
      var from := Span(n - 1, size);
      var lo := Min(from, |items|);
      var hi := Min(from + size, |items|);
      assert Span(n, size) == from + size;
      assert FirstPages(items, size, n) == items[..lo] + items[lo..hi];
      assert Min(Span(n, size), |items|) == hi;
      assert items[..hi] == items[..lo] + items[lo..hi];
    }
  }

  /** Enough pages cover the whole list. */
  lemma PagesCoverAll<T>(items: seq<T>, size: nat, n: nat)
    requires size > 0 && |items| <= n * size
    ensures FirstPages(items, size, n) == items
  {
    SpanIsProduct(n, size);
    FirstPagesArePrefix(items, size, n);
  }
}
