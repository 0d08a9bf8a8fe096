/** Newest-first pages of a list kept oldest first, as errors and sync operations are. */
module Pagination {
  import opened Arithmetic
  import opened Collections

  function PageNumber(page: int): int {
    if page < 1 then 1 else page
  }

  function PageSize(pageSize: int): int {
    if pageSize < 1 then 50 else pageSize
  }

  /** The part of the reversed list from `from` on, at most `size` long. */
  function Slice<T>(s: seq<T>, from: nat, size: nat): seq<T> {
    if from >= |s| then [] else Reversed(s)[from..Min(from + size, |s|)]
  }

  function PageOf<T>(s: seq<T>, page: int, pageSize: int): seq<T> {
    Slice(s, (PageNumber(page) - 1) * PageSize(pageSize), PageSize(pageSize))
  }

  method GetPage<T>(s: seq<T>, page: int, pageSize: int) returns (items: seq<T>, hasNext: bool)
    ensures items == PageOf(s, page, pageSize)
    ensures hasNext <==> PageOf(s, PageNumber(page) + 1, pageSize) != []
  {
    var number, size := PageNumber(page), PageSize(pageSize);
    NextStart(number, size);
    var startIndex := (number - 1) * size;
    var endIndex := startIndex + size;
    if startIndex >= |s| {
      return [], false;
    }
    if endIndex > |s| {
      endIndex := |s|;
    }
    items := [];
    var i := |s| - 1 - startIndex;
    while i >= |s| - endIndex
      invariant |s| - endIndex - 1 <= i <= |s| - 1 - startIndex
      invariant items == Reversed(s)[startIndex..|s| - 1 - i]
    {
      items := items + [s[i]];
      i := i - 1;
    }
    hasNext := endIndex < |s|;
  }

  lemma NextStart(number: nat, size: nat)
    ensures number * size == (number - 1) * size + size
    ensures number >= 1 ==> (number - 1) * size >= 0
  {
  }

  /** Pages one to `n`, one after the other. */
  function FirstPages<T>(s: seq<T>, pageSize: int, n: nat): seq<T> {
    if n == 0 then [] else FirstPages(s, pageSize, n - 1) + PageOf(s, n, pageSize)
  }

  lemma SliceExtends<T>(s: seq<T>, from: nat, size: nat)
    ensures Reversed(s)[..Min(from, |s|)] + Slice(s, from, size) == Reversed(s)[..Min(from + size, |s|)]
  {
  }

  lemma {:induction false} FirstPagesArePrefix<T>(s: seq<T>, pageSize: int, n: nat)
    ensures n * PageSize(pageSize) >= 0
    ensures FirstPages(s, pageSize, n) == Reversed(s)[..Min(n * PageSize(pageSize), |s|)]
  {
    if n > 0 {
      var size := PageSize(pageSize);
      FirstPagesArePrefix(s, pageSize, n - 1);
      NextStart(n, size);
      SliceExtends(s, (n - 1) * size, size);
    }
  }

  /** How many pages are not empty. */
  function Pages(total: nat, size: nat): nat
    requires size > 0
  {
    (total + size - 1) / size
  }

  lemma PagesCover(total: nat, size: nat)
    requires size > 0
    ensures Pages(total, size) * size >= total
    ensures total > 0 ==> (Pages(total, size) - 1) * size < total
  {
    var n := total + size - 1;
    assert n == (n / size) * size + n % size;
  }

  /** For any page size, all pages together are the whole list, newest first, with no gap
      and no repeat. */
  lemma PagesConcatenate<T>(s: seq<T>, pageSize: int)
    ensures FirstPages(s, pageSize, Pages(|s|, PageSize(pageSize))) == Reversed(s)
  {
    var size := PageSize(pageSize);
    FirstPagesArePrefix(s, pageSize, Pages(|s|, size));
    PagesCover(|s|, size);
  }

  /** A caller that names no page or no page size gets the newest fifty; each page but the
      last is full. */
  lemma DefaultPage<T>(s: seq<T>, page: int, pageSize: int, n: nat)
    requires page < 1 && pageSize < 1 && n >= 1
    ensures PageOf(s, page, pageSize) == PageOf(s, 1, 50) == Reversed(s)[..Min(50, |s|)]
    ensures n * 50 <= |s| ==> |PageOf(s, n, pageSize)| == 50
  {
  }

  lemma SliceIsEmptyIff<T>(s: seq<T>, from: nat, size: nat)
    requires size > 0
    ensures Slice(s, from, size) == [] <==> from >= |s|
    ensures Reversed(s)[..Min(from, |s|)] == Reversed(s) <==> from >= |s|
  {
    assert from < |s| ==> |Reversed(s)[..Min(from, |s|)]| < |s|;
  }

  lemma BeforePagesIff(total: nat, size: nat, n: nat)
    requires size > 0 && n >= 1
    ensures (n - 1) * size >= 0
    ensures (n - 1) * size < total <==> n <= Pages(total, size)
  {
    PagesCover(total, size);
    var pages := Pages(total, size);
    if n <= pages {
      Monotone(n - 1, pages - 1, size);
    } else {
      Monotone(pages, n - 1, size);
    }
  }

  /** Together with the next lemma: page `n` has something exactly when the pages before
      it do not yet hold everything. */
  lemma PageNonEmptyIff<T>(s: seq<T>, pageSize: int, n: nat)
    requires n >= 1
    ensures PageOf(s, n, pageSize) != [] <==> n <= Pages(|s|, PageSize(pageSize))
  {
    BeforePagesIff(|s|, PageSize(pageSize), n);
    SliceIsEmptyIff(s, (n - 1) * PageSize(pageSize), PageSize(pageSize));
  }

  lemma PagesHoldAllIff<T>(s: seq<T>, pageSize: int, n: nat)
    ensures FirstPages(s, pageSize, n) == Reversed(s) <==> n >= Pages(|s|, PageSize(pageSize))
  {
    FirstPagesArePrefix(s, pageSize, n);
    BeforePagesIff(|s|, PageSize(pageSize), n + 1);
    SliceIsEmptyIff(s, n * PageSize(pageSize), PageSize(pageSize));
  }

  lemma Monotone(a: int, b: int, size: nat)
    requires a <= b
    ensures a * size <= b * size
  {
  }
}
