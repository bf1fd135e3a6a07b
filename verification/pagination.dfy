/**
  Client-side pagination arithmetic of the PaginatedList component.

  A list of `n` items shown `p` items at a time is split into
  `ceil(n / p)` pages; page `k` (1-indexed) starts at item `(k - 1) * p`
  and the visible items are cut out of the list with JavaScript's
  `Array.prototype.slice`, which clamps its bounds to the list.
 */
module Pagination {

  function Min(a: int, b: int): int { if a <= b then a else b }

  function Max(a: int, b: int): int { if a <= b then b else a }

  /** How `Array.prototype.slice` turns one of its arguments into a position:
      a negative argument counts back from the end, and the position is
      clamped to `[0, len]`. */
  function RelativeIndex(i: int, len: nat): (r: nat)
    ensures r <= len
  {
    if i < 0 then Max(len + i, 0) else Min(i, len)
  }

  /** `s.slice(start, end)`. */
  function Slice<T>(s: seq<T>, start: int, end: int): (r: seq<T>)
    ensures |r| <= |s|
    // With non-negative, ordered bounds: the items of s from `start` on,
    // stopping at `end` or at the end of s, whichever comes first.
    ensures 0 <= start <= end ==> |r| == Max(0, Min(end, |s|) - start)
    ensures 0 <= start <= end ==> forall k :: 0 <= k < |r| ==> r[k] == s[start + k]
  {
    var from := RelativeIndex(start, |s|);
    var to := RelativeIndex(end, |s|);
    if from < to then s[from..to] else []
  }

  /** `Math.ceil(n / p)`: the number of pages needed for `n` items. */
  function TotalPages(n: nat, p: int): (r: nat)
    requires p > 0
    ensures n <= r * p                 // every item lies on some page
    ensures r == 0 || (r - 1) * p < n  // and the last page is not empty
    ensures r == 0 <==> n == 0
  {
    DivBounds(n + p - 1, p);
    (n + p - 1) / p
  }

  /** Euclidean division, stated as the two inequalities it satisfies. */
  lemma DivBounds(a: nat, p: int)
    requires p > 0
    ensures (a / p) * p <= a < (a / p) * p + p
  {
  }

  /** The ceiling is the only count of pages that both covers every item and
      leaves no page empty. */
  lemma {:induction false} TotalPagesUnique(n: nat, p: int, k: nat)
    requires p > 0
    requires n <= k * p
    requires k == 0 || (k - 1) * p < n
    ensures k == TotalPages(n, p)
  {
    var r := TotalPages(n, p);
    if k < r {
      MulMono(k, r - 1, p);
    } else if r < k {
      MulMono(r, k - 1, p);
    }
  }

  lemma MulMono(a: nat, b: nat, p: int)
    requires p > 0
    requires a <= b
    ensures a * p <= b * p
  {
  }

  /** `(currentPage - 1) * itemsPerPage`: the position of a page's first item. */
  function StartIndex(page: int, p: int): (r: int)
    // pages numbered from 1 start inside or past the list, never before it
    ensures p > 0 ==> (0 <= r <==> page >= 1)
  {
    (page - 1) * p
  }

  /** `posts.slice(startIndex, startIndex + itemsPerPage)`: the items shown on
      page `page`. */
  function PageSlice<T>(posts: seq<T>, p: int, page: int): (r: seq<T>)
    // a page never holds more than p items
    ensures p > 0 ==> |r| <= p
    // a real page holds the items from its start on, as many as fit
    ensures p > 0 && page >= 1 ==>
              |r| == Max(0, Min(p, |posts| - StartIndex(page, p)))
              && forall k :: 0 <= k < |r| ==> r[k] == posts[StartIndex(page, p) + k]
  {
    Slice(posts, StartIndex(page, p), StartIndex(page, p) + p)
  }

  /** For a real page (numbered from 1), the visible items are the window
      `posts[start .. min(start + p, n)]`, or nothing when the page starts at
      or past the end of the list. */
  lemma PageWindow<T>(posts: seq<T>, p: int, page: int)
    requires p > 0 && page >= 1
    ensures StartIndex(page, p) >= 0
    ensures StartIndex(page, p) >= |posts| ==> PageSlice(posts, p, page) == []
    ensures StartIndex(page, p) < |posts| ==>
              PageSlice(posts, p, page)
              == posts[StartIndex(page, p) .. Min(StartIndex(page, p) + p, |posts|)]
  {
    MulMono(0, page - 1, p);
  }

  /** Every page before the last one is full. */
  lemma FullPage<T>(posts: seq<T>, p: int, page: int)
    requires p > 0
    requires 1 <= page < TotalPages(|posts|, p)
    ensures |PageSlice(posts, p, page)| == p
  {
    PageWindow(posts, p, page);
    MulMono(page, TotalPages(|posts|, p) - 1, p);
  }

  /** The last page holds the remainder `n - (totalPages - 1) * p`, which is at
      least one item and at most a full page. */
  lemma LastPage<T>(posts: seq<T>, p: int)
    requires p > 0
    requires |posts| > 0
    ensures var t := TotalPages(|posts|, p);
            var len := |PageSlice(posts, p, t)|;
            len == |posts| - (t - 1) * p && 1 <= len <= p
  {
    var t := TotalPages(|posts|, p);
    PageWindow(posts, p, t);
  }

  /** Pages after the last one show nothing. */
  lemma PastLastPage<T>(posts: seq<T>, p: int, page: int)
    requires p > 0
    requires page > TotalPages(|posts|, p)
    ensures PageSlice(posts, p, page) == []
  {
    PageWindow(posts, p, page);
    MulMono(TotalPages(|posts|, p), page - 1, p);
  }

  /** Pages 1 to k, shown one after the other. */
  function Pages<T>(posts: seq<T>, p: int, k: nat): seq<T>
  {
    if k == 0 then [] else Pages(posts, p, k - 1) + PageSlice(posts, p, k)
  }

  /** The sizes of pages 1 to k, added up. */
  function PageSizesSum<T>(posts: seq<T>, p: int, k: nat): nat
  {
    if k == 0 then 0 else PageSizesSum(posts, p, k - 1) + |PageSlice(posts, p, k)|
  }

  /** Pages 1 to k, in order, are exactly the first `k * p` items (or all of
      them, if there are fewer). */
  lemma {:induction false} PagesPrefix<T>(posts: seq<T>, p: int, k: nat)
    requires p > 0
    ensures Pages(posts, p, k) == posts[..Min(k * p, |posts|)]
  {
    if k > 0 {
      var start := StartIndex(k, p);
      assert k * p == start + p;
      assert (k - 1) * p == start;
      PagesPrefix(posts, p, k - 1);
      PageWindow(posts, p, k);
      if start < |posts| {
        PrefixExtend(posts, start, Min(start + p, |posts|));
      }
    }
  }

  lemma PrefixExtend<T>(s: seq<T>, a: nat, b: nat)
    requires a <= b <= |s|
    ensures s[..a] + s[a..b] == s[..b]
  {
  }

  /** Reading pages 1 to totalPages in order gives back the whole list: no
      item is lost, repeated or moved. */
  lemma PagesCoverList<T>(posts: seq<T>, p: int)
    requires p > 0
    ensures Pages(posts, p, TotalPages(|posts|, p)) == posts
  {
    PagesPrefix(posts, p, TotalPages(|posts|, p));
  }

  lemma {:induction false} PageSizesSumIsLength<T>(posts: seq<T>, p: int, k: nat)
    ensures PageSizesSum(posts, p, k) == |Pages(posts, p, k)|
  {
    if k > 0 {
      PageSizesSumIsLength(posts, p, k - 1);
    }
  }

  /** The page sizes add up to the number of items. */
  lemma PageSizesAddUp<T>(posts: seq<T>, p: int)
    requires p > 0
    ensures PageSizesSum(posts, p, TotalPages(|posts|, p)) == |posts|
  {
    PagesCoverList(posts, p);
    PageSizesSumIsLength(posts, p, TotalPages(|posts|, p));
  }

  /** Item `i` is shown on page `i / p + 1`, at position `i % p`. */
  lemma ItemPlacement<T>(posts: seq<T>, p: int, i: int)
    requires p > 0
    requires 0 <= i < |posts|
    ensures 1 <= i / p + 1 <= TotalPages(|posts|, p)
    ensures i % p < |PageSlice(posts, p, i / p + 1)|
    ensures PageSlice(posts, p, i / p + 1)[i % p] == posts[i]
  {
    var page, offset := i / p + 1, i % p;
    assert StartIndex(page, p) + offset == i;
    ItemOnPage(posts, p, page, offset);
  }

  /** The item at position `offset` of page `page` is the list's item
      `(page - 1) * p + offset`, and that page is one of the pages. */
  lemma ItemOnPage<T>(posts: seq<T>, p: int, page: int, offset: int)
    requires p > 0 && page >= 1 && 0 <= offset < p
    requires StartIndex(page, p) + offset < |posts|
    ensures page <= TotalPages(|posts|, p)
    ensures offset < |PageSlice(posts, p, page)|
    ensures PageSlice(posts, p, page)[offset] == posts[StartIndex(page, p) + offset]
  {
    var t := TotalPages(|posts|, p);
    if t < page {
      MulMono(t, page - 1, p);
    }
    PageWindow(posts, p, page);
  }
}
