/**
 * Page arithmetic of `render_list` (src/main.rs:62-70): the page count, the
 * coercion of page 0, and the slice of files that a page shows.
 */
module Pager {
  import opened Word16

  function Min(a: int, b: int): int {
    if a <= b then a else b
  }

  /** `Iterator::skip`: everything after the first `n` elements. */
  function Skip<T>(s: seq<T>, n: nat): (r: seq<T>)
    ensures |r| == |s| - Min(n, |s|)
    ensures forall i :: 0 <= i < |r| ==> r[i] == s[n + i]
  {
    if n <= |s| then s[n..] else []
  }

  /** `Iterator::take`: at most the first `n` elements. */
  function Take<T>(s: seq<T>, n: nat): (r: seq<T>)
    ensures |r| == Min(n, |s|)
    ensures forall i :: 0 <= i < |r| ==> r[i] == s[i]
  {
    if n <= |s| then s[..n] else s
  }

  /**
   * `max_pages`: the quotient, plus one when there is a remainder, cast to `u16`
   * (the cast keeps the low 16 bits).
   */
  function MaxPages(fileCount: nat, videoCount: U16): U16
    requires videoCount > 0
  {
    if fileCount % videoCount == 0 then Wrap(fileCount / videoCount)
    else Wrap(fileCount / videoCount + 1)
  }

  lemma MulMonotone(a: int, b: int, c: nat)
    requires a <= b
    ensures a * c <= b * c
  {
    assert b * c - a * c == (b - a) * c;
  }

  lemma MulSucc(a: int, b: int)
    ensures (a + 1) * b == a * b + b
  {
  }

  lemma MulCancel(a: int, b: int, c: nat)
    requires c > 0 && a * c < b * c
    ensures a < b
  {
    if b <= a {
      MulMonotone(b, a, c);
    }
  }

  /** A quotient of at most `bound` pages, rounded up, bounds the count from both sides. */
  lemma RoundedUpQuotient(count: nat, size: nat, q: nat, r: nat, m: nat)
    requires size > 0 && count == q * size + r && r < size
    requires m == if r == 0 then q else q + 1
    ensures m == 0 <==> count == 0
    ensures count > 0 ==> (m - 1) * size < count <= m * size
  {
    if r > 0 {
      MulSucc(q, size);
    } else if q > 0 {
      MulSucc(q - 1, size);
    } else {
      assert count == 0;
    }
  }

  /** Below `bound * size` files, the quotient stays below `bound`, and so does its ceiling. */
  lemma QuotientBelow(count: nat, size: nat, q: nat, r: nat, bound: nat)
    requires size > 0 && count == q * size + r && r < size
    requires count <= bound * size
    ensures q <= bound && (r > 0 ==> q < bound)
  {
    MulCancel(q, bound + 1, size) by {
      MulSucc(bound, size);
    }
    if r > 0 {
      MulCancel(q, bound, size);
    }
  }

  /**
   * While the page count fits in a `u16`, `max_pages` is the least number of pages
   * of `videoCount` files that hold every file: none for no files.
   */
  lemma MaxPagesIsCeiling(fileCount: nat, videoCount: U16)
    requires videoCount > 0
    requires fileCount <= 0xFFFF * videoCount
    ensures MaxPages(fileCount, videoCount) == 0 <==> fileCount == 0
    ensures fileCount > 0 ==>
      (MaxPages(fileCount, videoCount) - 1) * videoCount < fileCount <= MaxPages(fileCount, videoCount) * videoCount
  {
    var q, r := fileCount / videoCount, fileCount % videoCount;
    QuotientBelow(fileCount, videoCount, q, r, 0xFFFF);
    RoundedUpQuotient(fileCount, videoCount, q, r, MaxPages(fileCount, videoCount));
  }

  /** With 65536 pages' worth of files, the cast wraps the page count to 0. */
  lemma MaxPagesWrapsToZero(videoCount: U16)
    requires videoCount > 0
    ensures MaxPages(MODULUS * videoCount, videoCount) == 0
  {
    var n := MODULUS * videoCount;
    assert n / videoCount == MODULUS && n % videoCount == 0 by {
      assert n == MODULUS * videoCount + 0;
    }
  }

  /** The page actually sliced: page 0 is taken to be page 1. */
  function EffectivePage(page: U16): (p: U16)
    ensures p >= 1
    ensures page == 0 ==> p == 1
    ensures page >= 1 ==> p == page
  {
    if page == 0 then 1 else page
  }

  /** `(page - 1) * video_count` on `u16`, which wraps in a release build. */
  function SkipCount(page: U16, videoCount: U16): U16
    requires page >= 1
  {
    Wrap((page - 1) * videoCount)
  }

  /** `files.iter().skip(..).take(video_count)` for an already coerced page. */
  function PageItems(files: seq<string>, page: U16, videoCount: U16): (items: seq<string>)
    requires page >= 1
    ensures |items| <= videoCount
  {
    Take(Skip(files, SkipCount(page, videoCount)), videoCount)
  }

  /** Page 0 and page 1 slice the same files. */
  lemma PageZeroItemsArePageOneItems(files: seq<string>, videoCount: U16)
    ensures PageItems(files, EffectivePage(0), videoCount) == PageItems(files, EffectivePage(1), videoCount)
  {
  }

  /**
   * While `(page - 1) * video_count` fits in a `u16`, page `page` shows exactly the
   * files from position (page-1)*videoCount up to page*videoCount, cut at the end
   * of the list; it shows nothing exactly when its first position is past the end.
   */
  lemma PageItemsSlice(files: seq<string>, page: U16, videoCount: U16)
    requires page >= 1 && videoCount > 0
    requires (page - 1) * videoCount < MODULUS
    ensures PageItems(files, page, videoCount)
      == files[Min((page - 1) * videoCount, |files|)..Min(page * videoCount, |files|)]
    ensures PageItems(files, page, videoCount) == [] <==> (page - 1) * videoCount >= |files|
  {
    var start := (page - 1) * videoCount;
    assert page * videoCount == start + videoCount;
    assert SkipCount(page, videoCount) == start;
    if start <= |files| {
      var rest := files[start..];
      if videoCount <= |rest| {
        assert rest[..videoCount] == files[start..start + videoCount];
      } else {
        assert rest == files[start..|files|];
      }
    }
  }

  /**
   * While the file count and the skip product fit in a `u16`, a page past the last
   * one shows no file.
   */
  lemma PageBeyondLastIsEmpty(files: seq<string>, page: U16, videoCount: U16)
    requires videoCount > 0 && |files| < MODULUS
    requires page > MaxPages(|files|, videoCount)
    requires (page - 1) * videoCount < MODULUS
    ensures PageItems(files, page, videoCount) == []
  {
    var m := MaxPages(|files|, videoCount);
    MulMonotone(1, videoCount, |files|);
    MaxPagesIsCeiling(|files|, videoCount);
    MulMonotone(m, page - 1, videoCount);
    PageItemsSlice(files, page, videoCount);
  }

  /**
   * In a release build a page far past the end shows files from the front of the
   * list again: with 100 files and 10 per page, (6555 - 1) * 10 wraps to 4, so page
   * 6555 of a 10-page gallery shows the files at positions 4 to 13.
   */
  lemma FarPageWrapsToFront(files: seq<string>)
    requires |files| == 100
    ensures MaxPages(|files|, 10) == 10
    ensures PageItems(files, 6555, 10) == files[4..14]
  {
    assert SkipCount(6555, 10) == 4;
  }

  /** The files of pages 1 to n, one page after the other. */
  function PagesUpTo(files: seq<string>, videoCount: U16, n: U16): seq<string> {
    if n == 0 then [] else PagesUpTo(files, videoCount, n - 1) + PageItems(files, n, videoCount)
  }

  /** The first n pages cover the files up to position `end` = n * videoCount, cut at the end. */
  lemma {:induction false} PagesUpToEnd(files: seq<string>, videoCount: U16, n: U16, end: nat)
    requires videoCount > 0 && |files| < MODULUS
    requires end == n * videoCount
    requires n == 0 || end - videoCount < |files|
    ensures PagesUpTo(files, videoCount, n) == files[..Min(end, |files|)]
    decreases n
  {
    if n > 0 {
      var start := end - videoCount;
      assert start == (n - 1) * videoCount by {
        MulSucc(n - 1, videoCount);
      }
      var stop := Min(end, |files|);
      assert start < |files| && start <= stop <= |files|;
      PagesUpToEnd(files, videoCount, n - 1, start);
      PageItemsSlice(files, n, videoCount);
      assert PageItems(files, n, videoCount) == files[start..stop];
      assert files[..start] + files[start..stop] == files[..stop];
    }
  }

  /** Pages 1 to n, taken in order, give the first n * videoCount files, cut at the end. */
  lemma PagesUpToPrefix(files: seq<string>, videoCount: U16, n: U16)
    requires videoCount > 0 && |files| < MODULUS
    requires n == 0 || (n - 1) * videoCount < |files|
    ensures PagesUpTo(files, videoCount, n) == files[..Min(n * videoCount, |files|)]
  {
    MulSucc(n - 1, videoCount);
    PagesUpToEnd(files, videoCount, n, n * videoCount);
  }

  /**
   * With fewer than 65536 files, pages 1 to max_pages taken in order give back the
   * whole listing: no file is shown twice and none is left out.
   */
  lemma PagesPartitionFiles(files: seq<string>, videoCount: U16)
    requires videoCount > 0 && |files| < MODULUS
    ensures PagesUpTo(files, videoCount, MaxPages(|files|, videoCount)) == files
  {
    MulMonotone(1, videoCount, |files|);
    MaxPagesIsCeiling(|files|, videoCount);
    var m := MaxPages(|files|, videoCount);
    PagesUpToPrefix(files, videoCount, m);
    assert files[..|files|] == files;
  }

  /** Three files, two per page: two pages, and page 1 holds the first two files. */
  lemma ThreeFilesTwoPerPage(files: seq<string>)
    requires |files| == 3
    ensures MaxPages(|files|, 2) == 2
    ensures PageItems(files, EffectivePage(1), 2) == files[..2]
    ensures PageItems(files, EffectivePage(2), 2) == files[2..]
  {
  }
}
