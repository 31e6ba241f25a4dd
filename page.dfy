/** A page of the blog index (`objects/Page.js`, and the same getters in
    `obj/Page.js`): its own slice of posts, its index and all the slices,
    with the file it is written to, its neighbours and the numbers of the
    pager around it. */
module Pages {
  import opened Strings
  import opened Lib

  const PAGER_RADIUS := 5

  datatype Page<T> = Page(chunk: seq<T>, index: int, chunks: seq<seq<T>>)

  /** `posts()`: the page's own slice. */
  function Posts<T>(p: Page<T>): seq<T>
  {
    p.chunk
  }

  function TotalPages<T>(p: Page<T>): nat
  {
    |p.chunks|
  }

  predicate IsHome<T>(p: Page<T>)
  {
    p.index == 0
  }

  /** `!this.index` */
  predicate IsFirstPage<T>(p: Page<T>)
  {
    p.index == 0
  }

  predicate IsLastPage<T>(p: Page<T>)
  {
    p.index == TotalPages(p) - 1
  }

  /** "index.html" for the first page, "index-N.html" after it. */
  function FileName<T>(p: Page<T>): (r: string)
    ensures p.index == 0 <==> r == "index.html"
  {
    if p.index == 0 then "index.html" else "index-" + IntToString(p.index) + ".html"
  }

  /** Different pages are written to different files. */
  lemma FileNamesDiffer<T>(p: Page<T>, q: Page<T>)
    requires p.index >= 0 && q.index >= 0 && p.index != q.index
    ensures FileName(p) != FileName(q)
  {
    if p.index != 0 && q.index != 0 && FileName(p) == FileName(q) {
      var x, y := NatToString(p.index), NatToString(q.index);
      assert "index-" + x + ".html" == "index-" + y + ".html";
      assert x == ("index-" + x + ".html")[6..6 + |x|];
      assert y == ("index-" + y + ".html")[6..6 + |y|];
      NatToStringInjective(p.index, q.index);
    }
  }

  /** The next page, wrapping from the last to the first. */
  function NextPage<T>(p: Page<T>): int
  {
    if p.index + 1 > TotalPages(p) - 1 then 0 else p.index + 1
  }

  /** The previous page, wrapping from the first to the last. */
  function PrevPage<T>(p: Page<T>): int
  {
    if p.index - 1 < 0 then TotalPages(p) - 1 else p.index - 1
  }

  /** On a page of the book, next and previous stay within the book and
      undo each other. */
  lemma NeighboursRoundTrip<T>(p: Page<T>)
    requires 0 <= p.index < TotalPages(p)
    ensures 0 <= NextPage(p) < TotalPages(p) && 0 <= PrevPage(p) < TotalPages(p)
    ensures PrevPage(p.(index := NextPage(p))) == p.index
    ensures NextPage(p.(index := PrevPage(p))) == p.index
    ensures NextPage(p) == 0 <==> IsLastPage(p)
    ensures PrevPage(p) == TotalPages(p) - 1 <==> IsFirstPage(p)
  {
  }

  /** `pager`: the numbers of the pages around this one, computed with
      JavaScript's remainder. */
  function Pager<T>(p: Page<T>): (r: seq<int>)
    requires TotalPages(p) > 0
    ensures |r| == 2 * PAGER_RADIUS + 1
    ensures forall i :: 0 <= i < |r| ==> r[i] == JsRem(p.index - PAGER_RADIUS + i + TotalPages(p), TotalPages(p))
  {
    seq(2 * PAGER_RADIUS + 1, i => JsRem(p.index - PAGER_RADIUS + i + TotalPages(p), TotalPages(p)))
  }

  /** On any page of the book the middle of the pager is this page. */
  lemma PagerCentred<T>(p: Page<T>)
    requires 0 <= p.index < TotalPages(p)
    ensures Pager(p)[PAGER_RADIUS] == p.index
  {
    var n := TotalPages(p);
    DivUnique(p.index + n, n, 1, p.index);
  }

  /** With at least five pages the pager's numbers are all pages of the
      book. */
  lemma PagerInRange<T>(p: Page<T>)
    requires 0 <= p.index < TotalPages(p) && TotalPages(p) >= PAGER_RADIUS
    ensures forall i :: 0 <= i < |Pager(p)| ==> 0 <= Pager(p)[i] < TotalPages(p)
  {
  }

  /** With fewer pages than the radius the numbers run negative: on the
      first of two pages the pager begins with -1. */
  lemma PagerNegative()
    ensures Pager(Page([0], 0, [[0], [1]]))[0] == -1
  {
  }

  /** The pager as evidently intended: the same window, wrapped with the
      Euclidean remainder. */
  function WrappedPager<T>(p: Page<T>): (r: seq<int>)
    requires TotalPages(p) > 0
    ensures |r| == 2 * PAGER_RADIUS + 1
    ensures forall i :: 0 <= i < |r| ==> 0 <= r[i] < TotalPages(p)
  {
    seq(2 * PAGER_RADIUS + 1, i => (p.index - PAGER_RADIUS + i) % TotalPages(p))
  }

  /** The wrapped pager agrees with the written one wherever the latter
      stays in range, puts this page in the middle, and steps through the
      pages in order. */
  lemma WrappedPagerAgrees<T>(p: Page<T>)
    requires 0 <= p.index < TotalPages(p)
    ensures TotalPages(p) >= PAGER_RADIUS ==> WrappedPager(p) == Pager(p)
    ensures WrappedPager(p)[PAGER_RADIUS] == p.index
    ensures forall i :: 0 <= i < 2 * PAGER_RADIUS ==>
      WrappedPager(p)[i + 1] == (WrappedPager(p)[i] + 1) % TotalPages(p)
  {
    var n := TotalPages(p);
    forall i | 0 <= i < 2 * PAGER_RADIUS + 1 && n >= PAGER_RADIUS ensures WrappedPager(p)[i] == Pager(p)[i] {
      var x := p.index - PAGER_RADIUS + i;
      ShiftMod(x, n);
    }
    DivUnique(p.index, n, 0, p.index);
    forall i | 0 <= i < 2 * PAGER_RADIUS ensures WrappedPager(p)[i + 1] == (WrappedPager(p)[i] + 1) % n {
      var x := p.index - PAGER_RADIUS + i;
      SuccMod(x, n);
    }
  }

  lemma ShiftMod(x: int, n: int)
    requires n > 0
    ensures (x + n) % n == x % n
  {
    DivUnique(x + n, n, x / n + 1, x % n);
  }

  lemma SuccMod(x: int, n: int)
    requires n > 0
    ensures (x + 1) % n == (x % n + 1) % n
  {
    var q, r := x / n, x % n;
    if r + 1 < n {
      DivUnique(x + 1, n, q, r + 1);
      DivUnique(r + 1, n, 0, r + 1);
    } else {
      DivUnique(x + 1, n, q + 1, 0);
      DivUnique(r + 1, n, 1, 0);
    }
  }
}
