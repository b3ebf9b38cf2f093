/** The page-button window of the browse views and the clamped Previous/Next
    targets they share. The same `generatePageNumbers` appears in
    src/components/browser/BrowserHome.tsx and src/app/browser/page.tsx; it is
    defined once here. */
module PageWindow {

  /** One button of the window: a page number, or the inert "..." marker. */
  datatype PageEntry = Number(page: int) | Ellipsis

  /** `pagesToShow` */
  const PagesToShow: int := 5
  /** `halfWay = Math.floor(pagesToShow / 2)` */
  const HalfWay: int := PagesToShow / 2

  /** Buttons `lo, lo + 1, …, hi` (none when `hi < lo`). */
  function Range(lo: int, hi: int): (r: seq<PageEntry>)
    ensures |r| == if hi < lo then 0 else hi - lo + 1
    ensures forall i :: 0 <= i < |r| ==> r[i] == Number(lo + i)
  {
    seq(if hi < lo then 0 else hi - lo + 1, i => Number(lo + i))
  }

  /** The window for `currentPage` out of `totalPages`, case by case: every page
      when there are at most five; near the start pages 1–4, "…" and the last;
      near the end the first, "…" and the last four; otherwise the first, "…",
      the current page with its two neighbours, "…" and the last. */
  function Window(currentPage: int, totalPages: int): (r: seq<PageEntry>)
    ensures |r| <= PagesToShow + 2
    ensures totalPages <= PagesToShow ==> Ellipsis !in r
    ensures totalPages > PagesToShow ==>
      Ellipsis in r && r[0] == Number(1) && r[|r| - 1] == Number(totalPages)
  {
    if totalPages <= PagesToShow then
      Range(1, totalPages)
    else if currentPage <= HalfWay then
      Range(1, PagesToShow - 1) + [Ellipsis, Number(totalPages)]
    else if currentPage > totalPages - HalfWay then
      [Number(1), Ellipsis] + Range(totalPages - PagesToShow + 2, totalPages)
    else
      [Number(1), Ellipsis] + Range(currentPage - 1, currentPage + 1) + [Ellipsis, Number(totalPages)]
  }

  /** `generatePageNumbers`: pushes the buttons one by one into `numbers`. */
  method GeneratePageNumbers(currentPage: int, totalPages: int) returns (numbers: seq<PageEntry>)
    ensures numbers == Window(currentPage, totalPages)
  {
    numbers := [];
    if totalPages <= PagesToShow {
      // Array.from({ length: totalPages }, (_, i) => i + 1)
      return seq(if totalPages < 0 then 0 else totalPages, i => Number(i + 1));
    }
    if currentPage <= HalfWay {
      var i := 1;
      while i <= PagesToShow - 1
        invariant 1 <= i <= PagesToShow
        invariant numbers == Range(1, i - 1)
      {
        numbers := numbers + [Number(i)];
        i := i + 1;
      }
      numbers := numbers + [Ellipsis, Number(totalPages)];
    } else if currentPage > totalPages - HalfWay {
      numbers := numbers + [Number(1), Ellipsis];
      var i := totalPages - PagesToShow + 2;
      while i <= totalPages
        invariant totalPages - PagesToShow + 2 <= i <= totalPages + 1
        invariant numbers == [Number(1), Ellipsis] + Range(totalPages - PagesToShow + 2, i - 1)
      {
        numbers := numbers + [Number(i)];
        i := i + 1;
      }
    } else {
      numbers := numbers + [Number(1), Ellipsis];
      var i := currentPage - 1;
      while i <= currentPage + 1
        invariant currentPage - 1 <= i <= currentPage + 2
        invariant numbers == [Number(1), Ellipsis] + Range(currentPage - 1, i - 1)
      {
        numbers := numbers + [Number(i)];
        i := i + 1;
      }
      numbers := numbers + [Ellipsis, Number(totalPages)];
    }
  }

  // ---------------------------------------------------------------------------
  // What the window promises

  /** Every page that is skipped is marked: "…" is never first or last and sits
      between two page numbers that increase across it, and two page numbers
      side by side are consecutive. */
  ghost predicate GapMarked(w: seq<PageEntry>) {
    && (forall i :: 0 <= i < |w| && w[i].Ellipsis? ==>
          0 < i < |w| - 1 && w[i - 1].Number? && w[i + 1].Number? && w[i - 1].page < w[i + 1].page)
    && (forall i :: 0 <= i < |w| - 1 && w[i].Number? && w[i + 1].Number? ==> w[i + 1].page == w[i].page + 1)
  }

  /** The page numbers of the window, left to right, strictly increase. */
  ghost predicate Increasing(w: seq<PageEntry>) {
    forall i, j :: 0 <= i < j < |w| && w[i].Number? && w[j].Number? ==> w[i].page < w[j].page
  }

  /** With at most five pages the window is exactly the buttons 1 … totalPages. */
  lemma SmallWindowIsAllPages(currentPage: int, totalPages: int)
    requires totalPages <= PagesToShow
    ensures |Window(currentPage, totalPages)| == if totalPages < 0 then 0 else totalPages
    ensures forall i :: 0 <= i < |Window(currentPage, totalPages)| ==> Window(currentPage, totalPages)[i] == Number(i + 1)
  {
  }

  /** For a current page in range the window starts at page 1, ends at the last
      page, marks every gap (GapMarked), holds the current page, and has at
      most seven buttons. */
  lemma WindowShape(currentPage: int, totalPages: int)
    requires 1 <= currentPage <= totalPages
    ensures var w := Window(currentPage, totalPages);
      && 1 <= |w| <= 7
      && w[0] == Number(1) && w[|w| - 1] == Number(totalPages)
      && GapMarked(w)
      && Number(currentPage) in w
  {
    var w := Window(currentPage, totalPages);
    var t := totalPages;
    if t <= PagesToShow {
      assert w[currentPage - 1] == Number(currentPage);
    } else if currentPage <= HalfWay {
      StartWindowShape(currentPage, t);
    } else if currentPage > t - HalfWay {
      EndWindowShape(currentPage, t);
    } else {
      MiddleWindowShape(currentPage, t);
    }
  }

  /** Near the start: `1 2 3 4 … totalPages`. */
  lemma StartWindowShape(currentPage: int, t: int)
    requires 1 <= currentPage <= HalfWay && t > PagesToShow
    ensures var w := Window(currentPage, t);
      w == [Number(1), Number(2), Number(3), Number(4), Ellipsis, Number(t)] &&
      GapMarked(w) && Number(currentPage) in w
  {
    var w := Window(currentPage, t);
    assert Range(1, PagesToShow - 1) == [Number(1), Number(2), Number(3), Number(4)];
    assert w == [Number(1), Number(2), Number(3), Number(4), Ellipsis, Number(t)];
    assert w[currentPage - 1] == Number(currentPage);
    StartGaps(t);
  }

  /** The gap after page 4 is marked. */
  lemma StartGaps(t: int)
    requires t > PagesToShow
    ensures GapMarked([Number(1), Number(2), Number(3), Number(4), Ellipsis, Number(t)])
  {
    var w := [Number(1), Number(2), Number(3), Number(4), Ellipsis, Number(t)];
    forall i | 0 <= i < |w| && w[i].Ellipsis?
      ensures 0 < i < |w| - 1 && w[i - 1].Number? && w[i + 1].Number? && w[i - 1].page < w[i + 1].page
    {
      assert i == 4;
    }
  }

  /** Near the end: `1 … t-3 t-2 t-1 t`. */
  lemma EndWindowShape(currentPage: int, t: int)
    requires t - HalfWay < currentPage <= t && t > PagesToShow
    ensures var w := Window(currentPage, t);
      w == [Number(1), Ellipsis, Number(t - 3), Number(t - 2), Number(t - 1), Number(t)] &&
      GapMarked(w) && Number(currentPage) in w
  {
    var w := Window(currentPage, t);
    assert Range(t - PagesToShow + 2, t) == [Number(t - 3), Number(t - 2), Number(t - 1), Number(t)];
    assert w == [Number(1), Ellipsis, Number(t - 3), Number(t - 2), Number(t - 1), Number(t)];
    assert w[currentPage - t + 5] == Number(currentPage);
    EndGaps(t);
  }

  /** The gap before page t - 3 is marked. */
  lemma EndGaps(t: int)
    requires t > PagesToShow
    ensures GapMarked([Number(1), Ellipsis, Number(t - 3), Number(t - 2), Number(t - 1), Number(t)])
  {
    var w := [Number(1), Ellipsis, Number(t - 3), Number(t - 2), Number(t - 1), Number(t)];
    forall i | 0 <= i < |w| && w[i].Ellipsis?
      ensures 0 < i < |w| - 1 && w[i - 1].Number? && w[i + 1].Number? && w[i - 1].page < w[i + 1].page
    {
      assert i == 1;
    }
  }

  /** In between: `1 … c-1 c c+1 … t`. */
  lemma MiddleWindowShape(c: int, t: int)
    requires HalfWay < c <= t - HalfWay && t > PagesToShow
    ensures var w := Window(c, t);
      w == [Number(1), Ellipsis, Number(c - 1), Number(c), Number(c + 1), Ellipsis, Number(t)] &&
      GapMarked(w) && Number(c) in w
  {
    var w := Window(c, t);
    assert Range(c - 1, c + 1) == [Number(c - 1), Number(c), Number(c + 1)];
    assert w == [Number(1), Ellipsis, Number(c - 1), Number(c), Number(c + 1), Ellipsis, Number(t)];
    assert w[3] == Number(c);
    MiddleGaps(c, t);
  }

  /** Both gaps around the current page and its neighbours are marked. */
  lemma MiddleGaps(c: int, t: int)
    requires HalfWay < c <= t - HalfWay && t > PagesToShow
    ensures GapMarked([Number(1), Ellipsis, Number(c - 1), Number(c), Number(c + 1), Ellipsis, Number(t)])
  {
    var w := [Number(1), Ellipsis, Number(c - 1), Number(c), Number(c + 1), Ellipsis, Number(t)];
    forall i | 0 <= i < |w| && w[i].Ellipsis?
      ensures 0 < i < |w| - 1 && w[i - 1].Number? && w[i + 1].Number? && w[i - 1].page < w[i + 1].page
    {
      assert i == 1 || i == 5;
    }
  }

  /** With current page 3 (or totalPages - 2) of more than five, the middle
      branch puts a "…" between two consecutive pages: `1 … 2 3 4 … totalPages`
      (and `1 … t-3 t-2 t-1 … t`). */
  lemma EllipsisWithoutGap(totalPages: int)
    requires totalPages > PagesToShow
    ensures Window(3, totalPages)[1] == Ellipsis
    ensures Window(3, totalPages)[0] == Number(1) && Window(3, totalPages)[2] == Number(2)
    ensures Window(totalPages - 2, totalPages)[5] == Ellipsis
    ensures Window(totalPages - 2, totalPages)[4] == Number(totalPages - 1)
    ensures Window(totalPages - 2, totalPages)[6] == Number(totalPages)
  {
  }

  /** A gap-marked window is increasing. */
  lemma {:induction false} GapMarkedIncreasing(w: seq<PageEntry>)
    requires GapMarked(w)
    ensures Increasing(w)
  {
    forall i, j | 0 <= i < j < |w| && w[i].Number? && w[j].Number?
      ensures w[i].page < w[j].page
    {
      NextNumberAbove(w, i, j);
    }
  }

  /** In a gap-marked window, the page numbers after position `i` lie above `w[i]`. */
  lemma {:induction false} NextNumberAbove(w: seq<PageEntry>, i: int, j: int)
    requires GapMarked(w)
    requires 0 <= i < j < |w| && w[i].Number? && w[j].Number?
    ensures w[i].page < w[j].page
    decreases j - i
  {
    if w[i + 1].Number? {
      if i + 1 < j {
        NextNumberAbove(w, i + 1, j);
      }
    } else {
      assert w[i + 1].Ellipsis? && w[i + 2].Number?;
      if i + 2 < j {
        NextNumberAbove(w, i + 2, j);
      }
    }
  }

  /** The numbers of a window for an in-range page increase and stay within 1 … totalPages. */
  lemma WindowNumbersInRange(currentPage: int, totalPages: int)
    requires 1 <= currentPage <= totalPages
    ensures Increasing(Window(currentPage, totalPages))
    ensures forall e :: e in Window(currentPage, totalPages) && e.Number? ==> 1 <= e.page <= totalPages
  {
    var w := Window(currentPage, totalPages);
    WindowShape(currentPage, totalPages);
    GapMarkedIncreasing(w);
    forall e | e in w && e.Number? ensures 1 <= e.page <= totalPages {
      var k :| 0 <= k < |w| && w[k] == e;
      if k > 0 {
        assert w[0].page < e.page;
      }
      if k < |w| - 1 {
        assert e.page < w[|w| - 1].page;
      }
    }
  }

  // ---------------------------------------------------------------------------
  // The Previous, Next and page buttons

  /** `Math.max(prev - 1, 1)` */
  function PreviousPage(currentPage: int): (r: int)
    ensures r >= 1
    ensures currentPage > 1 ==> r == currentPage - 1
    ensures currentPage <= 1 ==> r == 1
  {
    if currentPage - 1 > 1 then currentPage - 1 else 1
  }

  /** `Math.min(prev + 1, totalPages)` */
  function NextPage(currentPage: int, totalPages: int): (r: int)
    ensures r <= totalPages
    ensures currentPage < totalPages ==> r == currentPage + 1
    ensures currentPage >= totalPages ==> r == totalPages
  {
    if currentPage + 1 < totalPages then currentPage + 1 else totalPages
  }

  /** A page button: a number moves to that page, "…" leaves the page as it is. */
  function PageButtonTarget(currentPage: int, entry: PageEntry): (r: int)
    ensures entry.Ellipsis? ==> r == currentPage
    ensures entry.Number? ==> r == entry.page
  {
    match entry
    case Number(p) => p
    case Ellipsis => currentPage
  }

  /** Previous and Next keep a page that is within 1 … totalPages within it. */
  lemma StepsStayInRange(currentPage: int, totalPages: int)
    requires 1 <= currentPage <= totalPages
    ensures 1 <= PreviousPage(currentPage) <= currentPage
    ensures currentPage <= NextPage(currentPage, totalPages) <= totalPages
  {
  }

  /** Every button of an in-range window leads to a page within 1 … totalPages. */
  lemma ButtonsStayInRange(currentPage: int, totalPages: int, entry: PageEntry)
    requires 1 <= currentPage <= totalPages
    requires entry in Window(currentPage, totalPages)
    ensures 1 <= PageButtonTarget(currentPage, entry) <= totalPages
  {
    WindowNumbersInRange(currentPage, totalPages);
  }
}
