/** The static listings page of src/app/browser/page.tsx: the same page window
    over a fixed total of ten pages. */
module BrowserListings {
  import opened PageWindow

  /** `totalPages = 10` */
  const TotalPages: int := 10

  class RestaurantListings {
    var currentPage: int

    /** The page stays within 1 … 10. */
    ghost predicate Valid()
      reads this
    {
      1 <= currentPage <= TotalPages
    }

    constructor()
      ensures Valid() && currentPage == 1
    {
      currentPage := 1;
    }

    method PageButtons() returns (numbers: seq<PageEntry>)
      requires Valid()
      ensures numbers == Window(currentPage, TotalPages)
      ensures 6 <= |numbers| <= 7 && Number(currentPage) in numbers
    {
      numbers := GeneratePageNumbers(currentPage, TotalPages);
      WindowShape(currentPage, TotalPages);
    }

    /** Previous: disabled on page 1, otherwise `max(page - 1, 1)`. */
    method OnPrevious()
      requires Valid()
      modifies this
      ensures Valid()
      ensures currentPage == if old(currentPage) == 1 then 1 else old(currentPage) - 1
    {
      if currentPage != 1 {
        StepsStayInRange(currentPage, TotalPages);
        currentPage := PreviousPage(currentPage);
      }
    }

    /** Next: disabled on page 10, otherwise `min(page + 1, 10)`. */
    method OnNext()
      requires Valid()
      modifies this
      ensures Valid()
      ensures currentPage == if old(currentPage) == TotalPages then TotalPages else old(currentPage) + 1
    {
      if currentPage != TotalPages {
        StepsStayInRange(currentPage, TotalPages);
        currentPage := NextPage(currentPage, TotalPages);
      }
    }

    /** A button of the current window: a number moves there, "…" does nothing. */
    method OnPageButton(entry: PageEntry)
      requires Valid()
      requires entry in Window(currentPage, TotalPages)
      modifies this
      ensures Valid()
      ensures entry.Ellipsis? ==> currentPage == old(currentPage)
      ensures entry.Number? ==> currentPage == entry.page
    {
      ButtonsStayInRange(currentPage, TotalPages, entry);
      currentPage := PageButtonTarget(currentPage, entry);
    }
  }

  /** The three windows the page is known for. */
  lemma TenPageWindows()
    ensures Window(1, TotalPages) == [Number(1), Number(2), Number(3), Number(4), Ellipsis, Number(10)]
    ensures Window(10, TotalPages) == [Number(1), Ellipsis, Number(7), Number(8), Number(9), Number(10)]
    ensures Window(5, TotalPages) == [Number(1), Ellipsis, Number(4), Number(5), Number(6), Ellipsis, Number(10)]
  {
  }

  /** With ten pages the "every page" branch is never taken: every window has an ellipsis. */
  lemma TenPagesAlwaysElided(currentPage: int)
    ensures Ellipsis in Window(currentPage, TotalPages)
  {
    var w := Window(currentPage, TotalPages);
    if currentPage <= HalfWay {
      assert w[4] == Ellipsis;
    } else {
      assert w[1] == Ellipsis;
    }
  }
}
