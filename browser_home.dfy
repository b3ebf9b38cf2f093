/** The browse view of src/components/browser/BrowserHome.tsx: the number of
    pages derived from the list response, the search box, and the pagination
    buttons over the current page. */
module BrowserHome {
  import opened Wrappers
  import opened PageWindow

  type Pos = n: int | n > 0 witness 1

  /** The paging part of a list response: `totalResults` and `pageSize`, as integers. */
  datatype PageStats = PageStats(totalResults: nat, pageSize: Pos)

  /** `totalPages`: `Math.ceil(totalResults / pageSize)` when a response is
      present, 0 while there is none. */
  function TotalPages(placesData: Option<PageStats>): (r: nat)
    ensures placesData.None? ==> r == 0
    ensures placesData.Some? ==>
      var d := placesData.value;
      r * d.pageSize >= d.totalResults && (r - 1) * d.pageSize < d.totalResults
  {
    match placesData
    case None => 0
    case Some(d) => (d.totalResults + d.pageSize - 1) / d.pageSize
  }

  /** No results means no pages, and any result makes at least one page. */
  lemma TotalPagesZero(placesData: Option<PageStats>)
    ensures TotalPages(placesData) == 0 <==> placesData.None? || placesData.value.totalResults == 0
  {
  }

  class BrowserHome {
    var currentPage: int
    var searchTerm: string

    /** `useState(1)` and `useState(place)` */
    constructor(place: string)
      ensures currentPage == 1 && searchTerm == place
    {
      currentPage := 1;
      searchTerm := place;
    }

    /** The buttons between Previous and Next. */
    method PageButtons(placesData: Option<PageStats>) returns (numbers: seq<PageEntry>)
      ensures numbers == Window(currentPage, TotalPages(placesData))
    {
      numbers := GeneratePageNumbers(currentPage, TotalPages(placesData));
    }

    /** Editing the search box stores the text and goes back to page 1. */
    method OnSearchChange(value: string)
      modifies this
      ensures searchTerm == value && currentPage == 1
    {
      searchTerm := value;
      currentPage := 1;
    }

    /** Previous is disabled on page 1; otherwise it moves to `max(page - 1, 1)`. */
    method OnPrevious()
      modifies this`currentPage
      ensures currentPage == if old(currentPage) == 1 then 1 else PreviousPage(old(currentPage))
    {
      if currentPage != 1 {
        currentPage := PreviousPage(currentPage);
      }
    }

    /** Next is disabled on the last page; otherwise it moves to `min(page + 1, totalPages)`. */
    method OnNext(placesData: Option<PageStats>)
      modifies this`currentPage
      ensures var t := TotalPages(placesData);
        currentPage == if old(currentPage) == t then t else NextPage(old(currentPage), t)
    {
      var t := TotalPages(placesData);
      if currentPage != t {
        currentPage := NextPage(currentPage, t);
      }
    }

    /** A page button moves to its page; a "…" button does nothing. */
    method OnPageButton(entry: PageEntry)
      modifies this`currentPage
      ensures currentPage == PageButtonTarget(old(currentPage), entry)
    {
      currentPage := PageButtonTarget(currentPage, entry);
    }
  }

  /** With no response (or no results) Next is still enabled on page 1, and
      clicking it moves to page 0, which then disables Next and enables Previous. */
  lemma NextWithoutPagesGoesToZero(placesData: Option<PageStats>)
    requires TotalPages(placesData) == 0
    ensures 1 != TotalPages(placesData)
    ensures NextPage(1, TotalPages(placesData)) == 0
    ensures PreviousPage(0) == 1
  {
  }
}
