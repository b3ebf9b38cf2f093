/** The visit history of src/components/history/HistoryPage.tsx: which page
    items the pagination bar renders, where Previous and Next lead, and the
    label a history card shows for a place's types. */
module HistoryPage {
  import opened Wrappers
  import opened JsText
  import PageWindow

  // ---------------------------------------------------------------------------
  // The pagination bar

  /** What the bar renders for one page index (keyed by the page number). */
  datatype PageItem = Link(page: int, active: bool) | Ellipsis(page: int)

  /** Above this many pages the bar is elided. */
  const ElideAbove: int := 7

  /** The bar is rendered only when there is more than one page. */
  function ShowsPagination(totalPages: Option<int>): (r: bool)
    ensures r <==> totalPages.Some? && totalPages.value > 1
  {
    totalPages.GetOr(0) > 1
  }

  /** The link test on an elided bar: first page, last page, or a neighbour of the current page. */
  predicate IsLinkPage(page: int, currentPage: int, totalPages: int) {
    page == 1 || page == totalPages || (currentPage - 1 <= page <= currentPage + 1)
  }

  /** The ellipsis test on an elided bar, tried only when the link test fails. */
  predicate IsEllipsisPage(page: int, currentPage: int) {
    page == currentPage - 2 || page == currentPage + 2
  }

  /** On an elided bar, page `page` is shown as an ellipsis. */
  predicate IsElidedPage(page: int, currentPage: int, totalPages: int) {
    !IsLinkPage(page, currentPage, totalPages) && IsEllipsisPage(page, currentPage)
  }

  /** The callback of the `map` for page `page`, with `None` for `return null`. */
  function ItemFor(page: int, currentPage: int, totalPages: int): (r: Option<PageItem>)
    ensures r.Some? ==> r.value.page == page
    ensures r.Some? && r.value.Link? ==> (r.value.active <==> page == currentPage)
    ensures totalPages <= ElideAbove ==> r.Some? && r.value.Link?
    ensures page == 1 || page == totalPages ==> r.Some? && r.value.Link?
  {
    if totalPages > ElideAbove then
      if IsLinkPage(page, currentPage, totalPages) then Some(Link(page, currentPage == page))
      else if IsEllipsisPage(page, currentPage) then Some(Ellipsis(page))
      else None
    else Some(Link(page, currentPage == page))
  }

  /** The items rendered for pages `from … totalPages`, in order. */
  function ItemsFrom(from: int, currentPage: int, totalPages: int): (r: seq<PageItem>)
    ensures forall i :: 0 <= i < |r| ==> from <= r[i].page <= totalPages
    ensures totalPages <= ElideAbove ==> |r| == if from > totalPages then 0 else totalPages - from + 1
    decreases totalPages - from + 1
  {
    if from > totalPages then []
    else
      (match ItemFor(from, currentPage, totalPages)
       case None => []
       case Some(item) => [item])
      + ItemsFrom(from + 1, currentPage, totalPages)
  }

  /** `[...Array(totalPages)].map(...)`: the items for pages 1 … totalPages. */
  function PageItems(currentPage: int, totalPages: int): (r: seq<PageItem>)
    ensures forall i :: 0 <= i < |r| ==> 1 <= r[i].page <= totalPages
    ensures 0 <= totalPages <= ElideAbove ==> |r| == totalPages
  {
    ItemsFrom(1, currentPage, totalPages)
  }

  /** An item is rendered exactly when its page is in range and the callback returns it. */
  lemma {:induction false} ItemsFromMembers(from: int, currentPage: int, totalPages: int, item: PageItem)
    ensures item in ItemsFrom(from, currentPage, totalPages) <==>
      from <= item.page <= totalPages && ItemFor(item.page, currentPage, totalPages) == Some(item)
    decreases totalPages - from + 1
  {
    if from <= totalPages {
      ItemsFromMembers(from + 1, currentPage, totalPages, item);
    }
  }

  /** The pages of `items`, left to right, strictly increase. */
  predicate PagesIncrease(items: seq<PageItem>) {
    forall i, j :: 0 <= i < j < |items| ==> items[i].page < items[j].page
  }

  /** The items come in increasing page order, each page at most once. */
  lemma {:induction false} ItemsFromIncreasing(from: int, currentPage: int, totalPages: int)
    ensures PagesIncrease(ItemsFrom(from, currentPage, totalPages))
    decreases totalPages - from + 1
  {
    if from <= totalPages {
      var items := ItemsFrom(from, currentPage, totalPages);
      var rest := ItemsFrom(from + 1, currentPage, totalPages);
      ItemsFromIncreasing(from + 1, currentPage, totalPages);
      forall k | 0 <= k < |rest| ensures rest[k].page > from {
        ItemsFromMembers(from + 1, currentPage, totalPages, rest[k]);
      }
      match ItemFor(from, currentPage, totalPages)
      case None =>
        assert items == rest;
      case Some(item) =>
        assert items == [item] + rest;
        assert item.page == from;
        forall i, j | 0 <= i < j < |items| ensures items[i].page < items[j].page {
          assert items[j] == rest[j - 1];
          if i > 0 {
            assert items[i] == rest[i - 1];
          }
        }
    }
  }

  /** Up to seven pages, every page is a link, in order. */
  lemma {:induction false} SmallBarAllLinks(from: int, currentPage: int, totalPages: int)
    requires totalPages <= ElideAbove && from <= totalPages + 1
    ensures var items := ItemsFrom(from, currentPage, totalPages);
      && |items| == totalPages - from + 1
      && forall i :: 0 <= i < |items| ==> items[i] == Link(from + i, currentPage == from + i)
    decreases totalPages - from + 1
  {
    if from <= totalPages {
      SmallBarAllLinks(from + 1, currentPage, totalPages);
    }
  }

  /** Above seven pages, page `p` is a link iff it is the first, the last or a
      neighbour of the current page; otherwise it is an ellipsis iff it is two
      away from the current page; and otherwise nothing is rendered for it. */
  lemma LargeBarItems(currentPage: int, totalPages: int, p: int)
    requires totalPages > ElideAbove && 1 <= p <= totalPages
    ensures Link(p, currentPage == p) in PageItems(currentPage, totalPages) <==> IsLinkPage(p, currentPage, totalPages)
    ensures Ellipsis(p) in PageItems(currentPage, totalPages) <==>
      !IsLinkPage(p, currentPage, totalPages) && IsEllipsisPage(p, currentPage)
    ensures !IsLinkPage(p, currentPage, totalPages) && !IsEllipsisPage(p, currentPage) ==>
      forall item :: item in PageItems(currentPage, totalPages) ==> item.page != p
  {
    ItemsFromMembers(1, currentPage, totalPages, Link(p, currentPage == p));
    ItemsFromMembers(1, currentPage, totalPages, Ellipsis(p));
    forall item | item in PageItems(currentPage, totalPages) ensures
      !IsLinkPage(p, currentPage, totalPages) && !IsEllipsisPage(p, currentPage) ==> item.page != p
    {
      ItemsFromMembers(1, currentPage, totalPages, item);
    }
  }

  // Counting the items of an elided bar

  function NumLinks(items: seq<PageItem>): nat {
    if |items| == 0 then 0 else (if items[0].Link? then 1 else 0) + NumLinks(items[1..])
  }

  function NumEllipses(items: seq<PageItem>): nat {
    if |items| == 0 then 0 else (if items[0].Ellipsis? then 1 else 0) + NumEllipses(items[1..])
  }

  /** The pages from `from` on that an elided bar shows as links. */
  ghost function LinkPages(from: int, currentPage: int, totalPages: int): set<int> {
    set p | from <= p <= totalPages && IsLinkPage(p, currentPage, totalPages)
  }

  /** The pages from `from` on that an elided bar shows as ellipses. */
  ghost function EllipsisPages(from: int, currentPage: int, totalPages: int): set<int> {
    set p | from <= p <= totalPages && IsElidedPage(p, currentPage, totalPages)
  }

  lemma NumLinksCons(head: seq<PageItem>, rest: seq<PageItem>)
    requires |head| <= 1
    ensures NumLinks(head + rest) == NumLinks(head) + NumLinks(rest)
    ensures NumEllipses(head + rest) == NumEllipses(head) + NumEllipses(rest)
  {
    if |head| == 1 {
      assert (head + rest)[1..] == rest;
    } else {
      assert head + rest == rest;
    }
  }

  /** One step of the bar: the item for page `from` (if any), then the rest. */
  lemma ItemsFromStep(from: int, currentPage: int, totalPages: int)
    requires from <= totalPages
    ensures var head := match ItemFor(from, currentPage, totalPages) case None => [] case Some(item) => [item];
      && ItemsFrom(from, currentPage, totalPages) == head + ItemsFrom(from + 1, currentPage, totalPages)
      && NumLinks(ItemsFrom(from, currentPage, totalPages))
         == (if head != [] && head[0].Link? then 1 else 0) + NumLinks(ItemsFrom(from + 1, currentPage, totalPages))
      && NumEllipses(ItemsFrom(from, currentPage, totalPages))
         == (if head != [] && head[0].Ellipsis? then 1 else 0) + NumEllipses(ItemsFrom(from + 1, currentPage, totalPages))
  {
    var head := match ItemFor(from, currentPage, totalPages) case None => [] case Some(item) => [item];
    NumLinksCons(head, ItemsFrom(from + 1, currentPage, totalPages));
  }

  lemma {:induction false} LinkCountMatchesPages(from: int, currentPage: int, totalPages: int)
    requires totalPages > ElideAbove
    ensures NumLinks(ItemsFrom(from, currentPage, totalPages)) == |LinkPages(from, currentPage, totalPages)|
    decreases totalPages - from + 1
  {
    if from > totalPages {
      assert LinkPages(from, currentPage, totalPages) == {};
    } else {
      LinkCountMatchesPages(from + 1, currentPage, totalPages);
      LinkStep(from, currentPage, totalPages);
    }
  }

  /** Page `from` adds one link to the bar and one page to LinkPages, or neither. */
  lemma LinkStep(from: int, currentPage: int, totalPages: int)
    requires totalPages > ElideAbove && from <= totalPages
    ensures var k := if IsLinkPage(from, currentPage, totalPages) then 1 else 0;
      && NumLinks(ItemsFrom(from, currentPage, totalPages)) == k + NumLinks(ItemsFrom(from + 1, currentPage, totalPages))
      && |LinkPages(from, currentPage, totalPages)| == k + |LinkPages(from + 1, currentPage, totalPages)|
  {
    ItemsFromStep(from, currentPage, totalPages);
    if IsLinkPage(from, currentPage, totalPages) {
      assert ItemFor(from, currentPage, totalPages) == Some(Link(from, currentPage == from));
    } else {
      assert ItemFor(from, currentPage, totalPages).None? || ItemFor(from, currentPage, totalPages).value.Ellipsis?;
    }
    LinkPagesStep(from, currentPage, totalPages);
  }

  /** LinkPages from `from` is LinkPages from `from + 1`, plus `from` when it is a link page. */
  lemma LinkPagesStep(from: int, currentPage: int, totalPages: int)
    requires from <= totalPages
    ensures |LinkPages(from, currentPage, totalPages)|
      == (if IsLinkPage(from, currentPage, totalPages) then 1 else 0) + |LinkPages(from + 1, currentPage, totalPages)|
  {
    var links, restLinks := LinkPages(from, currentPage, totalPages), LinkPages(from + 1, currentPage, totalPages);
    assert links - {from} == restLinks;
    if IsLinkPage(from, currentPage, totalPages) {
      assert from in links;
    } else {
      assert from !in links;
    }
  }

  lemma {:induction false} EllipsisCountMatchesPages(from: int, currentPage: int, totalPages: int)
    requires totalPages > ElideAbove
    ensures NumEllipses(ItemsFrom(from, currentPage, totalPages)) == |EllipsisPages(from, currentPage, totalPages)|
    decreases totalPages - from + 1
  {
    if from > totalPages {
      assert EllipsisPages(from, currentPage, totalPages) == {};
    } else {
      EllipsisCountMatchesPages(from + 1, currentPage, totalPages);
      EllipsisStep(from, currentPage, totalPages);
    }
  }

  /** Page `from` adds one ellipsis to the bar and one page to EllipsisPages, or neither. */
  lemma EllipsisStep(from: int, currentPage: int, totalPages: int)
    requires totalPages > ElideAbove && from <= totalPages
    ensures var k := if IsElidedPage(from, currentPage, totalPages) then 1 else 0;
      && NumEllipses(ItemsFrom(from, currentPage, totalPages)) == k + NumEllipses(ItemsFrom(from + 1, currentPage, totalPages))
      && |EllipsisPages(from, currentPage, totalPages)| == k + |EllipsisPages(from + 1, currentPage, totalPages)|
  {
    ItemsFromStep(from, currentPage, totalPages);
    if IsElidedPage(from, currentPage, totalPages) {
      assert ItemFor(from, currentPage, totalPages) == Some(Ellipsis(from));
    } else {
      assert ItemFor(from, currentPage, totalPages).None? || ItemFor(from, currentPage, totalPages).value.Link?;
    }
    EllipsisPagesStep(from, currentPage, totalPages);
  }

  /** EllipsisPages from `from` is EllipsisPages from `from + 1`, plus `from` when it is elided. */
  lemma EllipsisPagesStep(from: int, currentPage: int, totalPages: int)
    requires from <= totalPages
    ensures |EllipsisPages(from, currentPage, totalPages)|
      == (if IsElidedPage(from, currentPage, totalPages) then 1 else 0) + |EllipsisPages(from + 1, currentPage, totalPages)|
  {
    var dots, restDots := EllipsisPages(from, currentPage, totalPages), EllipsisPages(from + 1, currentPage, totalPages);
    assert dots - {from} == restDots;
    if IsElidedPage(from, currentPage, totalPages) {
      assert from in dots;
    } else {
      assert from !in dots;
    }
  }

  /** A subset is no larger than its superset. */
  lemma SubsetCardinality(a: set<int>, b: set<int>)
    requires a <= b
    ensures |a| <= |b|
  {
    assert b == a + (b - a);
  }

  /** An elided bar renders at most five links and at most two ellipses. */
  lemma LargeBarSize(currentPage: int, totalPages: int)
    requires totalPages > ElideAbove
    ensures NumLinks(PageItems(currentPage, totalPages)) <= 5
    ensures NumEllipses(PageItems(currentPage, totalPages)) <= 2
  {
    LinkCountMatchesPages(1, currentPage, totalPages);
    EllipsisCountMatchesPages(1, currentPage, totalPages);
    var c := currentPage;
    SubsetCardinality(LinkPages(1, c, totalPages), {1, totalPages, c - 1, c, c + 1});
    SubsetCardinality(EllipsisPages(1, c, totalPages), {c - 2, c + 2});
  }

  // ---------------------------------------------------------------------------
  // Navigation state

  class HistoryPage {
    var currentPage: int

    constructor()
      ensures currentPage == 1
    {
      currentPage := 1;
    }

    /** `handlePageChange` (the scroll to the top is not modelled). */
    method HandlePageChange(page: int)
      modifies this
      ensures currentPage == page
    {
      currentPage := page;
    }

    /** A rendered page link leads to its page; an ellipsis has no handler. */
    method OnPageLink(item: PageItem)
      requires item.Link?
      modifies this
      ensures currentPage == item.page
    {
      HandlePageChange(item.page);
    }

    /** Previous is inert without a previous page; otherwise it leads to `max(1, page - 1)`. */
    method OnPrevious(hasPreviousPage: bool)
      modifies this
      ensures currentPage == if hasPreviousPage then PageWindow.PreviousPage(old(currentPage)) else old(currentPage)
    {
      if hasPreviousPage {
        HandlePageChange(PageWindow.PreviousPage(currentPage));
      }
    }

    /** Next is inert without a next page; otherwise it leads to `min(totalPages ?? 1, page + 1)`. */
    method OnNext(totalPages: Option<int>, hasNextPage: bool)
      modifies this
      ensures currentPage == if hasNextPage then PageWindow.NextPage(old(currentPage), totalPages.GetOr(1)) else old(currentPage)
    {
      if hasNextPage {
        HandlePageChange(PageWindow.NextPage(currentPage, totalPages.GetOr(1)));
      }
    }
  }

  // ---------------------------------------------------------------------------
  // The card's type label

  /** The types a card prefers to show, in no particular order. */
  const PriorityTypes: seq<string> := ["restaurant", "cafe", "bar", "store", "park"]

  /** `types.find(t => priorityTypes.includes(t))`, from index `from`, as an index. */
  function FindPriority(types: seq<string>, from: nat): (r: Option<nat>)
    ensures r.Some? ==> from <= r.value < |types| && types[r.value] in PriorityTypes
    ensures r.Some? ==> forall j :: from <= j < r.value ==> types[j] !in PriorityTypes
    ensures r.None? ==> forall j :: from <= j < |types| ==> types[j] !in PriorityTypes
    decreases |types| - from
  {
    if from >= |types| then None
    else if types[from] in PriorityTypes then Some(from)
    else FindPriority(types, from + 1)
  }

  /** `types[k]` is the first priority type of the list. */
  predicate FirstPriorityAt(types: seq<string>, k: int) {
    0 <= k < |types| && types[k] in PriorityTypes && forall j :: 0 <= j < k ==> types[j] !in PriorityTypes
  }

  /** The search from the start stops at the first priority type, if any. */
  lemma FindPriorityIsFirst(types: seq<string>)
    ensures forall k :: FirstPriorityAt(types, k) ==> FindPriority(types, 0) == Some(k)
  {
  }

  /** `getPrimaryType`: "Lugar" for missing or empty types; else the first
      priority type in list order, capitalised; else the first type as it is. */
  function PrimaryType(types: Option<seq<string>>): (r: string)
    ensures types.None? || |types.value| == 0 ==> r == "Lugar"
    ensures types.Some? ==> forall k :: FirstPriorityAt(types.value, k) ==> r == Capitalize(types.value[k])
    ensures types.Some? && |types.value| > 0 && (forall k :: 0 <= k < |types.value| ==> types.value[k] !in PriorityTypes)
      ==> r == types.value[0]
  {
    match types
    case None => "Lugar"
    case Some(ts) =>
      FindPriorityIsFirst(ts);
      if |ts| == 0 then "Lugar"
      else match FindPriority(ts, 0)
        case Some(k) => Capitalize(ts[k])
        case None => ts[0]
  }

  /** A priority type later in the list wins over an earlier other type, and
      an empty list shows "Lugar". */
  lemma PrimaryTypeLabels()
    ensures PrimaryType(Some(["point_of_interest", "cafe", "restaurant"])) == "Cafe"
    ensures PrimaryType(Some([])) == "Lugar"
  {
    assert Capitalize("cafe") == "Cafe";
    var ts := ["point_of_interest", "cafe", "restaurant"];
    assert ts[0] !in PriorityTypes;
    assert PrimaryType(Some(ts)) == Capitalize(ts[1]);
  }

  /** Priority types are shown with a capital initial. */
  lemma PriorityLabels()
    ensures Capitalize("restaurant") == "Restaurant" && Capitalize("park") == "Park"
  {
    assert Capitalize("restaurant") == [ToUpperChar('r')] + "estaurant";
    assert Capitalize("park") == [ToUpperChar('p')] + "ark";
  }

  /** A list without a priority type shows its first type unchanged. */
  lemma PrimaryTypeWithoutPriority()
    ensures PrimaryType(Some(["food", "establishment"])) == "food"
  {
    var fs := ["food", "establishment"];
    assert fs[0] !in PriorityTypes;
    assert fs[1] !in PriorityTypes;
    assert forall k :: 0 <= k < |fs| ==> fs[k] !in PriorityTypes;
  }
}
