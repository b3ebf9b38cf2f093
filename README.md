# FeliFoodie front end: a verified model of its logic

FeliFoodie is a Next.js / React front end for finding restaurants: a home page with
a location typeahead and a carousel of restaurants by city, a browse view with a map
and paginated results, a restaurant detail page, and a visit history. Most of it is
markup over a REST API and a maps widget. This project models, in Dafny, the small
deterministic pieces of logic inside those components and proves what they promise.

One module per component, plus three shared ones:

- `Wrappers` (`wrappers.dfy`): `Option` stands for a JavaScript value that may be
  `undefined` or `null`, and `Result` for an expression that may throw a `TypeError`.
- `JsText` (`js_text.dfy`): the string built-ins the components call (`indexOf`,
  `split`, `join`, `toLowerCase`, `charAt(0).toUpperCase()`, `replace(/x/g, …)`,
  `slice`, `toString`, `parseInt`). It proves their round trips, for example that
  `parseInt` reads back what `toString` writes and that `split(c).join("")` deletes `c`.
- `PageWindow` (`page_window.dfy`): `generatePageNumbers` and the clamped
  Previous/Next targets. This code appears twice in the source, in the browse view
  and in the static listings page, and is defined once here.

The component modules are:

- `BrowserHome`: the browse view, with its page count and search box.
- `BrowserListings`: the static listings page, with ten pages.
- `HistoryPage`: the history, with its own pagination rule and type label.
- `CommandSearch`: the typeahead control.
- `BrowserMap`: the map, covering its centre, markers, selection and favourites.
- `RestaurantPage`: the detail page, covering render order, the visit record,
  opening hours, review counts and text shaping.
- `RestaurantCarousel`: the home carousel and its cards.

State that a component keeps in React `useState` becomes a Dafny `class`. Each
event handler becomes a `method` whose `ensures` gives the whole new state. The
rendered values and the derived values become functions, and lemmas state what
the component promises. A disabled button or a `pointer-events-none` button
becomes a guard inside the handler. The fetched payloads, the current clock
reading and the debounce timer firing are all parameters or separate methods.

## Model

| member | source | states |
|---|---|---|
| JsText.IndexOf | src/components/restaurant/RestaurantPage.tsx:136 | `indexOf`: the first occurrence of the separator, with nothing earlier; none when it occurs nowhere |
| JsText.Split | src/components/restaurant/RestaurantPage.tsx:136-137 | `split` yields at least one piece |
| JsText.JoinSplit | src/components/restaurant/RestaurantPage.tsx:139 | joining the pieces of a split with the same separator gives the original string back |
| JsText.Join | src/components/restaurant/RestaurantPage.tsx:139-140 | `join`: a non-empty list's text begins with its first part |
| JsText.SplitPiecesFree | src/components/restaurant/RestaurantPage.tsx:479 | no piece of a split contains the separator |
| JsText.SplitNoSeparator | src/components/restaurant/RestaurantPage.tsx:137 | a string without the separator splits into itself alone |
| JsText.SplitOnce | src/components/restaurant/RestaurantPage.tsx:136-137 | `a + sep + b` splits into exactly `[a, b]` when the separator cannot start inside `a` nor end inside `b` |
| JsText.JoinAppend | src/components/restaurant/RestaurantPage.tsx:479 | joining two non-empty piece lists puts exactly one separator between the two joins |
| JsText.RemoveChar | src/components/restaurant/RestaurantPage.tsx:139 | the reference for deleting a character: the result never contains it and is no longer than the input |
| JsText.RemoveCharAppend | src/components/restaurant/RestaurantPage.tsx:139 | deleting a character distributes over concatenation |
| JsText.SplitJoinRemoves | src/components/restaurant/RestaurantPage.tsx:139 | `s.split(c).join("")` deletes every `c` and keeps the other characters in order |
| JsText.ToLowerCase | src/components/home/RestaurantCarousel.tsx:72 | `toLowerCase` keeps the length and maps every character by the per-letter rule (A-Z and Latin-1 capitals down, all else unchanged) |
| JsText.StartsWith | src/components/restaurant/RestaurantPage.tsx:132 | `startsWith`: true exactly when the prefix fits and agrees with the text character by character |
| JsText.ToLowerCaseIdempotent | src/components/home/RestaurantCarousel.tsx:72 | lower-cased text holds no modelled capital, and lower-casing twice equals lower-casing once |
| JsText.CaseRoundTrip | src/components/history/HistoryPage.tsx:200 | upper- and lower-casing undo each other on the letters the model maps (A–Z, a–z and the Latin-1 letters) |
| JsText.Capitalize | src/components/history/HistoryPage.tsx:200 | `charAt(0).toUpperCase() + slice(1)`: same length, first character upper-cased by the modelled letter rule (a–z, à–þ), the rest untouched |
| JsText.ReplaceChar | src/components/browser/BrowserMap.tsx:183 | `replace(/_/g, " ")`: same length, every `_` becomes a space, every other character is kept, no `_` remains |
| JsText.Slice | src/components/browser/BrowserMap.tsx:178 | `slice(start, end)` with clamped bounds: at most `end - start` elements, each the element at `start + i` |
| JsText.TrimStart | src/components/restaurant/RestaurantPage.tsx:139 | the white space `parseInt` skips: a suffix of the input, everything cut is white space, and it starts with none |
| JsText.DigitPrefix | src/components/restaurant/RestaurantPage.tsx:139 | the longest leading run of digits: all digits, and the next character (if any) is not one |
| JsText.ParseUnsigned | src/components/restaurant/RestaurantPage.tsx:139-140 | NaN when the text is empty or does not start with a digit; a number when it starts with 1–9, or with 0 not followed by `x`/`X`; after `0x` a number exactly when a hexadecimal digit follows |
| JsText.ParseInt | src/components/restaurant/RestaurantPage.tsx:139-140 | `parseInt` of blank text is NaN, and a negative result comes only from text whose first non-blank character is `-` |
| JsText.NatToString | src/components/ui/form/CommandSearch.tsx:71 | plain decimal digits only, never a leading zero except for 0 itself (see the NatToString line under "Left out" for exponent form) |
| JsText.IntToString | src/components/ui/form/CommandSearch.tsx:71 | `toString` of an integer: starts with `-` exactly when it is negative, followed by decimal digits only |
| JsText.NatToStringValue | src/components/ui/form/CommandSearch.tsx:71 | the digits written for `n` are all digits and denote `n` |
| JsText.ParseUnsignedToString | src/components/ui/form/CommandSearch.tsx:71 | the unsigned part of `parseInt` reads back what `toString` writes for a natural number |
| JsText.ParseIntToString | src/components/ui/form/CommandSearch.tsx:71 | `parseInt` reads back the plain decimal text of any integer, negative ones included (JavaScript writes that text for integers below 10^21, which covers every city id) |
| JsText.ParseIntNegative | src/components/ui/form/CommandSearch.tsx:71 | `parseInt` of a minus sign followed by digits is the negated unsigned reading |
| JsText.ParseIntDigits | src/components/restaurant/RestaurantPage.tsx:139-140 | `parseInt` of a plain run of decimal digits is the number they denote |
| PageWindow.GeneratePageNumbers | src/components/browser/BrowserHome.tsx:56-84 | the buttons the three loops push are exactly the case-by-case window for `(currentPage, totalPages)` |
| PageWindow.Window | src/components/browser/BrowserHome.tsx:61-81 | at most seven buttons; no "…" with at most five pages; above five pages a "…" is present, the first button is page 1 and the last is totalPages |
| PageWindow.SmallWindowIsAllPages | src/components/browser/BrowserHome.tsx:61-63 | with at most five pages the window is the buttons 1 … totalPages, in order and nothing else |
| PageWindow.StartWindowShape | src/components/browser/BrowserHome.tsx:65-69 | with more than five pages and current page 1 or 2: exactly `1 2 3 4 … totalPages`, gaps marked, current page present |
| PageWindow.EndWindowShape | src/components/browser/BrowserHome.tsx:70-74 | near the end: exactly `1 … t-3 t-2 t-1 t`, gaps marked, current page present |
| PageWindow.MiddleWindowShape | src/components/browser/BrowserHome.tsx:75-81 | otherwise: exactly `1 … c-1 c c+1 … t`, gaps marked, current page present |
| PageWindow.WindowShape | src/components/browser/BrowserHome.tsx:56-84 | for a current page in range: between one and seven buttons, first page 1, last page totalPages, every gap marked by "…", the current page shown |
| PageWindow.EllipsisWithoutGap | src/components/browser/BrowserHome.tsx:75-81 | at current page 3 (or totalPages - 2) the middle branch puts "…" between the consecutive pages 1 and 2 (or t-1 and t) |
| PageWindow.GapMarkedIncreasing | src/components/browser/BrowserHome.tsx:56-84 | any window whose gaps are marked lists its page numbers in strictly increasing order |
| PageWindow.WindowNumbersInRange | src/components/browser/BrowserHome.tsx:56-84 | for a current page in range the numbers strictly increase and lie within 1 … totalPages |
| PageWindow.PreviousPage | src/components/browser/BrowserHome.tsx:252 | `Math.max(prev - 1, 1)`: never below 1; one page back above page 1, page 1 otherwise |
| PageWindow.NextPage | src/components/browser/BrowserHome.tsx:290 | `Math.min(prev + 1, totalPages)`: never above totalPages; one page on below it, totalPages otherwise |
| PageWindow.PageButtonTarget | src/components/browser/BrowserHome.tsx:267-268 | a number button leads to its page; a "…" button keeps the current page |
| PageWindow.StepsStayInRange | src/components/browser/BrowserHome.tsx:248-290 | Previous and Next keep a page within 1 … totalPages within it, and move at most one page |
| PageWindow.ButtonsStayInRange | src/components/browser/BrowserHome.tsx:263-277 | every button of an in-range window leads to a page within 1 … totalPages |
| BrowserHome.TotalPages | src/components/browser/BrowserHome.tsx:49-54 | 0 without a response; otherwise the ceiling of totalResults / pageSize: enough pages for every result and no page more |
| BrowserHome.TotalPagesZero | src/components/browser/BrowserHome.tsx:49-54 | there are no pages exactly when there is no response or no result |
| BrowserHome.BrowserHome.constructor | src/components/browser/BrowserHome.tsx:33-34 | the view starts on page 1 with the given place as the search term |
| BrowserHome.BrowserHome.PageButtons | src/components/browser/BrowserHome.tsx:263 | the rendered buttons are the window for the current page and the derived page count |
| BrowserHome.BrowserHome.OnSearchChange | src/components/browser/BrowserHome.tsx:100-103 | editing the search box stores the text and goes back to page 1 |
| BrowserHome.BrowserHome.OnPrevious | src/components/browser/BrowserHome.tsx:248-252 | disabled on page 1; otherwise the page becomes `max(page - 1, 1)`; the search term is untouched |
| BrowserHome.BrowserHome.OnNext | src/components/browser/BrowserHome.tsx:286-290 | disabled on the last page; otherwise the page becomes `min(page + 1, totalPages)` |
| BrowserHome.BrowserHome.OnPageButton | src/components/browser/BrowserHome.tsx:264-275 | a number button moves to its page, a "…" button leaves the page unchanged |
| BrowserHome.NextWithoutPagesGoesToZero | src/components/browser/BrowserHome.tsx:286-290 | with zero pages Next stays enabled on page 1 and leads to page 0, from which Previous leads back to 1 |
| BrowserListings.RestaurantListings.constructor | src/app/browser/page.tsx:70 | the listings start on page 1, within 1 … 10 |
| BrowserListings.RestaurantListings.PageButtons | src/app/browser/page.tsx:293 | the buttons are the window for the current page of ten: six or seven buttons holding the current page |
| BrowserListings.RestaurantListings.OnPrevious | src/app/browser/page.tsx:283-286 | disabled on page 1, otherwise one page back; the page stays within 1 … 10 |
| BrowserListings.RestaurantListings.OnNext | src/app/browser/page.tsx:313-317 | disabled on page 10, otherwise one page on; the page stays within 1 … 10 |
| BrowserListings.RestaurantListings.OnPageButton | src/app/browser/page.tsx:294-302 | a number button of the window moves to its page, which lies in 1 … 10; "…" changes nothing |
| BrowserListings.TenPageWindows | src/app/browser/page.tsx:82-97 | page 1 shows `1 2 3 4 … 10`, page 10 shows `1 … 7 8 9 10`, page 5 shows `1 … 4 5 6 … 10` |
| BrowserListings.TenPagesAlwaysElided | src/app/browser/page.tsx:78-80 | with ten pages the all-pages branch is never taken: every window holds a "…" |
| HistoryPage.ShowsPagination | src/components/history/HistoryPage.tsx:97 | the bar is rendered exactly when the page count is known and above 1 |
| HistoryPage.ItemFor | src/components/history/HistoryPage.tsx:113-154 | the item for a page carries that page; a link is active exactly on the current page; up to seven pages, and on the first and last page, the item is a link |
| HistoryPage.ItemsFrom | src/components/history/HistoryPage.tsx:112-156 | every item rendered from page `from` on lies within `from` … totalPages; up to seven pages there is one item per page |
| HistoryPage.PageItems | src/components/history/HistoryPage.tsx:112-156 | every rendered item lies within 1 … totalPages; up to seven pages there are exactly totalPages items |
| HistoryPage.ItemsFromMembers | src/components/history/HistoryPage.tsx:112-156 | an item is rendered exactly when its page is in range and the per-page rule yields that item |
| HistoryPage.ItemsFromIncreasing | src/components/history/HistoryPage.tsx:112-113 | the rendered items come in strictly increasing page order, each page at most once |
| HistoryPage.SmallBarAllLinks | src/components/history/HistoryPage.tsx:145-155 | up to seven pages every page 1 … totalPages is a link, in order, the current one active |
| HistoryPage.LargeBarItems | src/components/history/HistoryPage.tsx:115-142 | above seven pages: `p` is a link iff first, last or next to the current page; else an ellipsis iff two away; else nothing is rendered for it |
| HistoryPage.LinkCountMatchesPages | src/components/history/HistoryPage.tsx:115-131 | the number of links rendered equals the number of pages passing the link test |
| HistoryPage.EllipsisCountMatchesPages | src/components/history/HistoryPage.tsx:132-142 | the number of ellipses rendered equals the number of pages failing the link test and passing the ellipsis test |
| HistoryPage.LargeBarSize | src/components/history/HistoryPage.tsx:112-156 | above seven pages at most five links and at most two ellipses are rendered |
| HistoryPage.HistoryPage.constructor | src/components/history/HistoryPage.tsx:42 | the history opens on page 1 |
| HistoryPage.HistoryPage.HandlePageChange | src/components/history/HistoryPage.tsx:52-55 | the current page becomes the requested one |
| HistoryPage.HistoryPage.OnPageLink | src/components/history/HistoryPage.tsx:123-124 | a page link leads to its own page |
| HistoryPage.HistoryPage.OnPrevious | src/components/history/HistoryPage.tsx:101-107 | inert without a previous page; otherwise leads to `max(1, page - 1)` |
| HistoryPage.HistoryPage.OnNext | src/components/history/HistoryPage.tsx:158-171 | inert without a next page; otherwise leads to `min(totalPages ?? 1, page + 1)` |
| HistoryPage.FindPriority | src/components/history/HistoryPage.tsx:198 | `find`: the index found holds a priority type and none before it does; none found means no priority type at all |
| HistoryPage.FindPriorityIsFirst | src/components/history/HistoryPage.tsx:198 | the search from the start stops at the first priority type of the list |
| HistoryPage.PrimaryType | src/components/history/HistoryPage.tsx:195-202 | "Lugar" for missing or empty types; the first priority type in list order, capitalised; the first type unchanged when none is a priority type |
| HistoryPage.PrimaryTypeLabels | src/components/history/HistoryPage.tsx:195-202 | a later priority type beats an earlier other type (`cafe` in `point_of_interest, cafe, restaurant` gives "Cafe"); an empty list gives "Lugar" |
| HistoryPage.PriorityLabels | src/components/history/HistoryPage.tsx:200 | priority types show with a capital initial ("Restaurant", "Park") |
| HistoryPage.PrimaryTypeWithoutPriority | src/components/history/HistoryPage.tsx:201 | a list without a priority type shows its first type as it is ("food") |
| CommandSearch.DefaultLocation | src/components/ui/form/CommandSearch.tsx:70-74 | the default candidate carries the city id as text that `parseInt` reads back as that id, and the item's name |
| CommandSearch.MapItems | src/components/ui/form/CommandSearch.tsx:69 | `map` keeps the length and applies the mapping to each item in place |
| CommandSearch.DataLocal | src/components/ui/form/CommandSearch.tsx:68-74 | without a mapping: one default candidate per item, `[]` without data; with a mapping: `undefined` exactly when there is no data, else the mapped data |
| CommandSearch.Candidates | src/components/ui/form/CommandSearch.tsx:76-80 | without added items the data list itself; with them, the added items first and then the data list, or one `undefined` element when that list is `undefined` |
| CommandSearch.DefaultCandidates | src/components/ui/form/CommandSearch.tsx:68-80 | without a mapping the candidates are the added ones, then one per fetched item in order, each carrying its city id as text |
| CommandSearch.MappedWithoutData | src/components/ui/form/CommandSearch.tsx:68-78 | with a mapping and no data the list is `undefined`, or the added items followed by a single `undefined` |
| CommandSearch.QueryEnabled | src/components/ui/form/CommandSearch.tsx:63 | `enabled: debouncedSearch.length > 0`: the search is fetched exactly when the debounced text is not empty |
| CommandSearch.InitialQueryFetches | src/components/ui/form/CommandSearch.tsx:48-63 | the initial query `" "` enables the fetch; the empty query does not |
| CommandSearch.DropdownBody | src/components/ui/form/CommandSearch.tsx:159-193 | the loading row exactly while loading; else the empty row exactly for an empty list; else one item per candidate |
| CommandSearch.EmptyRowExactly | src/components/ui/form/CommandSearch.tsx:66-166 | once loaded the empty row shows iff no items are added and the data is `[]`, or there is neither data nor mapping |
| CommandSearch.Dropdown | src/components/ui/form/CommandSearch.tsx:151-197 | the dropdown is rendered exactly while open, with the body above |
| CommandSearch.SelectionNotices | src/components/ui/form/CommandSearch.tsx:177-180 | selecting reports the id first and then, only when present, the `onClick` handler as a second value |
| CommandSearch.Control.constructor | src/components/ui/form/CommandSearch.tsx:46-48 | closed, query `" "` (so the fetch is enabled), nothing pending, nothing reported |
| CommandSearch.Control.Report | src/components/ui/form/CommandSearch.tsx:143 | `onValueChange?.(…)`: values are recorded only when the callback is given; nothing else changes |
| CommandSearch.Control.OnFocus | src/components/ui/form/CommandSearch.tsx:123 | focus opens the dropdown and changes nothing else |
| CommandSearch.Control.OnChange | src/components/ui/form/CommandSearch.tsx:124-130 | typing sets the field at once, hands the value to the debouncer and opens the dropdown; the query waits |
| CommandSearch.Control.DebounceElapsed | src/components/ui/form/CommandSearch.tsx:52-54 | when the timer fires the last value handed over becomes the query |
| CommandSearch.Control.OnClear | src/components/ui/form/CommandSearch.tsx:132-144 | only while the field is truthy: the field becomes `""`, `""` goes to the debouncer, the dropdown opens and `""` is reported |
| CommandSearch.Control.OnSelect | src/components/ui/form/CommandSearch.tsx:173-181 | the field takes the name, the dropdown closes, the id and then the handler are reported; the query is untouched |
| CommandSearch.Control.OnMouseDown | src/components/ui/form/CommandSearch.tsx:85-91 | a mousedown outside closes the dropdown, one inside leaves it as it was |
| CommandSearch.ClearAndSettle | src/components/ui/form/CommandSearch.tsx:132-144 | clearing a non-empty field and letting the timer fire leaves an open, empty control whose query disables the fetch |
| CommandSearch.TypeTwiceAndSettle | src/components/ui/form/CommandSearch.tsx:124-130 | two keystrokes within one interval: only the last reaches the query, and it enables the fetch iff it is non-empty |
| BrowserMap.DefaultCenter | src/components/browser/BrowserMap.tsx:35-39 | the given centre wins; else the first place's location when there are places; else the Mexico City fallback |
| BrowserMap.CenterIsAPlaceOrFallback | src/components/browser/BrowserMap.tsx:35-39 | without a given centre the map opens on a place or on the fallback, and follows the first place when it moves |
| BrowserMap.LoadView | src/components/browser/BrowserMap.tsx:82-83 | the error view exactly on a load error; the loading view exactly without error before loading; the map otherwise |
| BrowserMap.Markers | src/components/browser/BrowserMap.tsx:95-112 | one marker per place, in order, keyed by its id and placed at its location |
| BrowserMap.InfoTypes | src/components/browser/BrowserMap.tsx:178-183 | at most the first three types, each of its own length, with every `_` a space and every other character kept |
| BrowserMap.InfoChips | src/components/browser/BrowserMap.tsx:176-187 | the chips are shown exactly when the place has types, and there are at most three |
| BrowserMap.RemoveAll | src/components/browser/BrowserMap.tsx:77 | `filter(id => id !== placeId)`: the id is gone, every other id keeps its number of occurrences, and a list without the id is unchanged |
| BrowserMap.Toggled | src/components/browser/BrowserMap.tsx:74-80 | the list grows by at most one id |
| BrowserMap.ToggleMembership | src/components/browser/BrowserMap.tsx:74-80 | the toggled id flips its membership; every other id keeps its own |
| BrowserMap.RemoveAllNoDuplicates | src/components/browser/BrowserMap.tsx:77 | removal keeps a duplicate-free list duplicate-free |
| BrowserMap.ToggleNoDuplicates | src/components/browser/BrowserMap.tsx:74-80 | toggling keeps the favourites free of duplicates |
| BrowserMap.RemoveAllAppend | src/components/browser/BrowserMap.tsx:76-78 | removing an id just appended to a list without it gives the list back |
| BrowserMap.ToggleTwice | src/components/browser/BrowserMap.tsx:74-80 | toggling twice restores every membership, and the list itself when the id was absent |
| BrowserMap.MapState.constructor | src/components/browser/BrowserMap.tsx:32-33 | no selected place and no favourites |
| BrowserMap.MapState.SelectPlace | src/components/browser/BrowserMap.tsx:70-72 | the selection is replaced by the one place, so a single info window is open; favourites unchanged |
| BrowserMap.MapState.OnMarkerClick | src/components/browser/BrowserMap.tsx:95-111 | the marker at index `i` selects the place with its own key |
| BrowserMap.MapState.CloseInfoWindow | src/components/browser/BrowserMap.tsx:115-118 | closing clears the selection and the window; favourites unchanged |
| BrowserMap.MapState.ToggleFavorite | src/components/browser/BrowserMap.tsx:74-80 | the favourites become the toggled list, still without duplicates; only the toggled id changes membership |
| BrowserMap.MapState.OnHeartClick | src/components/browser/BrowserMap.tsx:115-133 | with a place selected its id is toggled and the heart flips colour; the selection stays |
| RestaurantPage.RenderState | src/components/restaurant/RestaurantPage.tsx:109-116 | loading wins over an error, an error over missing data, and details show the response's data |
| RestaurantPage.Visit | src/components/restaurant/RestaurantPage.tsx:97-101 | the body is the data plus `photo`, the first photo's url; it throws exactly for an empty photo list |
| RestaurantPage.VisitEffect | src/components/restaurant/RestaurantPage.tsx:103-107 | a visit is posted exactly when there are both a user and a response |
| RestaurantPage.IsDayEntry | src/components/restaurant/RestaurantPage.tsx:131-133 | an entry is today's exactly when it is at least as long as today's name and its first characters lower-case to that name |
| RestaurantPage.FindDayEntry | src/components/restaurant/RestaurantPage.tsx:131-133 | `find`: the entry found is the first whose lower-cased text begins with today's name; none found means no such entry |
| RestaurantPage.TimeValue | src/components/restaurant/RestaurantPage.tsx:139-140 | the clock text with its colons deleted, read by `parseInt`; NaN for a missing part |
| RestaurantPage.WithoutColons | src/components/restaurant/RestaurantPage.tsx:139 | `split(":").join("")` is deleting every colon |
| RestaurantPage.Within | src/components/restaurant/RestaurantPage.tsx:142 | a comparison with a NaN bound is false, and a time lies within a range only when the opening time is not after the closing time |
| RestaurantPage.RangeContains | src/components/restaurant/RestaurantPage.tsx:137-142 | hours without the en dash contain no time |
| RestaurantPage.IsCurrentlyOpen | src/components/restaurant/RestaurantPage.tsx:118-143 | closed without hours or without today's entry; throws when the entry has no `": "`; else open iff the time lies in the entry's range |
| RestaurantPage.ClosedWhenRangeIsBroken | src/components/restaurant/RestaurantPage.tsx:137-142 | hours without a dash are never open, and a range closing before it opens contains no time |
| RestaurantPage.ClockValue | src/components/restaurant/RestaurantPage.tsx:139-140 | `HH:MM` reads as the integer `HHMM`, leading zero or not |
| RestaurantPage.OpenWithinRange | src/components/restaurant/RestaurantPage.tsx:137-142 | hours `HH:MM–HH:MM` contain exactly the times from the opening through the closing clock, both included |
| RestaurantPage.SplitFormattedEntry | src/components/restaurant/RestaurantPage.tsx:136-137 | an entry `day: HH:MM–HH:MM` splits into its day and hours, and the hours into the two clocks |
| RestaurantPage.DayTextMatches | src/components/restaurant/RestaurantPage.tsx:131-133 | an entry whose day text lower-cases to today's name is today's entry |
| RestaurantPage.OpenWithinFormattedRange | src/components/restaurant/RestaurantPage.tsx:118-143 | today's entry in the usual form gives open exactly from the opening minute through the closing minute, day written in any case |
| RestaurantPage.OtherDayIgnored | src/components/restaurant/RestaurantPage.tsx:121-134 | a Monday entry is not Tuesday's, so the place is closed on Tuesday |
| RestaurantPage.OpeningHoursExamples | src/components/restaurant/RestaurantPage.tsx:118-143 | open at 13:30 and at 22:00, closed at 22:01 on a Monday open 12:00–22:00 |
| RestaurantPage.Ratings | src/components/restaurant/RestaurantPage.tsx:315 | the ratings of the reviews, one per review, in order |
| RestaurantPage.CountRating | src/components/restaurant/RestaurantPage.tsx:313-316 | the number of reviews rated exactly `rating`, as the multiplicity of that rating |
| RestaurantPage.StarCounts | src/components/restaurant/RestaurantPage.tsx:312-316 | five counts for stars 5 … 1, each the number of reviews with exactly that rating, all 0 without reviews |
| RestaurantPage.CountsCoverReviews | src/components/restaurant/RestaurantPage.tsx:312-316 | when every rating is a whole star 1 … 5 the five counts add up to the number of reviews |
| RestaurantPage.MainPhoto | src/components/restaurant/RestaurantPage.tsx:202-209 | the main photo is shown exactly when the first photo has a non-empty url, and it is that url |
| RestaurantPage.SideGallery | src/components/restaurant/RestaurantPage.tsx:212-213 | the second and third photos, in order: at most two, fewer when there are fewer photos |
| RestaurantPage.TypeBadges | src/components/restaurant/RestaurantPage.tsx:190-194 | one badge per type, in order, each with every `_` a space |
| RestaurantPage.LocatedIn | src/components/restaurant/RestaurantPage.tsx:479 | shown exactly when the address has at least four comma-separated parts: the fourth, which holds no comma |
| RestaurantPage.LocatedInIsPartOfAddress | src/components/restaurant/RestaurantPage.tsx:479 | the address is its first three parts, a comma, and the rest beginning with the part shown |
| RestaurantPage.DetailView.constructor | src/components/restaurant/RestaurantPage.tsx:74 | the page starts not a favourite |
| RestaurantPage.DetailView.OnHeartClick | src/components/restaurant/RestaurantPage.tsx:158 | the heart flips the favourite flag |
| RestaurantCarousel.JsRem | src/components/home/RestaurantCarousel.tsx:29 | JavaScript `%`: the remainder takes the sign of the dividend and is smaller than the divisor in size; for non-negative operands it is the usual remainder |
| RestaurantCarousel.NextIndex | src/components/home/RestaurantCarousel.tsx:28-30 | an index in range stays in range: one on, or back to 0 from the last city |
| RestaurantCarousel.PreviousIndex | src/components/home/RestaurantCarousel.tsx:32-34 | an index in range stays in range: one back, or to the last city from 0 |
| RestaurantCarousel.NextPreviousInverse | src/components/home/RestaurantCarousel.tsx:28-34 | next after previous, and previous after next, give the same city back |
| RestaurantCarousel.NextTimes | src/components/home/RestaurantCarousel.tsx:28-30 | any number of presses of next keeps the index in range |
| RestaurantCarousel.NextTimesAdvances | src/components/home/RestaurantCarousel.tsx:28-30 | before the end `k` presses move `k` cities on, and reaching the end wraps to 0 |
| RestaurantCarousel.NextTimesAdd | src/components/home/RestaurantCarousel.tsx:28-30 | pressing next `a + b` times is pressing it `a` times and then `b` times |
| RestaurantCarousel.FullTurn | src/components/home/RestaurantCarousel.tsx:28-30 | `n` presses of next return to the starting city |
| RestaurantCarousel.Carousel.constructor | src/components/home/RestaurantCarousel.tsx:25-26 | the carousel opens on the first city |
| RestaurantCarousel.Carousel.Heading | src/components/home/RestaurantCarousel.tsx:40 | the city named in the heading is one of the carousel's cities |
| RestaurantCarousel.Carousel.Cards | src/components/home/RestaurantCarousel.tsx:59 | the cards shown are the restaurants of one of the carousel's cities |
| RestaurantCarousel.Carousel.NextCity | src/components/home/RestaurantCarousel.tsx:28-30 | the current city becomes the next index and stays in range |
| RestaurantCarousel.Carousel.PreviousCity | src/components/home/RestaurantCarousel.tsx:32-34 | the current city becomes the previous index and stays in range |
| RestaurantCarousel.PreviousThenNext | src/components/home/RestaurantCarousel.tsx:43-54 | pressing previous and then next shows the same city again |
| RestaurantCarousel.PriceIndicator | src/components/home/RestaurantCarousel.tsx:71-82 | "$" exactly for `económico`, "$$$" exactly for `costoso`, "$$" for everything else, in any case |
| RestaurantCarousel.PriceIndicatorIgnoresCase | src/components/home/RestaurantCarousel.tsx:72 | prices differing only in case get the same tier |
| RestaurantCarousel.PriceIndicatorExamples | src/components/home/RestaurantCarousel.tsx:71-82 | "Económico" gives "$", "COSTOSO" gives "$$$", "Moderado" and an unknown "Caro" give "$$" |
| RestaurantCarousel.ImageSource | src/components/home/RestaurantCarousel.tsx:88 | a non-empty image is used as it is; a missing or empty one falls back to the placeholder |
| RestaurantCarousel.RestaurantCard.constructor | src/components/home/RestaurantCarousel.tsx:68 | every card starts not a favourite |
| RestaurantCarousel.RestaurantCard.OnHeartClick | src/components/home/RestaurantCarousel.tsx:93-97 | the heart flips the card's favourite flag |
| RestaurantCarousel.HeartTwice | src/components/home/RestaurantCarousel.tsx:93-97 | two clicks on the heart leave the card as it was |

## Left out

- Fetching: axios calls, react-query caching, the response interceptor and the
  query keys. Response payloads are inputs to the model, and `isLoading` and
  `isError` are parameters.
- The 800 ms debounce timer: `CommandSearch.Control.DebounceElapsed` is the
  moment it fires. The model keeps only the last value handed over, which is
  what a trailing debounce delivers.
- The current time: `new Date()` becomes parameters (the day index
  `getDay()` and the hour and minute).
- The "today" highlight of the hours list. It uses `toLocaleDateString`, which
  is locale formatting.
- Real-number output: the review percentage bar, `toFixed`, `Intl.DateTimeFormat`,
  `toLocaleString` and the coordinate text.
- Map coordinates: they are carried as opaque `real` pairs and never computed with.
- Browser and widget APIs: the Google Maps widget, script loading and marker icons,
  `navigator.share`, `window.open`, `window.scrollTo`, input focus and
  `stopPropagation`.
- Geolocation and toasts of the home search, server components, layout, routing
  and configuration. None of these holds logic of the kind modelled here.
- The heart of a history card and the display-only fields: ratings, price level,
  website, photo text and dates, shown as they are.
- Re-running effects when their dependencies change: `RestaurantPage.VisitEffect`
  says whether one run posts, and with which body.
- JsText.ToLowerCase: maps only A–Z and the Latin-1 capitals (À–Þ except ×);
  other Unicode case mappings are not modelled.
- JsText.NatToString: writes every natural number in plain decimal, and so do
  JsText.IntToString and JsText.ParseIntToString. JavaScript's `toString`
  switches to exponent form from 10^21 (`"1e+21"`, which `parseInt` reads as 1),
  and numbers above 2^53 are not exact integers. City ids, the only integers
  turned into text here, lie far below either bound.
- JsText.Capitalize: upper-cases the first character only for a–z and à–þ
  (other than ÷). JavaScript also maps letters outside that range, and `"ß"`
  becomes `"SS"`, which changes the length. The type label only capitalises
  the fixed ASCII priority types, so it never meets those letters.
- Strings are sequences of Unicode scalar values, not of UTF-16 code units,
  so `charAt(0)` of a character outside the Basic Multilingual Plane is not
  split into a surrogate. Every separator, keyword and day name involved lies
  in that plane, so no modelled result depends on the difference.
- JsText.ParseInt: works on unbounded integers, so large inputs do not lose
  precision to floating point. It reads no radix argument, because the source never passes one.
- BrowserHome.TotalPages: takes `totalResults` and `pageSize` as a natural and a
  positive integer. The source's `parseInt` of arbitrary text, and a zero
  page size, are not modelled.
- RestaurantCarousel.Carousel.constructor: requires at least one city, because
  the heading reads `datos[0]` and the source fails on an empty list.
- RestaurantCarousel.NextTimesAdvances: states the result only for `i + k <= n`;
  `NextTimesAdd` and `FullTurn` cover longer runs.
- The `onClick` handler of a candidate is an opaque token, never
  invoked, as in the source. The candidate icon is not modelled.
