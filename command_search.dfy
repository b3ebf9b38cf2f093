/** The typeahead control of src/components/ui/form/CommandSearch.tsx: the
    rule that enables the fetch, how the candidate list is assembled, which
    body the dropdown shows, and the open / query / field-value state that
    focus, typing, clearing, selecting and clicking outside drive. The
    debouncer's timer and the fetch are inputs: the control only hands a value
    to the debouncer, and `DebounceElapsed` is the moment the timer fires. */
module CommandSearch {
  import opened Wrappers
  import opened JsText

  // ---------------------------------------------------------------------------
  // Candidates

  /** A candidate of the list; `onClick` is an opaque handler, never invoked. */
  datatype Location = Location(id: string, name: string, onClick: Option<nat>)

  /** One element of `locationsData.data` as the default mapping reads it. */
  datatype RawItem = RawItem(cityId: int, name: string)

  /** The candidates from the fetched data without `mappingData`:
      `{ id: item.cityId.toString(), name: item.name }` (the icon is not modelled). */
  function DefaultLocation(item: RawItem): (r: Location)
    ensures ParseInt(r.id) == Some(item.cityId)
    ensures r.name == item.name && r.onClick.None?
  {
    ParseIntToString(item.cityId);
    Location(IntToString(item.cityId), item.name, None)
  }

  /** `data.map(f)`, elementwise. */
  function MapItems(data: seq<RawItem>, f: RawItem -> Location): (r: seq<Option<Location>>)
    ensures |r| == |data|
    ensures forall i :: 0 <= i < |data| ==> r[i] == Some(f(data[i]))
  {
    seq(|data|, i requires 0 <= i < |data| => Some(f(data[i])))
  }

  /** `dataLocal`: with `mappingData` the mapped data, or `undefined` when there is
      no data (the `|| []` binds only to the other branch); without it the
      default mapping, or `[]` when there is no data. */
  function DataLocal(data: Option<seq<RawItem>>, mapping: Option<RawItem -> Location>): (r: Option<seq<Option<Location>>>)
    ensures mapping.None? ==> r.Some? && |r.value| == |data.GetOr([])|
    ensures mapping.None? ==> forall i :: 0 <= i < |data.GetOr([])| ==> r.value[i] == Some(DefaultLocation(data.value[i]))
    ensures mapping.Some? ==> (r.None? <==> data.None?)
    ensures mapping.Some? && data.Some? ==> r == Some(MapItems(data.value, mapping.value))
  {
    match mapping
    case Some(f) =>
      (match data
       case Some(d) => Some(MapItems(d, f))
       case None => None)
    case None =>
      Some(MapItems(data.GetOr([]), DefaultLocation))
  }

  /** `locations`: `itemAdd.concat(dataLocal)` when `itemAdd` is given (an array
      argument is appended element by element, `undefined` as one element), else
      `dataLocal` itself. `None` in the list stands for an `undefined` element. */
  function Candidates(data: Option<seq<RawItem>>, mapping: Option<RawItem -> Location>,
                      itemAdd: Option<seq<Option<Location>>>): (r: Option<seq<Option<Location>>>)
    ensures itemAdd.None? ==> r == DataLocal(data, mapping)
    ensures itemAdd.Some? ==> r.Some? && itemAdd.value <= r.value
    ensures itemAdd.Some? && DataLocal(data, mapping).Some? ==>
      r.value[|itemAdd.value|..] == DataLocal(data, mapping).value
    ensures itemAdd.Some? && DataLocal(data, mapping).None? ==> r.value == itemAdd.value + [None]
  {
    match itemAdd
    case None => DataLocal(data, mapping)
    case Some(adds) =>
      match DataLocal(data, mapping)
      case Some(local) => Some(adds + local)
      case None => Some(adds + [None])
  }

  /** Without `mappingData` the candidates are the added ones, then one per
      fetched item carrying its city id as text, in order. */
  lemma DefaultCandidates(data: Option<seq<RawItem>>, adds: seq<Option<Location>>)
    ensures var r := Candidates(data, None, Some(adds)).value;
      && |r| == |adds| + |data.GetOr([])|
      && (forall i :: 0 <= i < |adds| ==> r[i] == adds[i])
      && (forall j :: 0 <= j < |data.GetOr([])| ==>
            r[|adds| + j].Some? && ParseInt(r[|adds| + j].value.id) == Some(data.value[j].cityId))
  {
    var r := Candidates(data, None, Some(adds)).value;
    var local := DataLocal(data, None).value;
    assert r == adds + local;
    forall j | 0 <= j < |data.GetOr([])|
      ensures r[|adds| + j].Some? && ParseInt(r[|adds| + j].value.id) == Some(data.value[j].cityId)
    {
      assert r[|adds| + j] == local[j] == Some(DefaultLocation(data.value[j]));
    }
  }

  /** With `mappingData` and no data, the list is `undefined`, or the added
      candidates followed by a single `undefined` element. */
  lemma MappedWithoutData(f: RawItem -> Location, itemAdd: Option<seq<Option<Location>>>)
    ensures itemAdd.None? ==> Candidates(None, Some(f), itemAdd).None?
    ensures itemAdd.Some? ==> Candidates(None, Some(f), itemAdd) == Some(itemAdd.value + [None])
  {
  }

  // ---------------------------------------------------------------------------
  // The fetch rule and the dropdown body

  /** `enabled: debouncedSearch.length > 0` */
  predicate QueryEnabled(debouncedSearch: string): (r: bool)
    ensures r <==> debouncedSearch != ""
  {
    |debouncedSearch| > 0
  }

  /** The initial query `" "` enables a fetch on mount; the cleared query does not. */
  lemma InitialQueryFetches()
    ensures QueryEnabled(InitialQuery)
    ensures !QueryEnabled("")
  {
  }

  /** What the open dropdown shows. */
  datatype Body = LoadingRow | EmptyRow | Items(entries: seq<Option<Location>>)

  /** The loading row while loading; else the empty row when the candidate list
      has length 0; else one item per candidate (none for an `undefined` list,
      whose `length === 0` is false). */
  function DropdownBody(isLoading: bool, candidates: Option<seq<Option<Location>>>): (r: Body)
    ensures isLoading <==> r.LoadingRow?
    ensures r.EmptyRow? <==> !isLoading && candidates == Some([])
    ensures r.Items? ==> r.entries == candidates.GetOr([])
  {
    if isLoading then LoadingRow
    else match candidates
      case Some(c) => if |c| == 0 then EmptyRow else Items(c)
      case None => Items([])
  }

  /** Once loaded, the empty row shows exactly when nothing (or an empty list)
      is added and the data is an empty list, or there is no data and no
      `mappingData`. */
  lemma EmptyRowExactly(data: Option<seq<RawItem>>, mapping: Option<RawItem -> Location>,
                        itemAdd: Option<seq<Option<Location>>>)
    ensures DropdownBody(false, Candidates(data, mapping, itemAdd)).EmptyRow? <==>
      |itemAdd.GetOr([])| == 0 && (data == Some([]) || (data.None? && mapping.None?))
  {
    var c := Candidates(data, mapping, itemAdd);
    var local := DataLocal(data, mapping);
    if itemAdd.Some? && local.Some? {
      assert c.value == itemAdd.value + local.value;
    }
    if data.Some? && mapping.Some? {
      assert |MapItems(data.value, mapping.value)| == |data.value|;
    }
  }

  /** The dropdown: nothing when closed, else its body. */
  function Dropdown(open: bool, isLoading: bool, candidates: Option<seq<Option<Location>>>): (r: Option<Body>)
    ensures r.Some? <==> open
    ensures r.Some? ==> r.value == DropdownBody(isLoading, candidates)
  {
    if open then Some(DropdownBody(isLoading, candidates)) else None
  }

  // ---------------------------------------------------------------------------
  // The control's state

  /** `useState(" ")` for the debounced query. */
  const InitialQuery: string := " "

  /** One call of `onValueChange`: a value (`None` for `undefined`) or a
      candidate's `onClick` handler passed along as a value. */
  datatype Notice = Value(value: Option<string>) | Handler(handler: nat)

  /** The `onValueChange` calls of selecting `location`: its id, then its
      `onClick` handler when it has one. */
  function SelectionNotices(location: Option<Location>): (r: seq<Notice>)
    ensures 1 <= |r| <= 2
    ensures r[0] == Value(if location.Some? then Some(location.value.id) else None)
    ensures |r| == 2 <==> location.Some? && location.value.onClick.Some?
    ensures |r| == 2 ==> r[1] == Handler(location.value.onClick.value)
  {
    match location
    case None => [Value(None)]
    case Some(l) =>
      [Value(Some(l.id))] + (match l.onClick case Some(h) => [Handler(h)] case None => [])
  }

  class Control {
    /** Whether the dropdown is open. */
    var open: bool
    /** The query the fetch uses. */
    var debouncedSearch: string
    /** The last value handed to the debouncer and not yet applied. */
    var pending: Option<string>
    /** The bound form field (`None` for `undefined`). */
    var fieldValue: Option<string>
    /** The calls of `onValueChange` so far (none when it is not given). */
    var notices: seq<Notice>
    /** Whether `onValueChange` is given. */
    const reports: bool

    constructor(initialField: Option<string>, reports: bool)
      ensures !open && debouncedSearch == InitialQuery && pending.None?
      ensures fieldValue == initialField && notices == [] && this.reports == reports
      ensures FetchEnabled()
    {
      open := false;
      debouncedSearch := InitialQuery;
      pending := None;
      fieldValue := initialField;
      notices := [];
      this.reports := reports;
    }

    predicate FetchEnabled()
      reads this
    {
      QueryEnabled(debouncedSearch)
    }

    /** The clear button is rendered only while the field is truthy. */
    predicate ClearShown()
      reads this
    {
      fieldValue.Some? && |fieldValue.value| > 0
    }

    /** `onValueChange?.(…)` */
    method Report(ns: seq<Notice>)
      modifies this
      ensures notices == old(notices) + (if reports then ns else [])
      ensures open == old(open) && debouncedSearch == old(debouncedSearch)
      ensures pending == old(pending) && fieldValue == old(fieldValue)
    {
      if reports {
        notices := notices + ns;
      }
    }

    /** Focus opens the dropdown. */
    method OnFocus()
      modifies this
      ensures open
      ensures debouncedSearch == old(debouncedSearch) && pending == old(pending)
      ensures fieldValue == old(fieldValue) && notices == old(notices)
    {
      open := true;
    }

    /** Typing sets the field at once, hands the value to the debouncer and opens
        the dropdown; the query itself waits for the timer. */
    method OnChange(value: string)
      modifies this
      ensures fieldValue == Some(value) && pending == Some(value) && open
      ensures debouncedSearch == old(debouncedSearch) && notices == old(notices)
    {
      fieldValue := Some(value);
      pending := Some(value);
      open := true;
    }

    /** The debouncer's timer fires: the last value handed to it becomes the query. */
    method DebounceElapsed()
      modifies this
      ensures debouncedSearch == if old(pending).Some? then old(pending).value else old(debouncedSearch)
      ensures pending.None?
      ensures open == old(open) && fieldValue == old(fieldValue) && notices == old(notices)
    {
      if pending.Some? {
        debouncedSearch := pending.value;
      }
      pending := None;
    }

    /** The clear button (absent while the field is falsy): empties the field,
        hands `""` to the debouncer, opens the dropdown and reports `""`. */
    method OnClear()
      modifies this
      ensures old(ClearShown()) ==> fieldValue == Some("") && pending == Some("") && open
      ensures old(ClearShown()) ==> notices == old(notices) + (if reports then [Value(Some(""))] else [])
      ensures !old(ClearShown()) ==>
        fieldValue == old(fieldValue) && pending == old(pending) && open == old(open) && notices == old(notices)
      ensures debouncedSearch == old(debouncedSearch)
    {
      if ClearShown() {
        fieldValue := Some("");
        pending := Some("");
        open := true;
        Report([Value(Some(""))]);
      }
    }

    /** Selecting a candidate: the field takes its name, the dropdown closes, and
        `onValueChange` gets its id and then its `onClick` handler. */
    method OnSelect(location: Option<Location>)
      modifies this
      ensures fieldValue == if location.Some? then Some(location.value.name) else None
      ensures !open
      ensures notices == old(notices) + (if reports then SelectionNotices(location) else [])
      ensures debouncedSearch == old(debouncedSearch) && pending == old(pending)
    {
      fieldValue := if location.Some? then Some(location.value.name) else None;
      open := false;
      Report(SelectionNotices(location));
    }

    /** A mousedown outside the container closes the dropdown; inside, nothing changes. */
    method OnMouseDown(inside: bool)
      modifies this
      ensures open == (old(open) && inside)
      ensures debouncedSearch == old(debouncedSearch) && pending == old(pending)
      ensures fieldValue == old(fieldValue) && notices == old(notices)
    {
      if !inside {
        open := false;
      }
    }
  }

  /** Clearing a non-empty field and letting the timer fire leaves an empty,
      open control whose query no longer enables a fetch. */
  method ClearAndSettle(c: Control)
    requires c.ClearShown()
    modifies c
    ensures c.fieldValue == Some("") && c.debouncedSearch == "" && c.open
    ensures !c.FetchEnabled()
  {
    c.OnClear();
    c.DebounceElapsed();
  }

  /** Two keystrokes inside one debounce interval: only the last one reaches the query. */
  method TypeTwiceAndSettle(c: Control, first: string, second: string)
    modifies c
    ensures c.fieldValue == Some(second) && c.debouncedSearch == second && c.open
    ensures c.FetchEnabled() <==> |second| > 0
  {
    c.OnChange(first);
    c.OnChange(second);
    c.DebounceElapsed();
  }
}
