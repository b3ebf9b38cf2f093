/** The map of src/components/browser/BrowserMap.tsx: which centre it opens
    on, which view it shows while the map script loads, one marker per place,
    the single selected place whose info window is open, and the favourites
    list the heart button toggles. */
module BrowserMap {
  import opened Wrappers
  import opened JsText

  /** A position on the map. */
  datatype LatLng = LatLng(lat: real, lng: real)

  /** A place as the map reads it (rating, address, photo and price are shown
      only as text and are not modelled). */
  datatype Place = Place(placeId: string, location: LatLng, name: string, types: Option<seq<string>>)

  /** The fallback centre, Mexico City. */
  const FallbackCenter: LatLng := LatLng(19.4326, -99.1332)

  /** `defaultCenter`: the given centre, else the first place's location when
      there are places, else the fallback. */
  function DefaultCenter(initialCenter: Option<LatLng>, places: Option<seq<Place>>): (r: LatLng)
    ensures initialCenter.Some? ==> r == initialCenter.value
    ensures initialCenter.None? && places.Some? && |places.value| > 0 ==> r == places.value[0].location
    ensures initialCenter.None? && (places.None? || |places.value| == 0) ==> r == FallbackCenter
  {
    match initialCenter
    case Some(c) => c
    case None =>
      match places
      case Some(ps) => if |ps| > 0 then ps[0].location else FallbackCenter
      case None => FallbackCenter
  }

  /** Without a given centre, the map opens on one of the places or on the
      fallback, and moving the first place moves the centre with it. */
  lemma CenterIsAPlaceOrFallback(places: seq<Place>, moved: LatLng)
    ensures DefaultCenter(None, Some(places)) == FallbackCenter ||
      exists i :: 0 <= i < |places| && DefaultCenter(None, Some(places)) == places[i].location
    ensures |places| > 0 ==>
      DefaultCenter(None, Some([places[0].(location := moved)] + places[1..])) == moved
  {
    if |places| > 0 {
      assert DefaultCenter(None, Some(places)) == places[0].location;
    }
  }

  // ---------------------------------------------------------------------------
  // What is rendered

  /** The view while the map script loads: an error wins over loading. */
  datatype View = ErrorView | LoadingView | MapView

  function LoadView(isLoaded: bool, loadError: bool): (r: View)
    ensures loadError <==> r == ErrorView
    ensures r == LoadingView <==> !loadError && !isLoaded
    ensures r == MapView <==> !loadError && isLoaded
  {
    if loadError then ErrorView
    else if !isLoaded then LoadingView
    else MapView
  }

  /** A marker: keyed by the place id, at the place's location. */
  datatype Marker = Marker(key: string, position: LatLng)

  /** `places.map(place => <Marker …/>)` */
  function Markers(places: seq<Place>): (r: seq<Marker>)
    ensures |r| == |places|
    ensures forall i :: 0 <= i < |places| ==> r[i] == Marker(places[i].placeId, places[i].location)
  {
    seq(|places|, i requires 0 <= i < |places| => Marker(places[i].placeId, places[i].location))
  }

  /** The type chips of the info window: the first three types, with every `_`
      replaced by a space. */
  function InfoTypes(types: seq<string>): (r: seq<string>)
    ensures |r| == if |types| < 3 then |types| else 3
    ensures forall i :: 0 <= i < |r| ==> |r[i]| == |types[i]| && '_' !in r[i]
    ensures forall i, k :: 0 <= i < |r| && 0 <= k < |types[i]| && types[i][k] != '_' ==> r[i][k] == types[i][k]
    ensures forall i, k :: 0 <= i < |r| && 0 <= k < |types[i]| && types[i][k] == '_' ==> r[i][k] == ' '
  {
    var shown := Slice(types, 0, 3);
    seq(|shown|, i requires 0 <= i < |shown| => ReplaceChar(shown[i], '_', ' '))
  }

  /** The chips, when the place has types at all. */
  function InfoChips(place: Place): (r: Option<seq<string>>)
    ensures r.Some? <==> place.types.Some?
    ensures r.Some? ==> |r.value| <= 3
  {
    match place.types
    case Some(ts) => Some(InfoTypes(ts))
    case None => None
  }

  // ---------------------------------------------------------------------------
  // The favourites list

  /** `prev.filter(id => id !== placeId)` */
  function RemoveAll(list: seq<string>, id: string): (r: seq<string>)
    ensures id !in r
    ensures forall x :: x != id ==> (x in r <==> x in list)
    ensures |r| <= |list|
    ensures id !in list ==> r == list
    ensures multiset(r) == multiset(list)[id := 0]
  {
    if |list| == 0 then []
    else
    assert list == [list[0]] + list[1..];
    if list[0] == id then RemoveAll(list[1..], id)
    else [list[0]] + RemoveAll(list[1..], id)
  }

  /** `toggleFavorite`: remove every occurrence when present, append when absent. */
  function Toggled(list: seq<string>, id: string): (r: seq<string>)
    ensures |r| <= |list| + 1
  {
    if id in list then RemoveAll(list, id) else list + [id]
  }

  /** No id occurs twice. */
  predicate NoDuplicates(list: seq<string>) {
    forall i, j :: 0 <= i < j < |list| ==> list[i] != list[j]
  }

  /** Removing every occurrence keeps a list free of duplicates. */
  lemma {:induction false} RemoveAllNoDuplicates(list: seq<string>, id: string)
    requires NoDuplicates(list)
    ensures NoDuplicates(RemoveAll(list, id))
  {
    if |list| > 0 {
      var tail := list[1..];
      assert NoDuplicates(tail) by {
        forall i, j | 0 <= i < j < |tail| ensures tail[i] != tail[j] {
          assert tail[i] == list[i + 1] && tail[j] == list[j + 1];
        }
      }
      RemoveAllNoDuplicates(tail, id);
      if list[0] != id {
        var rest := RemoveAll(tail, id);
        assert list[0] !in tail by {
          forall k | 0 <= k < |tail| ensures tail[k] != list[0] {
            assert tail[k] == list[k + 1];
          }
        }
        assert list[0] !in rest;
        var r := [list[0]] + rest;
        forall i, j | 0 <= i < j < |r| ensures r[i] != r[j] {
          assert r[j] == rest[j - 1];
          if i > 0 {
            assert r[i] == rest[i - 1];
          }
        }
      }
    }
  }

  /** The toggled id flips its membership and every other id keeps its own. */
  lemma ToggleMembership(list: seq<string>, id: string)
    ensures id in Toggled(list, id) <==> id !in list
    ensures forall x :: x != id ==> (x in Toggled(list, id) <==> x in list)
  {
  }

  /** Toggling keeps the list free of duplicates. */
  lemma ToggleNoDuplicates(list: seq<string>, id: string)
    requires NoDuplicates(list)
    ensures NoDuplicates(Toggled(list, id))
  {
    if id in list {
      RemoveAllNoDuplicates(list, id);
    } else {
      var r := list + [id];
      forall i, j | 0 <= i < j < |r| ensures r[i] != r[j] {
        if j == |list| {
          assert r[i] == list[i];
        }
      }
    }
  }

  /** Toggling the same id twice restores every membership, and restores the
      list itself when the id was absent. */
  lemma ToggleTwice(list: seq<string>, id: string)
    ensures forall x :: x in Toggled(Toggled(list, id), id) <==> x in list
    ensures id !in list ==> Toggled(Toggled(list, id), id) == list
  {
    ToggleMembership(list, id);
    ToggleMembership(Toggled(list, id), id);
    if id !in list {
      var once := list + [id];
      assert id in once;
      assert RemoveAll(once, id) == list by {
        RemoveAllAppend(list, id);
      }
    }
  }

  /** Removing an id that was appended to a list without it gives the list back. */
  lemma {:induction false} RemoveAllAppend(list: seq<string>, id: string)
    requires id !in list
    ensures RemoveAll(list + [id], id) == list
  {
    if |list| == 0 {
      assert [id][1..] == [];
    } else {
      assert (list + [id])[1..] == list[1..] + [id];
      RemoveAllAppend(list[1..], id);
      assert [list[0]] + list[1..] == list;
    }
  }

  // ---------------------------------------------------------------------------
  // The map's state

  class MapState {
    /** The place whose info window is open, if any. */
    var selectedPlace: Option<Place>
    /** The ids marked as favourites. */
    var favorites: seq<string>

    /** The favourites never hold an id twice. */
    ghost predicate Valid()
      reads this
    {
      NoDuplicates(favorites)
    }

    constructor()
      ensures Valid()
      ensures selectedPlace.None? && favorites == []
    {
      selectedPlace := None;
      favorites := [];
    }

    /** The info window is open exactly while a place is selected. */
    predicate InfoWindowOpen()
      reads this
    {
      selectedPlace.Some?
    }

    /** The heart is red when the selected place is a favourite. */
    predicate HeartFilled()
      reads this
    {
      selectedPlace.Some? && selectedPlace.value.placeId in favorites
    }

    /** `handleSelectPlace`: a marker's click replaces the selection. */
    method SelectPlace(place: Place)
      modifies this
      ensures selectedPlace == Some(place) && InfoWindowOpen()
      ensures favorites == old(favorites)
    {
      selectedPlace := Some(place);
    }

    /** The marker at index `i` selects its own place. */
    method OnMarkerClick(places: seq<Place>, i: nat)
      requires i < |places|
      modifies this
      ensures selectedPlace == Some(places[i])
      ensures selectedPlace.value.placeId == Markers(places)[i].key
      ensures favorites == old(favorites)
    {
      SelectPlace(places[i]);
    }

    /** `onCloseClick`: the info window closes. */
    method CloseInfoWindow()
      modifies this
      ensures selectedPlace.None? && !InfoWindowOpen()
      ensures favorites == old(favorites)
    {
      selectedPlace := None;
    }

    /** `toggleFavorite(placeId)` */
    method ToggleFavorite(placeId: string)
      requires Valid()
      modifies this
      ensures Valid()
      ensures favorites == Toggled(old(favorites), placeId)
      ensures placeId in favorites <==> placeId !in old(favorites)
      ensures forall x :: x != placeId ==> (x in favorites <==> x in old(favorites))
      ensures selectedPlace == old(selectedPlace)
    {
      ToggleNoDuplicates(favorites, placeId);
      ToggleMembership(favorites, placeId);
      favorites := Toggled(favorites, placeId);
    }

    /** The heart button of the open info window toggles the selected place and
        flips the heart's colour; without a selection there is no button. */
    method OnHeartClick()
      requires Valid()
      modifies this
      ensures Valid()
      ensures old(selectedPlace).Some? ==> favorites == Toggled(old(favorites), old(selectedPlace).value.placeId)
      ensures old(selectedPlace).Some? ==> (HeartFilled() <==> !old(HeartFilled()))
      ensures old(selectedPlace).None? ==> favorites == old(favorites)
      ensures selectedPlace == old(selectedPlace)
    {
      if selectedPlace.Some? {
        ToggleFavorite(selectedPlace.value.placeId);
      }
    }
  }
}
