/** The restaurant detail page of src/components/restaurant/RestaurantPage.tsx:
    which state it renders, the visit record it posts, whether the place is
    open now, the per-star review counts and the small text shapers. The
    clock is an input: the day index and the hour and minute are parameters. */
module RestaurantPage {
  import opened Wrappers
  import opened JsText

  /** A photo; its `url` may be missing. */
  datatype Photo = Photo(url: Option<string>)

  /** A review; only its star rating is read. */
  datatype Review = Review(rating: int)

  /** The fields of `restaurant.data` the page reads (rating, price level,
      location and website are shown as they are and are not modelled). */
  datatype RestaurantData = RestaurantData(
    name: string,
    address: Option<string>,
    types: Option<seq<string>>,
    photos: Option<seq<Photo>>,
    openingHours: Option<seq<string>>,
    reviews: Option<seq<Review>>)

  /** The query's response; its `data` may be absent. */
  datatype Response = Response(data: Option<RestaurantData>)

  // ---------------------------------------------------------------------------
  // What the page renders

  datatype Screen = Loading | Error | NotFound | Details(data: RestaurantData)

  /** Loading wins over an error, an error over a missing restaurant. */
  function RenderState(isLoading: bool, isError: bool, restaurant: Option<Response>): (r: Screen)
    ensures isLoading <==> r == Loading
    ensures r == Error <==> !isLoading && isError
    ensures r == NotFound <==> !isLoading && !isError && (restaurant.None? || restaurant.value.data.None?)
    ensures r.Details? ==> restaurant.Some? && restaurant.value.data == Some(r.data)
  {
    if isLoading then Loading
    else if isError then Error
    else match restaurant
      case None => NotFound
      case Some(resp) =>
        match resp.data
        case None => NotFound
        case Some(d) => Details(d)
  }

  // ---------------------------------------------------------------------------
  // The visit record

  /** `{ ...body, photo: body?.photos?.[0].url }`: the restaurant's fields (none
      when the data is missing) with `photo` added. */
  datatype VisitBody = VisitBody(fields: Option<RestaurantData>, photo: Option<string>)

  /** `onSubmit`'s body. An empty photo list throws, since `photos?.[0]` is
      `undefined` and `.url` is read from it. */
  function Visit(body: Option<RestaurantData>): (r: Result<VisitBody>)
    ensures r.Failure? <==> body.Some? && body.value.photos == Some([])
    ensures r.Success? ==> r.value.fields == body
    ensures r.Success? && body.Some? && body.value.photos.Some? ==> r.value.photo == body.value.photos.value[0].url
    ensures r.Success? && (body.None? || body.value.photos.None?) ==> r.value.photo.None?
  {
    match body
    case None => Success(VisitBody(None, None))
    case Some(d) =>
      match d.photos
      case None => Success(VisitBody(body, None))
      case Some(ps) =>
        if |ps| == 0 then Failure(TypeError)
        else Success(VisitBody(body, ps[0].url))
  }

  /** The effect: a visit is posted (with its outcome) only when there is both
      a user and a response; otherwise nothing is posted. */
  function VisitEffect(user: bool, restaurant: Option<Response>): (r: Option<Result<VisitBody>>)
    ensures r.Some? <==> user && restaurant.Some?
    ensures r.Some? ==> r.value == Visit(restaurant.value.data)
  {
    if user && restaurant.Some? then Some(Visit(restaurant.value.data)) else None
  }

  // ---------------------------------------------------------------------------
  // Opening hours

  /** The Spanish day names, index 0 being Sunday as `Date.getDay` counts. */
  const DayNames: seq<string> := ["domingo", "lunes", "martes", "miércoles", "jueves", "viernes", "sábado"]

  /** `": "`, the separator between the day and its hours. */
  const DaySeparator: string := ": "

  /** The en dash between opening and closing time. */
  const RangeDash: string := "–"

  /** An entry is today's when its lower-cased text begins with today's name. */
  predicate IsDayEntry(entry: string, day: nat): (r: bool)
    requires day < 7
    ensures r <==> |DayNames[day]| <= |entry| && ToLowerCase(entry[..|DayNames[day]|]) == DayNames[day]
  {
    StartsWith(ToLowerCase(entry), DayNames[day])
  }

  /** `openingHours.find(…)` from index `from`, as an index. */
  function FindDayEntry(hours: seq<string>, day: nat, from: nat): (r: Option<nat>)
    requires day < 7
    ensures r.Some? ==> from <= r.value < |hours| && IsDayEntry(hours[r.value], day)
    ensures r.Some? ==> forall j :: from <= j < r.value ==> !IsDayEntry(hours[j], day)
    ensures r.None? ==> forall j :: from <= j < |hours| ==> !IsDayEntry(hours[j], day)
    decreases |hours| - from
  {
    if from >= |hours| then None
    else if IsDayEntry(hours[from], day) then Some(from)
    else FindDayEntry(hours, day, from + 1)
  }

  /** `parseInt(part?.split(":").join(""))`: the clock text with its colons
      removed, read as an integer; `None` (NaN) for a missing part. */
  function TimeValue(part: Option<string>): (r: Option<int>)
    ensures part.None? ==> r.None?
    ensures part.Some? ==> r == ParseInt(RemoveChar(part.value, ':'))
  {
    match part
    case None => None
    case Some(p) => ParseInt(WithoutColons(p))
  }

  /** `text.split(":").join("")`: every colon deleted, everything else kept in order. */
  function WithoutColons(text: string): (r: string)
    ensures r == RemoveChar(text, ':')
  {
    SplitJoinRemoves(text, ':');
    Join(Split(text, ":"), "")
  }

  /** `currentTime >= openTime && currentTime <= closeTime`; any comparison with NaN is false. */
  predicate Within(now: int, openTime: Option<int>, closeTime: Option<int>): (r: bool)
    ensures openTime.None? || closeTime.None? ==> !r
    ensures r ==> openTime.value <= closeTime.value
  {
    openTime.Some? && closeTime.Some? && openTime.value <= now <= closeTime.value
  }

  /** Whether the hours text `open–close` contains the time `now`. */
  predicate RangeContains(hoursText: string, now: int): (r: bool)
    ensures IndexOf(hoursText, RangeDash).None? ==> !r
  {
    var range := Split(hoursText, RangeDash);
    Within(now, TimeValue(Some(range[0])), TimeValue(if |range| >= 2 then Some(range[1]) else None))
  }

  /** `isCurrentlyOpen` on day `day` at `hour:minute`: closed without opening
      hours or without an entry for today; an entry with no `": "` throws
      (its second piece is `undefined`); otherwise open iff the time lies within
      the entry's range, both ends included. */
  function IsCurrentlyOpen(openingHours: Option<seq<string>>, day: nat, hour: int, minute: int): (r: Result<bool>)
    requires day < 7
    ensures openingHours.None? ==> r == Success(false)
    ensures openingHours.Some? && FindDayEntry(openingHours.value, day, 0).None? ==> r == Success(false)
    ensures openingHours.Some? && FindDayEntry(openingHours.value, day, 0).Some? ==>
      var entry := openingHours.value[FindDayEntry(openingHours.value, day, 0).value];
      var pieces := Split(entry, DaySeparator);
      && (r.Failure? <==> |pieces| < 2)
      && (r.Success? ==> r.value == RangeContains(pieces[1], hour * 100 + minute))
  {
    match openingHours
    case None => Success(false)
    case Some(hs) =>
      match FindDayEntry(hs, day, 0)
      case None => Success(false)
      case Some(k) =>
        var pieces := Split(hs[k], DaySeparator);
        if |pieces| < 2 then Failure(TypeError)
        else Success(RangeContains(pieces[1], hour * 100 + minute))
  }

  /** Without a closing time (no dash) the place is never open, and a range
      that closes before it opens contains no time at all. */
  lemma ClosedWhenRangeIsBroken(hoursText: string, now: int)
    ensures IndexOf(hoursText, RangeDash).None? ==> !RangeContains(hoursText, now)
    ensures var range := Split(hoursText, RangeDash);
      (|range| >= 2 && TimeValue(Some(range[0])).Some? && TimeValue(Some(range[1])).Some? &&
       TimeValue(Some(range[1])).value < TimeValue(Some(range[0])).value) ==> !RangeContains(hoursText, now)
  {
    if IndexOf(hoursText, RangeDash).None? {
      SplitNoSeparator(hoursText, RangeDash);
    }
  }

  /** A time of day written `HH:MM`, two digits each. */
  predicate IsClockText(t: string) {
    |t| == 5 && t[2] == ':' && forall i :: 0 <= i < 5 && i != 2 ==> '0' <= t[i] <= '9'
  }

  /** The number `HHMM` that a clock text `HH:MM` stands for. */
  function ClockNumber(t: string): (r: nat)
    requires IsClockText(t)
    ensures r < 10000
  {
    FourDigitNumber(t[0] as nat - '0' as nat, t[1] as nat - '0' as nat, t[3] as nat - '0' as nat, t[4] as nat - '0' as nat)
  }

  /** The number written by four decimal digits, most significant first. */
  function FourDigitNumber(v0: nat, v1: nat, v2: nat, v3: nat): (r: nat)
    requires v0 < 10 && v1 < 10 && v2 < 10 && v3 < 10
    ensures r < 10000
  {
    ((v0 * 10 + v1) * 10 + v2) * 10 + v3
  }

  /** Deleting the only colon of `ab:cd` leaves `abcd`. */
  lemma RemoveMiddleColon(a: char, b: char, c: char, d: char)
    requires a != ':' && b != ':' && c != ':' && d != ':'
    ensures RemoveChar([a, b, ':', c, d], ':') == [a, b, c, d]
  {
    assert [a, b, ':', c, d] == [a, b] + [':'] + [c, d];
    RemoveCharAppend([a, b] + [':'], [c, d], ':');
    RemoveCharAppend([a, b], [':'], ':');
    RemoveCharAppend([a], [b], ':');
    RemoveCharAppend([c], [d], ':');
  }

  /** The number four digits denote, most significant first. */
  lemma FourDigitsNumber(ds: string, v0: nat, v1: nat, v2: nat, v3: nat)
    requires |ds| == 4 && forall i :: 0 <= i < 4 ==> '0' <= ds[i] <= '9'
    requires DigitValue(ds[0]) == Some(v0) && DigitValue(ds[1]) == Some(v1)
    requires DigitValue(ds[2]) == Some(v2) && DigitValue(ds[3]) == Some(v3)
    ensures DigitsValue(ds, 10) == ((v0 * 10 + v1) * 10 + v2) * 10 + v3
  {
    var d3, d2, d1 := ds[..3], ds[..2], ds[..1];
    assert ds[..|ds| - 1] == d3 && d3[..|d3| - 1] == d2 && d2[..|d2| - 1] == d1 && d1[..|d1| - 1] == [];
    assert DigitsValue(d1, 10) == v0;
    assert DigitsValue(d2, 10) == DigitsValue(d1, 10) * 10 + v1;
    assert DigitsValue(d3, 10) == DigitsValue(d2, 10) * 10 + v2;
  }

  /** Four decimal digits, as text, read back as their value. */
  lemma FourDigitsValue(ds: string, v0: nat, v1: nat, v2: nat, v3: nat)
    requires |ds| == 4 && forall i :: 0 <= i < 4 ==> '0' <= ds[i] <= '9'
    requires DigitValue(ds[0]) == Some(v0) && DigitValue(ds[1]) == Some(v1)
    requires DigitValue(ds[2]) == Some(v2) && DigitValue(ds[3]) == Some(v3)
    ensures v0 < 10 && v1 < 10 && v2 < 10 && v3 < 10
    ensures ParseInt(ds) == Some(FourDigitNumber(v0, v1, v2, v3))
  {
    assert v0 < 10 && v1 < 10 && v2 < 10 && v3 < 10;
    FourDigitsNumber(ds, v0, v1, v2, v3);
    ParseIntDigits(ds);
    assert DigitsValue(ds, 10) == FourDigitNumber(v0, v1, v2, v3);
  }

  /** Deleting the colon of `HH:MM` leaves its four digits in order. */
  lemma ClockTextDigits(t: string)
    requires IsClockText(t)
    ensures var ds := RemoveChar(t, ':');
      |ds| == 4 && ds[0] == t[0] && ds[1] == t[1] && ds[2] == t[3] && ds[3] == t[4]
  {
    assert t == [t[0], t[1], ':', t[3], t[4]];
    RemoveMiddleColon(t[0], t[1], t[3], t[4]);
  }

  /** `HH:MM` reads as the integer `HHMM`, leading zero or not. */
  lemma ClockValue(t: string)
    requires IsClockText(t)
    ensures TimeValue(Some(t)) == Some(ClockNumber(t))
  {
    var ds := RemoveChar(t, ':');
    ClockTextDigits(t);
    assert '0' <= t[0] <= '9' && '0' <= t[1] <= '9' && '0' <= t[3] <= '9' && '0' <= t[4] <= '9';
    assert forall i :: 0 <= i < 4 ==> '0' <= ds[i] <= '9' by {
      assert ds[0] == t[0] && ds[1] == t[1] && ds[2] == t[3] && ds[3] == t[4];
    }
    var v0, v1, v2, v3 := t[0] as nat - '0' as nat, t[1] as nat - '0' as nat, t[3] as nat - '0' as nat, t[4] as nat - '0' as nat;
    assert DigitValue(ds[0]) == Some(v0) && DigitValue(ds[1]) == Some(v1);
    assert DigitValue(ds[2]) == Some(v2) && DigitValue(ds[3]) == Some(v3);
    FourDigitsValue(ds, v0, v1, v2, v3);
    assert ClockNumber(t) == FourDigitNumber(v0, v1, v2, v3);
  }

  /** An entry `dayText: HH:MM–HH:MM` splits into its day and its hours, and
      its hours into the two clock texts. */
  lemma SplitFormattedEntry(dayText: string, open: string, close: string)
    requires ':' !in dayText
    requires ' ' !in open && ' ' !in close && '\U{2013}' !in open && '\U{2013}' !in close
    ensures Split(dayText + DaySeparator + (open + RangeDash + close), DaySeparator)
      == [dayText, open + RangeDash + close]
    ensures Split(open + RangeDash + close, RangeDash) == [open, close]
  {
    SplitOnce(dayText, DaySeparator, open + RangeDash + close, 1);
    SplitOnce(open, RangeDash, close, 0);
  }

  /** An entry is today's when its day text lower-cases to today's name. */
  lemma DayTextMatches(dayText: string, rest: string, day: nat)
    requires day < 7 && ToLowerCase(dayText) == DayNames[day]
    ensures IsDayEntry(dayText + rest, day)
  {
    var entry := dayText + rest;
    assert ToLowerCase(entry)[..|dayText|] == ToLowerCase(dayText);
  }

  /** Today's entry in the usual form `day: HH:MM–HH:MM`, its day written in
      any case, gives an open place exactly from the opening minute through
      the closing minute. */
  lemma OpenWithinFormattedRange(day: nat, dayText: string, open: string, close: string, hour: int, minute: int)
    requires day < 7 && ToLowerCase(dayText) == DayNames[day] && ':' !in dayText
    requires IsClockText(open) && IsClockText(close)
    ensures IsCurrentlyOpen(Some([dayText + DaySeparator + (open + RangeDash + close)]), day, hour, minute)
      == Success(ClockNumber(open) <= hour * 100 + minute <= ClockNumber(close))
  {
    var hours := open + RangeDash + close;
    var entry := dayText + DaySeparator + hours;
    DayTextMatches(dayText, DaySeparator + hours, day);
    assert entry == dayText + (DaySeparator + hours);
    assert FindDayEntry([entry], day, 0) == Some(0);
    SplitFormattedEntry(dayText, open, close);
    OpenWithinRange(open, close, hour * 100 + minute);
  }

  /** The hours `HH:MM–HH:MM` contain exactly the times from the first clock
      through the second. */
  lemma OpenWithinRange(open: string, close: string, now: int)
    requires IsClockText(open) && IsClockText(close)
    ensures RangeContains(open + RangeDash + close, now) == (ClockNumber(open) <= now <= ClockNumber(close))
  {
    assert ' ' !in open && ' ' !in close && '\U{2013}' !in open && '\U{2013}' !in close by {
      assert forall i :: 0 <= i < 5 ==> open[i] == ':' || '0' <= open[i] <= '9';
      assert forall i :: 0 <= i < 5 ==> close[i] == ':' || '0' <= close[i] <= '9';
    }
    SplitOnce(open, RangeDash, close, 0);
    ClockValue(open);
    ClockValue(close);
  }

  /** An entry for another day does not count as today's. */
  lemma OtherDayIgnored()
    ensures !IsDayEntry("lunes: 12:00–22:00", 2)
    ensures IsCurrentlyOpen(Some(["lunes: 12:00–22:00"]), 2, 13, 30) == Success(false)
  {
    var entry := "lunes: 12:00–22:00";
    assert ToLowerCase(entry)[0] == 'l';
    assert DayNames[2][0] == 'm';
    assert FindDayEntry([entry], 2, 0).None?;
  }

  /** Concrete readings: a Monday at half past one is open, one minute after
      closing is not, and a capitalised day name still matches. */
  lemma OpeningHoursExamples()
    ensures IsCurrentlyOpen(Some(["lunes: 12:00–22:00"]), 1, 13, 30) == Success(true)
    ensures IsCurrentlyOpen(Some(["Lunes: 12:00–22:00"]), 1, 22, 1) == Success(false)
    ensures IsCurrentlyOpen(Some(["Lunes: 12:00–22:00"]), 1, 22, 0) == Success(true)
  {
    assert IsClockText("12:00") && IsClockText("22:00");
    assert "lunes" + DaySeparator + ("12:00" + RangeDash + "22:00") == "lunes: 12:00–22:00";
    assert "Lunes" + DaySeparator + ("12:00" + RangeDash + "22:00") == "Lunes: 12:00–22:00";
    assert ToLowerCase("Lunes") == "lunes";
    OpenWithinFormattedRange(1, "lunes", "12:00", "22:00", 13, 30);
    OpenWithinFormattedRange(1, "Lunes", "12:00", "22:00", 22, 1);
    OpenWithinFormattedRange(1, "Lunes", "12:00", "22:00", 22, 0);
  }

  // ---------------------------------------------------------------------------
  // Review counts

  /** The ratings of the reviews, in order. */
  function Ratings(reviews: seq<Review>): (r: seq<int>)
    ensures |r| == |reviews| && forall i :: 0 <= i < |reviews| ==> r[i] == reviews[i].rating
  {
    seq(|reviews|, i requires 0 <= i < |reviews| => reviews[i].rating)
  }

  /** `reviews.filter(r => r.rating === rating).length`: the number of reviews
      rated exactly `rating`. */
  function CountRating(reviews: seq<Review>, rating: int): (r: nat)
    ensures r == multiset(Ratings(reviews))[rating]
  {
    if |reviews| == 0 then 0
    else
      var init := reviews[..|reviews| - 1];
      assert Ratings(reviews) == Ratings(init) + [reviews[|reviews| - 1].rating];
      (if reviews[|reviews| - 1].rating == rating then 1 else 0) + CountRating(init, rating)
  }

  /** The star values of the summary, top down. */
  const Stars: seq<int> := [5, 4, 3, 2, 1]

  /** The count shown next to each star value, with 0 when there are no reviews. */
  function StarCounts(reviews: Option<seq<Review>>): (r: seq<nat>)
    ensures |r| == |Stars|
    ensures reviews.None? ==> forall i :: 0 <= i < |r| ==> r[i] == 0
    ensures reviews.Some? ==> forall i :: 0 <= i < |r| ==> r[i] == multiset(Ratings(reviews.value))[Stars[i]]
  {
    var rs := reviews.GetOr([]);
    seq(|Stars|, i requires 0 <= i < |Stars| => CountRating(rs, Stars[i]))
  }

  /** When every rating is a whole star from 1 to 5, the counts add up to the
      number of reviews. */
  lemma {:induction false} CountsCoverReviews(reviews: seq<Review>)
    requires forall i :: 0 <= i < |reviews| ==> 1 <= reviews[i].rating <= 5
    ensures CountRating(reviews, 5) + CountRating(reviews, 4) + CountRating(reviews, 3)
      + CountRating(reviews, 2) + CountRating(reviews, 1) == |reviews|
  {
    if |reviews| > 0 {
      CountsCoverReviews(reviews[..|reviews| - 1]);
    }
  }

  // ---------------------------------------------------------------------------
  // Text shapers

  /** The main photo is shown when the first photo has a non-empty url. */
  function MainPhoto(photos: Option<seq<Photo>>): (r: Option<string>)
    ensures r.Some? <==> photos.Some? && |photos.value| > 0 && photos.value[0].url.Some? && |photos.value[0].url.value| > 0
    ensures r.Some? ==> r == photos.value[0].url
  {
    match photos
    case None => None
    case Some(ps) =>
      if |ps| > 0 && ps[0].url.Some? && |ps[0].url.value| > 0 then ps[0].url else None
  }

  /** `photos?.slice(1, 3)`: the side gallery, the second and third photos. */
  function SideGallery(photos: Option<seq<Photo>>): (r: seq<Photo>)
    ensures |r| <= 2
    ensures photos.None? ==> r == []
    ensures photos.Some? ==> |r| == (if |photos.value| <= 1 then 0 else if |photos.value| == 2 then 1 else 2)
    ensures forall i :: 0 <= i < |r| ==> photos.Some? && i + 1 < |photos.value| && r[i] == photos.value[i + 1]
  {
    match photos
    case None => []
    case Some(ps) => Slice(ps, 1, 3)
  }

  /** The type badges: every `_` of each type becomes a space, in order. */
  function TypeBadges(types: Option<seq<string>>): (r: seq<string>)
    ensures |r| == |types.GetOr([])|
    ensures forall i :: 0 <= i < |r| ==> r[i] == ReplaceChar(types.value[i], '_', ' ') && '_' !in r[i]
  {
    var ts := types.GetOr([]);
    seq(|ts|, i requires 0 <= i < |ts| => ReplaceChar(ts[i], '_', ' '))
  }

  /** "Ubicado en": the fourth comma-separated part of the address, if any. */
  function LocatedIn(address: Option<string>): (r: Option<string>)
    ensures r.Some? <==> address.Some? && |Split(address.value, ",")| >= 4
    ensures r.Some? ==> r.value == Split(address.value, ",")[3] && IndexOf(r.value, ",").None?
  {
    match address
    case None => None
    case Some(a) =>
      var parts := Split(a, ",");
      SplitPiecesFree(a, ",");
      if |parts| >= 4 then Some(parts[3]) else None
  }

  /** The part shown lies in the address right after its third comma: the
      address is the first three parts, a comma, and the rest starting with it. */
  lemma LocatedInIsPartOfAddress(address: string)
    requires LocatedIn(Some(address)).Some?
    ensures var parts := Split(address, ",");
      address == Join(parts[..3], ",") + "," + Join(parts[3..], ",")
      && parts[3..][0] == LocatedIn(Some(address)).value
      && forall k :: 0 <= k < 3 ==> IndexOf(parts[..3][k], ",").None?
  {
    var parts := Split(address, ",");
    JoinSplit(address, ",");
    SplitPiecesFree(address, ",");
    assert parts == parts[..3] + parts[3..];
    JoinAppend(parts[..3], parts[3..], ",");
  }

  // ---------------------------------------------------------------------------
  // The favourite heart

  class DetailView {
    var isFavorite: bool

    constructor()
      ensures !isFavorite
    {
      isFavorite := false;
    }

    /** The heart button flips the favourite flag. */
    method OnHeartClick()
      modifies this
      ensures isFavorite == !old(isFavorite)
    {
      isFavorite := !isFavorite;
    }
  }
}
