/** The home-page carousel of src/components/home/RestaurantCarousel.tsx: one
    city at a time, rotated by the previous and next buttons, each restaurant
    shown as a card with a price tier and its own heart. */
module RestaurantCarousel {
  import opened Wrappers
  import opened JsText

  /** A restaurant as a card reads it (its rating is only shown, and is not modelled). */
  datatype Restaurant = Restaurant(name: string, address: string, image: Option<string>, price: string, reference: string)

  /** A city with its restaurants. */
  datatype City = City(name: string, restaurants: seq<Restaurant>)

  // ---------------------------------------------------------------------------
  // Rotating through the cities

  /** JavaScript's `a % n`: the remainder of the division truncated toward
      zero, so it takes the sign of `a`. */
  function JsRem(a: int, n: int): (r: int)
    requires n != 0
    ensures a >= 0 ==> 0 <= r < if n > 0 then n else -n
    ensures a < 0 ==> -(if n > 0 then n else -n) < r <= 0
    ensures a >= 0 && n > 0 ==> r == a % n
  {
    if a >= 0 then a % n else -((-a) % n)
  }

  /** `(prev + 1) % datos.length` */
  function NextIndex(i: int, n: int): (r: int)
    requires n > 0
    ensures 0 <= i < n ==> 0 <= r < n && r == if i == n - 1 then 0 else i + 1
  {
    JsRem(i + 1, n)
  }

  /** `(prev - 1 + datos.length) % datos.length` */
  function PreviousIndex(i: int, n: int): (r: int)
    requires n > 0
    ensures 0 <= i < n ==> 0 <= r < n && r == if i == 0 then n - 1 else i - 1
  {
    JsRem(i - 1 + n, n)
  }

  /** Previous and next undo each other on an index in range. */
  lemma NextPreviousInverse(i: int, n: int)
    requires n > 0 && 0 <= i < n
    ensures NextIndex(PreviousIndex(i, n), n) == i
    ensures PreviousIndex(NextIndex(i, n), n) == i
  {
  }

  /** The index after `k` presses of next. */
  function NextTimes(i: int, n: int, k: nat): (r: int)
    requires n > 0
    ensures 0 <= i < n ==> 0 <= r < n
  {
    if k == 0 then i else NextIndex(NextTimes(i, n, k - 1), n)
  }

  /** Before the end, `k` presses of next move `k` cities on; pressing on
      from the last city wraps to the first. */
  lemma {:induction false} NextTimesAdvances(i: int, n: int, k: nat)
    requires n > 0 && 0 <= i < n && i + k <= n
    ensures NextTimes(i, n, k) == if i + k == n then 0 else i + k
  {
    if k > 0 {
      NextTimesAdvances(i, n, k - 1);
    }
  }

  /** Pressing next `a + b` times is pressing it `a` times and then `b` times. */
  lemma {:induction false} NextTimesAdd(i: int, n: int, a: nat, b: nat)
    requires n > 0
    ensures NextTimes(i, n, a + b) == NextTimes(NextTimes(i, n, a), n, b)
  {
    if b > 0 {
      NextTimesAdd(i, n, a, b - 1);
      assert NextTimes(i, n, a + b) == NextIndex(NextTimes(i, n, a + b - 1), n);
    }
  }

  /** `n` presses of next come back to the city they started from. */
  lemma FullTurn(i: int, n: int)
    requires n > 0 && 0 <= i < n
    ensures NextTimes(i, n, n) == i
  {
    NextTimesAdvances(i, n, n - i);
    NextTimesAdd(i, n, n - i, i);
    NextTimesAdvances(0, n, i);
  }

  /** The carousel: its cities are fixed, the current one changes. */
  class Carousel {
    /** `datos` */
    const cities: seq<City>
    /** `currentCity` */
    var currentCity: int

    /** The current city is one of the cities. */
    ghost predicate Valid()
      reads this
    {
      0 <= currentCity < |cities|
    }

    /** The carousel opens on the first city; the heading reads `datos[0]`,
        which an empty list does not have. */
    constructor(cities: seq<City>)
      requires |cities| > 0
      ensures Valid()
      ensures this.cities == cities && currentCity == 0
    {
      this.cities := cities;
      currentCity := 0;
    }

    /** The city named in the heading. */
    function Heading(): (r: string)
      requires Valid()
      ensures exists i :: 0 <= i < |cities| && cities[i].name == r
      reads this
    {
      cities[currentCity].name
    }

    /** The restaurants shown as cards. */
    function Cards(): (r: seq<Restaurant>)
      requires Valid()
      ensures exists i :: 0 <= i < |cities| && cities[i].restaurants == r
      reads this
    {
      cities[currentCity].restaurants
    }

    /** `nextCity` */
    method NextCity()
      requires Valid()
      modifies this
      ensures Valid()
      ensures currentCity == NextIndex(old(currentCity), |cities|)
    {
      currentCity := JsRem(currentCity + 1, |cities|);
    }

    /** `previousCity` */
    method PreviousCity()
      requires Valid()
      modifies this
      ensures Valid()
      ensures currentCity == PreviousIndex(old(currentCity), |cities|)
    {
      currentCity := JsRem(currentCity - 1 + |cities|, |cities|);
    }
  }

  /** Pressing previous and then next shows the same city again. */
  method PreviousThenNext(c: Carousel)
    requires c.Valid()
    modifies c
    ensures c.Valid() && c.currentCity == old(c.currentCity)
  {
    c.PreviousCity();
    c.NextCity();
    NextPreviousInverse(old(c.currentCity), |c.cities|);
  }

  // ---------------------------------------------------------------------------
  // One card

  /** `getPriceIndicator`: the price tier, read without regard to case; an
      unknown tier shows as moderate. */
  function PriceIndicator(price: string): (r: string)
    ensures r == "$" <==> ToLowerCase(price) == "económico"
    ensures r == "$$$" <==> ToLowerCase(price) == "costoso"
    ensures r == "$$" <==> ToLowerCase(price) != "económico" && ToLowerCase(price) != "costoso"
  {
    var p := ToLowerCase(price);
    if p == "económico" then "$"
    else if p == "moderado" then "$$"
    else if p == "costoso" then "$$$"
    else "$$"
  }

  /** Two prices that differ only in case get the same tier, and a price gets
      the tier of its own lower-case form. */
  lemma PriceIndicatorIgnoresCase(price: string, other: string)
    requires ToLowerCase(price) == ToLowerCase(other)
    ensures PriceIndicator(price) == PriceIndicator(other)
    ensures PriceIndicator(ToLowerCase(price)) == PriceIndicator(price)
  {
    ToLowerCaseIdempotent(price);
  }

  /** Concrete tiers: capitals do not matter, and an unknown word is moderate. */
  lemma PriceIndicatorExamples()
    ensures PriceIndicator("Económico") == "$"
    ensures PriceIndicator("COSTOSO") == "$$$"
    ensures PriceIndicator("Moderado") == "$$"
    ensures PriceIndicator("Caro") == "$$"
  {
    assert ToLowerCase("Económico") == "económico";
    assert ToLowerCase("COSTOSO") == "costoso";
    assert ToLowerCase("Caro") == "caro";
  }

  /** `restaurant.imagen || "/placeholder.jpg"`: an empty or missing image
      falls back to the placeholder. */
  function ImageSource(image: Option<string>): (r: string)
    ensures image.Some? && |image.value| > 0 ==> r == image.value
    ensures image.None? || |image.value| == 0 ==> r == "/placeholder.jpg"
  {
    if image.Some? && |image.value| > 0 then image.value else "/placeholder.jpg"
  }

  /** A card's own state: whether its heart is filled. */
  class RestaurantCard {
    var isFavorite: bool

    /** Every card starts out not a favourite. */
    constructor()
      ensures !isFavorite
    {
      isFavorite := false;
    }

    /** `setIsFavorite(!isFavorite)` */
    method OnHeartClick()
      modifies this
      ensures isFavorite == !old(isFavorite)
    {
      isFavorite := !isFavorite;
    }
  }

  /** Two clicks on the heart leave the card as it was. */
  method HeartTwice(card: RestaurantCard)
    modifies card
    ensures card.isFavorite == old(card.isFavorite)
  {
    card.OnHeartClick();
    card.OnHeartClick();
  }
}
