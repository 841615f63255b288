/** The catalogue page: the description excerpt on a card, the category
    buttons and the search box that show or hide cards, the favourites
    toggle, the hours offered by the booking form and the form's checks.
    The cards are the services the list endpoint returned, in its order;
    a card shows the service's name and the excerpt of its description. */
module ClientServices {
  import opened Wrappers
  import opened Strings
  import opened Models
  import opened ClientMain
  import ServiceRoutes
  import ReservationRoutes
  import ClientReservations

  // ----- the card's text ---------------------------------------------------

  /** A description longer than 100 characters is cut to its first 100,
      followed by '...'. */
  function Excerpt(descripcion: string): (shown: string)
    ensures |descripcion| <= 100 ==> shown == descripcion
    ensures |descripcion| > 100 ==> |shown| == 103 && shown[..100] == descripcion[..100]
                                    && shown[100..] == "..."
  {
    if |descripcion| > 100 then descripcion[..100] + "..." else descripcion
  }

  /** Cutting an excerpt again gives the same excerpt. */
  lemma ExcerptIdempotent(descripcion: string)
    ensures Excerpt(Excerpt(descripcion)) == Excerpt(descripcion)
  {
    if |descripcion| > 100 {
      var e := Excerpt(descripcion);
      assert e[..100] + "..." == e;
    }
  }

  // ----- the category buttons ----------------------------------------------

  /** `filterServices(category)`: the cards left visible, in order: all of
      them for 'all', otherwise those whose category key is `category`. */
  function ShownByCategory(cards: seq<Service>, category: string): (shown: seq<Service>)
    ensures forall s :: s in shown <==> s in cards && (category == "all" || CategoriaName(s.categoria) == category)
  {
    if cards == [] then []
    else (if category == "all" || CategoriaName(cards[0].categoria) == category then [cards[0]] else [])
         + ShownByCategory(cards[1..], category)
  }

  /** Over the list endpoint's cards, the button for a category shows
      exactly what the category endpoint returns, in the same order, and
      'all' shows every card. */
  lemma CategoryButtonMatchesEndpoint(services: seq<Service>, category: string)
    ensures category == "all" ==>
              ShownByCategory(ServiceRoutes.ListAvailable(services), category) == ServiceRoutes.ListAvailable(services)
    ensures category != "all" ==>
              ShownByCategory(ServiceRoutes.ListAvailable(services), category)
                == ServiceRoutes.ListByCategory(services, category)
  {
    var cards := ServiceRoutes.ListAvailable(services);
    if category == "all" {
      ShownByAllIsEverything(cards);
    } else {
      ShownByCategoryIsOfCategory(cards, category);
      ServiceRoutes.ByCategoryRefinesAvailable(services, category);
    }
  }

  lemma {:induction false} ShownByAllIsEverything(cards: seq<Service>)
    ensures ShownByCategory(cards, "all") == cards
  {
    if cards != [] {
      ShownByAllIsEverything(cards[1..]);
    }
  }

  lemma {:induction false} ShownByCategoryIsOfCategory(cards: seq<Service>, category: string)
    requires category != "all"
    ensures ShownByCategory(cards, category) == ServiceRoutes.OfCategory(cards, category)
  {
    if cards != [] {
      ShownByCategoryIsOfCategory(cards[1..], category);
    }
  }

  // ----- the search box ----------------------------------------------------

  /** A card stays visible for the typed text when the lower-cased text
      occurs in its lower-cased name or in the lower-cased excerpt the card
      shows. */
  predicate SearchShows(s: Service, typed: string) {
    var q := Lower(typed);
    Contains(Lower(s.nombre), q) || Contains(Lower(Excerpt(s.descripcion)), q)
  }

  /** `filterServicesBySearch`: the cards left visible, in order. */
  function SearchResults(cards: seq<Service>, typed: string): (shown: seq<Service>)
    ensures forall s :: s in shown <==> s in cards && SearchShows(s, typed)
  {
    if cards == [] then []
    else (if SearchShows(cards[0], typed) then [cards[0]] else []) + SearchResults(cards[1..], typed)
  }

  /** The empty search shows every card. */
  lemma {:induction false} EmptySearchShowsAll(cards: seq<Service>)
    ensures SearchResults(cards, "") == cards
  {
    if cards != [] {
      assert SearchShows(cards[0], "");
      EmptySearchShowsAll(cards[1..]);
    }
  }

  /** Lower-casing is a projection. */
  lemma LowerIdempotent(s: string)
    ensures Lower(Lower(s)) == Lower(s)
  {
  }

  /** Upper and lower case in the typed text make no difference. */
  lemma SearchIgnoresCase(s: Service, typed: string)
    ensures SearchShows(s, Lower(typed)) == SearchShows(s, typed)
  {
    LowerIdempotent(typed);
  }

  /** Typing any part of a service's name, in any case, keeps its card. */
  lemma SearchFindsNamePart(s: Service, i: nat, j: nat)
    requires i <= j <= |s.nombre|
    ensures SearchShows(s, s.nombre[i..j])
  {
    var name := Lower(s.nombre);
    var q := Lower(s.nombre[i..j]);
    assert q == name[i..j];
    assert OccursAt(name, q, i);
    ContainsAt(name, q);
  }

  // ----- favourites --------------------------------------------------------

  /** The first position of `id` in `favorites`, as `indexOf` finds it. */
  function Position(favorites: seq<string>, id: string): (p: Option<nat>)
    ensures p.Some? ==> p.value < |favorites| && favorites[p.value] == id
                        && forall k :: 0 <= k < p.value ==> favorites[k] != id
    ensures p.None? <==> id !in favorites
  {
    if favorites == [] then None
    else if favorites[0] == id then Some(0)
    else
      var p := Position(favorites[1..], id);
      if p.None? then None else Some(p.value + 1)
  }

  /** The list after a toggle: a present id loses its first occurrence, an
      absent one is appended. */
  function Toggled(favorites: seq<string>, id: string): (r: seq<string>)
    ensures id !in favorites ==> multiset(r) == multiset(favorites) + multiset{id}
    ensures id in favorites ==> multiset(r) == multiset(favorites) - multiset{id}
  {
    var p := Position(favorites, id);
    if p.None? then favorites + [id]
    else
      var i := p.value;
      assert favorites == favorites[..i] + [id] + favorites[i + 1..];
      favorites[..i] + favorites[i + 1..]
  }

  /** No id listed twice. */
  predicate NoDuplicates(s: seq<string>) {
    forall i, j :: 0 <= i < j < |s| ==> s[i] != s[j]
  }

  /** On a list without duplicates, a toggle flips the id's membership,
      touches no other id and keeps the list free of duplicates. */
  lemma ToggleFlipsMembership(favorites: seq<string>, id: string)
    requires NoDuplicates(favorites)
    ensures id in Toggled(favorites, id) <==> id !in favorites
    ensures forall x :: x != id ==> (x in Toggled(favorites, id) <==> x in favorites)
    ensures NoDuplicates(Toggled(favorites, id))
  {
    var r := Toggled(favorites, id);
    var p := Position(favorites, id);
    if p.Some? {
      var i := p.value;
      assert multiset(favorites)[id] == 1 by {
        NoDuplicatesCount(favorites, i);
      }
      assert multiset(r)[id] == 0;
      forall a, b | 0 <= a < b < |r| ensures r[a] != r[b] {
        var a' := if a < i then a else a + 1;
        var b' := if b < i then b else b + 1;
        assert r[a] == favorites[a'] && r[b] == favorites[b'];
      }
    } else {
      forall a, b | 0 <= a < b < |r| ensures r[a] != r[b] {
        if b == |favorites| {
          assert r[a] == favorites[a];
        }
      }
    }
    forall x | x != id ensures x in r <==> x in favorites {
      assert x in multiset(r) <==> x in multiset(favorites);
    }
  }

  lemma {:induction false} NoDuplicatesCount(s: seq<string>, i: nat)
    requires NoDuplicates(s) && i < |s|
    ensures multiset(s)[s[i]] == 1
  {
    var x := s[i];
    assert s == s[..i] + [x] + s[i + 1..];
    assert x !in s[..i] by {
      forall k | 0 <= k < i ensures s[..i][k] != x {}
    }
    assert x !in s[i + 1..] by {
      forall k | i < k < |s| ensures s[k] != x {}
    }
  }

  /** Toggling an absent id twice gives back the list. */
  lemma ToggleTwiceRestores(favorites: seq<string>, id: string)
    requires id !in favorites
    ensures Toggled(Toggled(favorites, id), id) == favorites
  {
    var once := favorites + [id];
    assert Position(once, id) == Some(|favorites|) by {
      assert forall k :: 0 <= k < |favorites| ==> once[k] == favorites[k];
    }
    assert once[..|favorites|] == favorites;
  }

  /** `toggleFavorite`: finds the id with `indexOf`, then splices it out
      (an 'info' alert) or pushes it (a 'success' alert). */
  method ToggleFavorite(favorites: seq<string>, id: string) returns (updated: seq<string>, message: string, kind: string)
    ensures updated == Toggled(favorites, id)
    ensures id in favorites ==> message == "Eliminado de favoritos" && kind == "info"
    ensures id !in favorites ==> message == "Agregado a favoritos" && kind == "success"
  {
    var index := -1;
    var k := 0;
    while k < |favorites|
      invariant 0 <= k <= |favorites|
      invariant forall j :: 0 <= j < k ==> favorites[j] != id
    {
      if favorites[k] == id {
        index := k;
        break;
      }
      k := k + 1;
    }
    if index > -1 {
      assert Position(favorites, id) == Some(index);
      updated := favorites[..index] + favorites[index + 1..];
      message, kind := "Eliminado de favoritos", "info";
    } else {
      updated := favorites + [id];
      message, kind := "Agregado a favoritos", "success";
    }
  }

  // ----- the booking form --------------------------------------------------

  /** `loadAvailableTimes` once a date is chosen: the server's answer, or
      the fallback hours whenever the request does not succeed. */
  function LoadedTimes(response: ClientReservations.TimesResponse, day: int): (times: seq<string>)
    ensures response.Answered? ==> times == response.times
    ensures !response.Answered? ==> times == ReservationRoutes.AvailableSlots([], day)
  {
    ClientReservations.FallbackIsEmptyDay(day);
    if response.Answered? then response.times else ClientReservations.FallbackTimes
  }

  const NoServiceMessage := "Error: No hay servicio seleccionado"

  /** `handleReservation`'s checks: a service must be selected, then the
      date and hour checks shared with the edit form apply. */
  function ReservationCheck(hasService: bool, fecha: Option<int>, hora: string, todayStart: int): (o: Outcome)
    ensures !hasService ==> o == Rejected(NoServiceMessage)
    ensures o == Sent <==> hasService && ClientReservations.ScheduleCheck(fecha, hora, todayStart) == Sent
    ensures hasService ==> o == ClientReservations.ScheduleCheck(fecha, hora, todayStart)
  {
    if !hasService then Rejected(NoServiceMessage)
    else ClientReservations.ScheduleCheck(fecha, hora, todayStart)
  }

  // ----- the page's state --------------------------------------------------

  /** The catalogue page's globals: the services it shows and the one the
      detail or booking form is open on. */
  class CataloguePage {
    var allServices: seq<Service>
    var currentService: Option<Service>

    constructor ()
      ensures allServices == [] && currentService == None
    {
      allServices := [];
      currentService := None;
    }

    /** `loadAllServices`: the list endpoint's answer, or the page's sample
        services when the request does not succeed. */
    method Load(response: Option<seq<Service>>, sample: seq<Service>)
      modifies this
      ensures allServices == if response.Some? then response.value else sample
      ensures currentService == old(currentService)
    {
      allServices := if response.Some? then response.value else sample;
    }

    /** `openServiceModal`, and `quickReserve` for a signed-in visitor: the
        first shown service with that id becomes the current one; an unknown
        id changes nothing. */
    method Select(id: Id)
      modifies this
      ensures allServices == old(allServices)
      ensures ServiceRoutes.GetById(allServices, id).Found? ==>
                currentService == Some(ServiceRoutes.GetById(allServices, id).service)
      ensures ServiceRoutes.GetById(allServices, id).NotFound? ==> currentService == old(currentService)
    {
      var k := 0;
      while k < |allServices|
        invariant 0 <= k <= |allServices|
        invariant ServiceRoutes.GetById(allServices, id) == ServiceRoutes.GetById(allServices[k..], id)
      {
        if allServices[k].id == id {
          currentService := Some(allServices[k]);
          return;
        }
        assert allServices[k..][1..] == allServices[k + 1..];
        k := k + 1;
      }
    }

    /** `handleReservation` on the current service. */
    method Submit(fecha: Option<int>, hora: string, todayStart: int) returns (o: Outcome)
      ensures o == ReservationCheck(currentService.Some?, fecha, hora, todayStart)
      ensures currentService.None? ==> o == Rejected(NoServiceMessage)
    {
      if currentService.None? {
        return Rejected(NoServiceMessage);
      }
      o := ClientReservations.ScheduleCheck(fecha, hora, todayStart);
    }
  }
}
