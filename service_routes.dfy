/** The read-only catalogue queries: the list of bookable services, one
    service by id, and the bookable services of one category. The catalogue
    is the sequence of stored services, in stored order. */
module ServiceRoutes {
  import opened Models

  /** No two stored services share an id. */
  predicate DistinctIds(services: seq<Service>) {
    forall i, j :: 0 <= i < j < |services| ==> services[i].id != services[j].id
  }

  /** `find({ disponible: true })`: the available services, in stored order. */
  function ListAvailable(services: seq<Service>): (r: seq<Service>)
    ensures forall s :: s in r <==> s in services && s.disponible
    ensures |r| <= |services|
  {
    if services == [] then []
    else (if services[0].disponible then [services[0]] else [])
         + ListAvailable(services[1..])
  }

  /** `find({ categoria, disponible: true })`, where the category arrives as
      the raw path segment: a name outside the five categories matches
      nothing. */
  function ListByCategory(services: seq<Service>, categoria: string): (r: seq<Service>)
    ensures forall s :: s in r <==> s in services && s.disponible && CategoriaName(s.categoria) == categoria
    ensures |r| <= |services|
  {
    if services == [] then []
    else (if services[0].disponible && CategoriaName(services[0].categoria) == categoria
          then [services[0]] else [])
         + ListByCategory(services[1..], categoria)
  }

  /** The services of one category, in the order the list endpoint gives them. */
  function OfCategory(services: seq<Service>, categoria: string): seq<Service> {
    if services == [] then []
    else (if CategoriaName(services[0].categoria) == categoria then [services[0]] else [])
         + OfCategory(services[1..], categoria)
  }

  /** The category endpoint returns exactly the list endpoint's result
      restricted to that category, in the same order; so it is a sublist of
      it, and empty for a name that is not a category. */
  lemma {:induction false} ByCategoryRefinesAvailable(services: seq<Service>, categoria: string)
    ensures ListByCategory(services, categoria) == OfCategory(ListAvailable(services), categoria)
    ensures ParseCategoria(categoria).None? ==> ListByCategory(services, categoria) == []
  {
    if services != [] {
      ByCategoryRefinesAvailable(services[1..], categoria);
      var head := if services[0].disponible then [services[0]] else [];
      var tail := ListAvailable(services[1..]);
      OfCategoryOfConcat(head, tail, categoria);
    }
  }

  lemma {:induction false} OfCategoryOfConcat(a: seq<Service>, b: seq<Service>, categoria: string)
    ensures OfCategory(a + b, categoria) == OfCategory(a, categoria) + OfCategory(b, categoria)
  {
    if a != [] {
      assert (a + b)[1..] == a[1..] + b;
      OfCategoryOfConcat(a[1..], b, categoria);
    } else {
      assert a + b == b;
    }
  }

  /** The reply of `GET /:id`. */
  datatype Lookup = Found(service: Service) | NotFound(status: nat, message: string)

  /** `findById`: the service with that id, or 404 'Servicio no encontrado'.
      Availability is not looked at. */
  function GetById(services: seq<Service>, id: Id): (r: Lookup)
    ensures r.Found? ==> r.service in services && r.service.id == id
    ensures r.Found? ==> exists k :: 0 <= k < |services| && services[k] == r.service
                                     && forall j :: 0 <= j < k ==> services[j].id != id
    ensures r.NotFound? <==> forall s :: s in services ==> s.id != id
    ensures r.NotFound? ==> r.status == 404 && r.message == "Servicio no encontrado"
  {
    if services == [] then NotFound(404, "Servicio no encontrado")
    else if services[0].id == id then Found(services[0])
    else GetById(services[1..], id)
  }

  /** Whether a service with that id exists: the only check the booking
      flow makes on the service. */
  predicate Exists(services: seq<Service>, id: Id) {
    exists s :: s in services && s.id == id
  }

  /** Looking up a stored service by its own id returns that very service,
      whether or not it is available. */
  lemma GetByIdFindsUnavailableToo(services: seq<Service>, k: nat)
    requires DistinctIds(services) && k < |services|
    ensures GetById(services, services[k].id) == Found(services[k])
    ensures Exists(services, services[k].id)
  {
    var r := GetById(services, services[k].id);
    assert r.Found? by {
      assert services[k] in services;
    }
    var i :| 0 <= i < |services| && services[i] == r.service;
    assert i == k;
  }
}
