/** The two schemas of the booking core: a Reservation (a client's booking
    of one service at one date and hour) and a Service (an entry of the
    catalogue). Each becomes a datatype, and building a document from raw
    field values becomes a function that applies the schema's defaults,
    setters and validators, failing with the list of fields that did not
    validate, as saving such a document does. */
module Models {
  import opened Wrappers
  import opened Strings

  /** A document identifier (an ObjectId). */
  type Id = nat

  // ----- Reservation -------------------------------------------------------

  /** The closed set of reservation states. */
  datatype Estado = Pendiente | Confirmada | Completada | Cancelada

  /** The literal stored for each state. */
  function EstadoName(e: Estado): string {
    match e
    case Pendiente => "pendiente"
    case Confirmada => "confirmada"
    case Completada => "completada"
    case Cancelada => "cancelada"
  }

  /** The schema's `enum` validator: a stored string is one of the four
      literals, and then names exactly one state. */
  function ParseEstado(s: string): (r: Option<Estado>)
    ensures r.Some? ==> EstadoName(r.value) == s
    ensures r.None? ==> forall e :: EstadoName(e) != s
  {
    if s == "pendiente" then Some(Pendiente)
    else if s == "confirmada" then Some(Confirmada)
    else if s == "completada" then Some(Completada)
    else if s == "cancelada" then Some(Cancelada)
    else None
  }

  lemma EstadoRoundTrip(e: Estado)
    ensures ParseEstado(EstadoName(e)) == Some(e)
  {
  }

  /** A stored reservation. `fecha` is a day number (the booked calendar day,
      stored as its midnight); `fechaCreacion` the creation instant. */
  datatype Reservation = Reservation(
    id: Id,
    usuario: Id,
    servicio: Id,
    fecha: int,
    hora: string,
    notas: string,
    estado: Estado,
    fechaCreacion: int)

  /** Builds and validates a reservation document. `notas` and `estado` may be
      left unset (`None`), and then take their defaults '' and 'pendiente';
      `now` is the clock reading used for `fechaCreacion`. The `required`
      validator rejects an empty `hora`, and the `enum` validator an `estado`
      outside the four literals. */
  function MakeReservation(id: Id, usuario: Id, servicio: Id, fecha: int, hora: string,
                           notas: Option<string>, estado: Option<string>, now: int)
    : (r: Result<Reservation, seq<string>>)
    ensures r.Ok? <==> hora != "" && (estado.None? || ParseEstado(estado.value).Some?)
    ensures r.Err? ==> r.error != [] && forall f :: f in r.error ==> f in ["hora", "estado"]
    ensures r.Ok? ==> && r.value.id == id && r.value.usuario == usuario
                      && r.value.servicio == servicio && r.value.fecha == fecha
                      && r.value.hora == hora && r.value.fechaCreacion == now
    ensures r.Ok? && notas.None? ==> r.value.notas == ""
    ensures r.Ok? && notas.Some? ==> r.value.notas == notas.value
    ensures r.Ok? && estado.None? ==> r.value.estado == Pendiente
    ensures r.Ok? && estado.Some? ==> EstadoName(r.value.estado) == estado.value
  {
    var parsed := if estado.None? then Some(Pendiente) else ParseEstado(estado.value);
    var failed := (if hora == "" then ["hora"] else [])
                  + (if parsed.None? then ["estado"] else []);
    if failed != [] then Err(failed)
    else Ok(Reservation(id, usuario, servicio, fecha, hora,
                        if notas.None? then "" else notas.value, parsed.value, now))
  }

  // ----- Service -----------------------------------------------------------

  /** The closed set of catalogue categories. */
  datatype Categoria = Masajes | Faciales | Corporales | Relajacion | Belleza

  function CategoriaName(c: Categoria): string {
    match c
    case Masajes => "masajes"
    case Faciales => "faciales"
    case Corporales => "corporales"
    case Relajacion => "relajacion"
    case Belleza => "belleza"
  }

  function ParseCategoria(s: string): (r: Option<Categoria>)
    ensures r.Some? ==> CategoriaName(r.value) == s
    ensures r.None? ==> forall c :: CategoriaName(c) != s
  {
    if s == "masajes" then Some(Masajes)
    else if s == "faciales" then Some(Faciales)
    else if s == "corporales" then Some(Corporales)
    else if s == "relajacion" then Some(Relajacion)
    else if s == "belleza" then Some(Belleza)
    else None
  }

  lemma CategoriaRoundTrip(c: Categoria)
    ensures ParseCategoria(CategoriaName(c)) == Some(c)
  {
  }

  /** The image a service gets when none is given. */
  const DefaultImage: string := "/images/default-service.jpg"

  /** A catalogue entry; `precio` and `duracion` (minutes) are whole numbers. */
  datatype Service = Service(
    id: Id,
    nombre: string,
    descripcion: string,
    precio: int,
    duracion: int,
    imagen: string,
    categoria: Categoria,
    disponible: bool)

  /** Builds and validates a service document: `nombre` goes through the
      `trim` setter before the `required` check, `imagen` and `disponible`
      default to the placeholder image and `true`, and the required
      `precio`, `duracion` and `categoria` must be present, the last one
      being one of the five categories. */
  function MakeService(id: Id, nombre: string, descripcion: string,
                       precio: Option<int>, duracion: Option<int>, imagen: Option<string>,
                       categoria: string, disponible: Option<bool>)
    : (r: Result<Service, seq<string>>)
    ensures r.Ok? <==> && Trim(nombre) != "" && descripcion != ""
                       && precio.Some? && duracion.Some?
                       && ParseCategoria(categoria).Some?
    ensures r.Err? ==> r.error != []
    ensures r.Ok? ==> && r.value.id == id && r.value.nombre == Trim(nombre)
                      && r.value.descripcion == descripcion
                      && r.value.precio == precio.value && r.value.duracion == duracion.value
                      && CategoriaName(r.value.categoria) == categoria
    ensures r.Ok? ==> r.value.imagen == (if imagen.None? then DefaultImage else imagen.value)
    ensures r.Ok? ==> r.value.disponible == (disponible.None? || disponible.value)
  {
    var name := Trim(nombre);
    var cat := ParseCategoria(categoria);
    var failed := (if name == "" then ["nombre"] else [])
                  + (if descripcion == "" then ["descripcion"] else [])
                  + (if precio.None? then ["precio"] else [])
                  + (if duracion.None? then ["duracion"] else [])
                  + (if cat.None? then ["categoria"] else []);
    if failed != [] then Err(failed)
    else Ok(Service(id, name, descripcion, precio.value, duracion.value,
                    if imagen.None? then DefaultImage else imagen.value,
                    cat.value,
                    if disponible.None? then true else disponible.value))
  }

  /** The stored name of a service is already trimmed. */
  lemma ServiceNameTrimmed(id: Id, nombre: string, descripcion: string,
                           precio: Option<int>, duracion: Option<int>, imagen: Option<string>,
                           categoria: string, disponible: Option<bool>)
    requires MakeService(id, nombre, descripcion, precio, duracion, imagen, categoria, disponible).Ok?
    ensures var s := MakeService(id, nombre, descripcion, precio, duracion, imagen, categoria, disponible).value;
            s.nombre != "" && Trim(s.nombre) == s.nombre
  {
    TrimIdempotent(nombre);
  }
}
