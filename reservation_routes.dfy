/** The reservation table and its four operations: the free hours of a day,
    booking, editing and cancelling. The table is an in-memory sequence of
    reservations owned by a `ReservationBook` object, and each request is
    one method call, so requests run one at a time. The caller is the user
    id that token verification yields. The single consistency rule is that
    no two live (non-cancelled) reservations share a (fecha, hora) slot:
    booking and editing check for a holder before they write, and every
    operation keeps the rule. */
module ReservationRoutes {
  import opened Wrappers
  import opened Strings
  import opened Models
  import ServiceRoutes

  // ----- the day's schedule and its free hours -----------------------------

  /** The fixed schedule: 09:00 to 12:00 and 14:00 to 18:00, with no 13:00. */
  const Slots: seq<string> :=
    ["09:00", "10:00", "11:00", "12:00", "14:00", "15:00", "16:00", "17:00", "18:00"]

  lemma SlotsAscending()
    ensures Ascending(Slots)
  {
    assert LexLt(Slots[0], Slots[1]) && LexLt(Slots[1], Slots[2]) && LexLt(Slots[2], Slots[3]);
    assert LexLt(Slots[3], Slots[4]) && LexLt(Slots[4], Slots[5]) && LexLt(Slots[5], Slots[6]);
    assert LexLt(Slots[6], Slots[7]) && LexLt(Slots[7], Slots[8]);
    AscendingFromNeighbours(Slots);
  }

  /** `r` is live and booked at (fecha, hora), and is not the record `except`
      names: the filter of the conflict query. */
  predicate Blocks(r: Reservation, fecha: int, hora: string, except: Option<Id>) {
    && r.estado != Cancelada && r.fecha == fecha && r.hora == hora
    && (except.None? || r.id != except.value)
  }

  /** Some live reservation other than `except` holds (fecha, hora). With
      `except == None` this is "the slot is taken". */
  predicate Conflicts(rs: seq<Reservation>, fecha: int, hora: string, except: Option<Id>) {
    exists j :: 0 <= j < |rs| && Blocks(rs[j], fecha, hora, except)
  }

  /** The hours of `slots`, in their order, that no live reservation holds
      on `fecha`. */
  function FreeSlots(slots: seq<string>, rs: seq<Reservation>, fecha: int): (r: seq<string>)
    ensures forall h :: h in r <==> h in slots && !Conflicts(rs, fecha, h, None)
    ensures Ascending(slots) ==> Ascending(r)
  {
    if slots == [] then []
    else
      var rest := FreeSlots(slots[1..], rs, fecha);
      assert Ascending(slots) ==> Ascending(slots[1..]) by {
        if Ascending(slots) {
          forall i, j | 0 <= i < j < |slots[1..]| ensures LexLt(slots[1..][i], slots[1..][j]) {
            assert slots[1..][i] == slots[i + 1] && slots[1..][j] == slots[j + 1];
          }
        }
      }
      if Conflicts(rs, fecha, slots[0], None) then rest
      else
        assert Ascending(slots) ==> forall k :: 0 <= k < |rest| ==> LexLt(slots[0], rest[k]) by {
          if Ascending(slots) {
            forall k | 0 <= k < |rest| ensures LexLt(slots[0], rest[k]) {
              assert rest[k] in slots[1..];
              var m :| 0 <= m < |slots[1..]| && slots[1..][m] == rest[k];
              assert slots[m + 1] == rest[k];
            }
          }
        }
        [slots[0]] + rest
  }

  /** `GET /horarios-disponibles/:fecha`: the hours of the schedule not held
      by a live reservation on that day, in schedule order. */
  function AvailableSlots(rs: seq<Reservation>, fecha: int): (r: seq<string>)
    ensures forall h :: h in r <==> h in Slots && !Conflicts(rs, fecha, h, None)
    ensures Ascending(r)
  {
    SlotsAscending();
    FreeSlots(Slots, rs, fecha)
  }

  /** The two properties above pin the reply down: any ascending list of the
      free hours of the schedule is the reply. */
  lemma AvailabilityDetermined(rs: seq<Reservation>, fecha: int, hours: seq<string>)
    requires Ascending(hours)
    requires forall h :: h in hours <==> h in Slots && !Conflicts(rs, fecha, h, None)
    ensures hours == AvailableSlots(rs, fecha)
  {
    AscendingDeterminedByElements(hours, AvailableSlots(rs, fecha));
  }

  // ----- the table's invariant ---------------------------------------------

  /** No two live reservations share a (fecha, hora) slot. */
  ghost predicate OnePerSlot(rs: seq<Reservation>) {
    forall i, j :: 0 <= i < j < |rs| && rs[i].estado != Cancelada ==>
      !Blocks(rs[j], rs[i].fecha, rs[i].hora, None)
  }

  /** The table's invariant: ids are distinct and below the next id to hand
      out, every stored `hora` passed the schema's `required` check, and the
      slot rule holds. */
  ghost predicate WellFormed(rs: seq<Reservation>, nextId: Id) {
    && (forall i :: 0 <= i < |rs| ==> rs[i].id < nextId && rs[i].hora != "")
    && (forall i, j :: 0 <= i < j < |rs| ==> rs[i].id != rs[j].id)
    && OnePerSlot(rs)
  }

  /** Adding a reservation whose slot is free keeps the invariant. */
  lemma AppendPreservesWellFormed(rs: seq<Reservation>, n: Id, r: Reservation)
    requires WellFormed(rs, n)
    requires r.id == n && r.hora != ""
    requires !Conflicts(rs, r.fecha, r.hora, None)
    ensures WellFormed(rs + [r], n + 1)
  {
    var rs' := rs + [r];
    forall i, j | 0 <= i < j < |rs'| && rs'[i].estado != Cancelada
      ensures !Blocks(rs'[j], rs'[i].fecha, rs'[i].hora, None)
    {
      if j == |rs| {
        assert !Blocks(rs[i], r.fecha, r.hora, None);
      }
    }
  }

  /** Moving reservation `i` to (fecha, hora) keeps the invariant when the
      slot is its own already, or no other live reservation holds it. */
  lemma MovePreservesWellFormed(rs: seq<Reservation>, n: Id, i: nat, fecha: int, hora: string, notas: string)
    requires WellFormed(rs, n) && i < |rs| && hora != ""
    requires (fecha == rs[i].fecha && hora == rs[i].hora) || !Conflicts(rs, fecha, hora, Some(rs[i].id))
    ensures WellFormed(rs[i := rs[i].(fecha := fecha, hora := hora, notas := notas)], n)
  {
    var rs' := rs[i := rs[i].(fecha := fecha, hora := hora, notas := notas)];
    forall a, b | 0 <= a < b < |rs'| && rs'[a].estado != Cancelada
      ensures !Blocks(rs'[b], rs'[a].fecha, rs'[a].hora, None)
    {
      if a == i {
        assert rs[b].id != rs[i].id;
      } else if b == i {
        assert rs[a].id != rs[i].id;
      }
    }
  }

  /** Cancelling reservation `i` keeps the invariant. */
  lemma CancelPreservesWellFormed(rs: seq<Reservation>, n: Id, i: nat)
    requires WellFormed(rs, n) && i < |rs|
    ensures WellFormed(rs[i := rs[i].(estado := Cancelada)], n)
  {
  }

  // ----- availability after each operation ---------------------------------

  /** Once booked, an hour is no longer offered for that day. */
  lemma BookedHourWithdrawn(rs: seq<Reservation>, r: Reservation)
    requires r.estado != Cancelada
    ensures r.hora !in AvailableSlots(rs + [r], r.fecha)
  {
    assert Blocks((rs + [r])[|rs|], r.fecha, r.hora, None);
  }

  /** Cancelling a live reservation of one of the nine hours offers that
      hour again on its day: under the invariant nobody else held it. */
  lemma CancelledHourOfferedAgain(rs: seq<Reservation>, n: Id, i: nat)
    requires WellFormed(rs, n) && i < |rs|
    requires rs[i].estado != Cancelada && rs[i].hora in Slots
    ensures rs[i].hora in AvailableSlots(rs[i := rs[i].(estado := Cancelada)], rs[i].fecha)
  {
    var rs' := rs[i := rs[i].(estado := Cancelada)];
    forall j | 0 <= j < |rs'| ensures !Blocks(rs'[j], rs[i].fecha, rs[i].hora, None) {
      if j < i && rs[j].estado != Cancelada {
        assert !Blocks(rs[i], rs[j].fecha, rs[j].hora, None);
      }
    }
  }

  /** A live reservation never conflicts with itself: the conflict query of
      an edit leaves the edited record out, so under the invariant keeping
      one's own slot would pass the check even if it were made. */
  lemma OwnSlotNeverConflicts(rs: seq<Reservation>, n: Id, i: nat)
    requires WellFormed(rs, n) && i < |rs| && rs[i].estado != Cancelada
    ensures !Conflicts(rs, rs[i].fecha, rs[i].hora, Some(rs[i].id))
  {
    forall j | 0 <= j < |rs| ensures !Blocks(rs[j], rs[i].fecha, rs[i].hora, Some(rs[i].id)) {
      if j < i && rs[j].estado != Cancelada {
        assert !Blocks(rs[i], rs[j].fecha, rs[j].hora, None);
      }
    }
  }

  // ----- ownership ---------------------------------------------------------

  predicate Owns(r: Reservation, id: Id, caller: Id) {
    r.id == id && r.usuario == caller
  }

  /** `findOne({ _id: id, usuario: caller })` over the records from `k` on:
      the first index whose record has that id and belongs to the caller. */
  function OwnedFrom(rs: seq<Reservation>, id: Id, caller: Id, k: nat): (r: Option<nat>)
    requires k <= |rs|
    decreases |rs| - k
    ensures r.Some? ==> && k <= r.value < |rs| && Owns(rs[r.value], id, caller)
                        && forall j :: k <= j < r.value ==> !Owns(rs[j], id, caller)
    ensures r.None? ==> forall j :: k <= j < |rs| ==> !Owns(rs[j], id, caller)
  {
    if k == |rs| then None
    else if Owns(rs[k], id, caller) then Some(k)
    else OwnedFrom(rs, id, caller, k + 1)
  }

  /** The record the owner-only lookup finds: the first one with that id
      that belongs to the caller, and none when no record does. */
  function OwnedIndex(rs: seq<Reservation>, id: Id, caller: Id): (r: Option<nat>)
    ensures r.Some? ==> && r.value < |rs| && rs[r.value].id == id && rs[r.value].usuario == caller
                        && forall j :: 0 <= j < r.value ==> !Owns(rs[j], id, caller)
    ensures r.None? <==> forall j :: 0 <= j < |rs| ==> !Owns(rs[j], id, caller)
  {
    OwnedFrom(rs, id, caller, 0)
  }

  /** Another user's reservation is not found for the caller: ownership
      failures are reported exactly like a missing id. */
  lemma OthersReservationNotFound(rs: seq<Reservation>, n: Id, i: nat, caller: Id)
    requires WellFormed(rs, n) && i < |rs| && rs[i].usuario != caller
    ensures OwnedIndex(rs, rs[i].id, caller).None?
  {
    forall k | 0 <= k < |rs| ensures !Owns(rs[k], rs[i].id, caller) {
      if k < i {
        assert rs[k].id != rs[i].id;
      } else if i < k {
        assert rs[i].id != rs[k].id;
      }
    }
  }

  // ----- replies -----------------------------------------------------------

  /** An HTTP reply: status code, message and, for a created or updated
      reservation, the record. */
  datatype Reply = Reply(status: nat, message: string, reservation: Option<Reservation>)

  const ServiceNotFound := Reply(404, "Servicio no encontrado", None)
  const SlotTaken := Reply(400, "Horario no disponible", None)
  const ReservationNotFound := Reply(404, "Reserva no encontrada", None)
  const ServerError := Reply(500, "Error del servidor", None)

  /** `notas || ''` for a string field that may be absent. */
  function OrEmpty(notas: Option<string>): string {
    if notas.None? then "" else notas.value
  }

  // ----- the table ---------------------------------------------------------

  class ReservationBook {
    /** The stored reservations, in insertion order. */
    var reservations: seq<Reservation>
    /** The id the next stored reservation receives. */
    var nextId: Id

    ghost predicate Valid()
      reads this
    {
      WellFormed(reservations, nextId)
    }

    constructor ()
      ensures Valid()
      ensures reservations == [] && nextId == 0
    {
      reservations := [];
      nextId := 0;
    }

    /** The conflict query: is (fecha, hora) held by a live reservation
        other than `except`? */
    method FindConflict(fecha: int, hora: string, except: Option<Id>) returns (found: bool)
      ensures found == Conflicts(reservations, fecha, hora, except)
    {
      var j := 0;
      while j < |reservations|
        invariant 0 <= j <= |reservations|
        invariant forall k :: 0 <= k < j ==> !Blocks(reservations[k], fecha, hora, except)
      {
        if Blocks(reservations[j], fecha, hora, except) {
          return true;
        }
        j := j + 1;
      }
      return false;
    }

    /** The ownership query: where is the caller's reservation `id`? */
    method FindOwned(id: Id, caller: Id) returns (idx: Option<nat>)
      ensures idx == OwnedIndex(reservations, id, caller)
    {
      var j := 0;
      while j < |reservations|
        invariant 0 <= j <= |reservations|
        invariant forall k :: 0 <= k < j ==> !Owns(reservations[k], id, caller)
      {
        if Owns(reservations[j], id, caller) {
          return Some(j);
        }
        j := j + 1;
      }
      return None;
    }

    /** `POST /`: books `servicioId` at (fecha, hora) for the caller. The
        service must exist (its availability flag is not looked at), then
        the slot must be free; the record is saved with estado 'pendiente',
        `notas || ''`, and the clock reading `now` as its creation time. An
        empty `hora` fails the schema's validation on save. */
    method Create(catalogue: seq<Service>, caller: Id, servicioId: Id, fecha: int, hora: string,
                  notas: Option<string>, now: int) returns (reply: Reply)
      requires Valid()
      modifies this
      ensures Valid()
      ensures !ServiceRoutes.Exists(catalogue, servicioId) ==> reply == ServiceNotFound
      ensures (ServiceRoutes.Exists(catalogue, servicioId) && Conflicts(old(reservations), fecha, hora, None))
                ==> reply == SlotTaken
      ensures (ServiceRoutes.Exists(catalogue, servicioId) && !Conflicts(old(reservations), fecha, hora, None)
                 && hora == "") ==> reply == ServerError
      ensures (ServiceRoutes.Exists(catalogue, servicioId) && !Conflicts(old(reservations), fecha, hora, None)
                 && hora != "") ==> reply.status == 201
      ensures reply.status != 201 ==> reservations == old(reservations) && nextId == old(nextId)
      ensures reply.status == 201 ==>
                && reply.reservation == Some(Reservation(old(nextId), caller, servicioId, fecha, hora,
                                                         OrEmpty(notas), Pendiente, now))
                && reservations == old(reservations) + [reply.reservation.value]
                && nextId == old(nextId) + 1
                && reply.message == "Reserva creada exitosamente"
                && hora !in AvailableSlots(reservations, fecha)
    {
      if ServiceRoutes.GetById(catalogue, servicioId).NotFound? {
        return ServiceNotFound;
      }
      var taken := FindConflict(fecha, hora, None);
      if taken {
        return SlotTaken;
      }
      var made := MakeReservation(nextId, caller, servicioId, fecha, hora, Some(OrEmpty(notas)), None, now);
      if made.Err? {
        return ServerError;
      }
      var r := made.value;
      AppendPreservesWellFormed(reservations, nextId, r);
      BookedHourWithdrawn(reservations, r);
      reservations := reservations + [r];
      nextId := nextId + 1;
      reply := Reply(201, "Reserva creada exitosamente", Some(r));
    }

    /** `PUT /:id`: the owner moves a reservation to (fecha, hora) and
        replaces its notes. The slot is checked only when it changes, leaving
        the record itself out of the check; an empty `hora` fails the
        schema's validation on save. Nothing but fecha, hora and notas of that
        one record changes. */
    method Update(caller: Id, id: Id, fecha: int, hora: string, notas: Option<string>)
      returns (reply: Reply)
      requires Valid()
      modifies this
      ensures Valid()
      ensures nextId == old(nextId)
      ensures OwnedIndex(old(reservations), id, caller).None? ==>
                reply == ReservationNotFound && reservations == old(reservations)
      ensures OwnedIndex(old(reservations), id, caller).Some? ==>
                var i := OwnedIndex(old(reservations), id, caller).value;
                var r := old(reservations)[i];
                var refused := (fecha != r.fecha || hora != r.hora)
                               && Conflicts(old(reservations), fecha, hora, Some(id));
                && (refused ==> reply == SlotTaken && reservations == old(reservations))
                && (!refused && hora == "" ==> reply == ServerError && reservations == old(reservations))
                && (!refused && hora != "" ==>
                      var r' := r.(fecha := fecha, hora := hora, notas := OrEmpty(notas));
                      && reservations == old(reservations)[i := r']
                      && reply == Reply(200, "Reserva actualizada exitosamente", Some(r')))
    {
      var idx := FindOwned(id, caller);
      if idx.None? {
        return ReservationNotFound;
      }
      var i := idx.value;
      var r := reservations[i];
      if fecha != r.fecha || hora != r.hora {
        var taken := FindConflict(fecha, hora, Some(id));
        if taken {
          return SlotTaken;
        }
      }
      if hora == "" {
        // the `required` validator on save
        return ServerError;
      }
      var r' := r.(fecha := fecha, hora := hora, notas := OrEmpty(notas));
      MovePreservesWellFormed(reservations, nextId, i, fecha, hora, OrEmpty(notas));
      reservations := reservations[i := r'];
      reply := Reply(200, "Reserva actualizada exitosamente", Some(r'));
    }

    /** `DELETE /:id`: the owner's logical delete. The record stays, with
        estado 'cancelada' whatever it was, which frees its slot. */
    method Cancel(caller: Id, id: Id) returns (reply: Reply)
      requires Valid()
      modifies this
      ensures Valid()
      ensures nextId == old(nextId)
      ensures OwnedIndex(old(reservations), id, caller).None? ==>
                reply == ReservationNotFound && reservations == old(reservations)
      ensures OwnedIndex(old(reservations), id, caller).Some? ==>
                var i := OwnedIndex(old(reservations), id, caller).value;
                var r := old(reservations)[i];
                && reservations == old(reservations)[i := r.(estado := Cancelada)]
                && reply == Reply(200, "Reserva cancelada exitosamente", None)
                && (r.estado == Cancelada ==> reservations == old(reservations))
                && (r.estado != Cancelada && r.hora in Slots ==> r.hora in AvailableSlots(reservations, r.fecha))
    {
      var idx := FindOwned(id, caller);
      if idx.None? {
        return ReservationNotFound;
      }
      var i := idx.value;
      var r := reservations[i];
      CancelPreservesWellFormed(reservations, nextId, i);
      if r.estado != Cancelada && r.hora in Slots {
        CancelledHourOfferedAgain(reservations, nextId, i);
      }
      reservations := reservations[i := r.(estado := Cancelada)];
      reply := Reply(200, "Reserva cancelada exitosamente", None);
    }
  }
}
