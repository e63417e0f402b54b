/** Reservation admission (`POST /reservas`): a fixed chain of checks, each
    short-circuiting, followed by a single insert of a pending reservation.
    Dates are day numbers and "today" is a parameter. */
module Reservations {
  import opened Common
  import opened Tables
  import Rooms

  const Pendiente := "pendiente"
  const Pagada := "pagada"
  const Cancelada := "cancelada"
  const Disponible := "disponible"

  /** A row of the Reservas table. `habitacionId` is NULL in legacy rows, which
      are matched by their type label `habitacion` instead. */
  datatype Reservation = Reservation(
    nombre: string,
    correo: string,
    habitacion: string,
    habitacionId: Option<int>,
    entrada: int,
    salida: int,
    personas: int,
    precioNoche: int,
    total: int,
    metodoPago: string,
    estado: string,
    montoPagado: Option<int>)

  /** The JSON body of `POST /reservas`; the two dates already read as day numbers. */
  datatype ReservaRequest = ReservaRequest(
    nombre: Field<string>,
    correo: Field<string>,
    email: Field<string>,
    habitacion: Field<string>,
    habitacionId: Field<int>,
    fechaEntrada: Field<int>,
    fechaSalida: Field<int>,
    personas: Field<int>,
    precioNoche: Field<int>,
    total: Field<int>,
    metodoPago: Field<string>)

  datatype Rejection =
    | MissingFields
    | RoomNotFound
    | RoomUnavailable(tipo: Option<string>, estado: Option<string>)
    | EntryBeforeToday
    | ExitNotAfterEntry
    | RoomTaken
    | LegacyTypeTaken

  /** Only pending and paid reservations hold their dates. */
  predicate Active(r: Reservation) {
    r.estado == Pendiente || r.estado == Pagada
  }

  /** Half-open overlap of [aIn, aOut) and [bIn, bOut). */
  predicate Overlap(aIn: int, aOut: int, bIn: int, bOut: int) {
    aIn < bOut && aOut > bIn
  }

  /** The condition of the id-keyed conflict query. */
  predicate ClashById(r: Reservation, hid: int, entrada: int, salida: int) {
    Active(r) && r.habitacionId == Some(hid) && Overlap(r.entrada, r.salida, entrada, salida)
  }

  /** The condition of the legacy query: no room id, same normalised type label. */
  predicate ClashByType(r: Reservation, tipo: string, entrada: int, salida: int) {
    && Active(r)
    && r.habitacionId.None?
    && Normalize(r.habitacion) == Normalize(tipo)
    && Overlap(r.entrada, r.salida, entrada, salida)
  }

  ghost predicate TakenById(rows: seq<Row<Reservation>>, hid: int, entrada: int, salida: int) {
    exists i :: 0 <= i < |rows| && ClashById(rows[i].data, hid, entrada, salida)
  }

  ghost predicate TakenByType(rows: seq<Row<Reservation>>, tipo: string, entrada: int, salida: int) {
    exists i :: 0 <= i < |rows| && ClashByType(rows[i].data, tipo, entrada, salida)
  }

  /** `SELECT id FROM Reservas WHERE <active, same room id, overlapping>`. */
  function IdConflicts(rows: seq<Row<Reservation>>, hid: int, entrada: int, salida: int): (r: seq<Row<Reservation>>)
    ensures r == [] <==> !TakenById(rows, hid, entrada, salida)
  {
    var m := Select(rows, (x: Row<Reservation>) => ClashById(x.data, hid, entrada, salida));
    assert m != [] ==> m[0] in m;
    m
  }

  /** `SELECT id FROM Reservas WHERE <active, NULL room id, same type, overlapping>`. */
  function TypeConflicts(rows: seq<Row<Reservation>>, tipo: string, entrada: int, salida: int): (r: seq<Row<Reservation>>)
    ensures r == [] <==> !TakenByType(rows, tipo, entrada, salida)
  {
    var m := Select(rows, (x: Row<Reservation>) => ClashByType(x.data, tipo, entrada, salida));
    assert m != [] ==> m[0] in m;
    m
  }

  /** `correo || email`. */
  function Contact(req: ReservaRequest): Field<string> {
    if Truthy(req.correo) then req.correo else req.email
  }

  /** Every required field is truthy (dates: present). */
  predicate Complete(req: ReservaRequest) {
    && Truthy(req.nombre)
    && Truthy(Contact(req))
    && Truthy(req.habitacion)
    && TruthyNum(req.habitacionId)
    && req.fechaEntrada.Given?
    && req.fechaSalida.Given?
    && TruthyNum(req.precioNoche)
    && Truthy(req.metodoPago)
  }

  /** The room state compared case-insensitively, NULL read as "". */
  predicate Bookable(room: Rooms.Room) {
    Lower(room.estado.GetOr("")) == Disponible
  }

  /** The row inserted on success. */
  function NewReservation(req: ReservaRequest): Reservation
    requires Complete(req)
  {
    Reservation(
      req.nombre.value, Contact(req).value, req.habitacion.value, Some(req.habitacionId.value),
      req.fechaEntrada.value, req.fechaSalida.value,
      OrNum(req.personas, 1), req.precioNoche.value, OrNum(req.total, req.precioNoche.value),
      req.metodoPago.value, Pendiente, None)
  }

  /** `POST /reservas`. */
  function Admit(rooms: Table<Rooms.Room>, reservas: Table<Reservation>, req: ReservaRequest, today: int)
    : (r: Result<Table<Reservation>, Rejection>)
    // 1. required fields
    ensures !Complete(req) <==> r == Err(MissingFields)
    // 2. room exists
    ensures Complete(req) ==>
      (r == Err(RoomNotFound) <==> !HasId(rooms.rows, req.habitacionId.value))
    // 3. room available
    ensures Complete(req) && HasId(rooms.rows, req.habitacionId.value) ==>
      var room := Find(rooms, req.habitacionId.value).value;
      (r.Err? && r.error.RoomUnavailable? <==> !Bookable(room))
      && (r.Err? && r.error.RoomUnavailable? ==> r.error == RoomUnavailable(room.tipo, room.estado))
    // 4. entry not in the past, once checks 1-3 pass
    ensures (Complete(req) && HasId(rooms.rows, req.habitacionId.value)
             && Bookable(Find(rooms, req.habitacionId.value).value)) ==>
      (r == Err(EntryBeforeToday) <==> req.fechaEntrada.value < today)
    // 5. exit after entry, once checks 1-4 pass
    ensures (Complete(req) && HasId(rooms.rows, req.habitacionId.value)
             && Bookable(Find(rooms, req.habitacionId.value).value) && today <= req.fechaEntrada.value) ==>
      (r == Err(ExitNotAfterEntry) <==> req.fechaSalida.value <= req.fechaEntrada.value)
    // 6. id-keyed conflict, once checks 1-5 pass
    ensures (Complete(req) && HasId(rooms.rows, req.habitacionId.value)
             && Bookable(Find(rooms, req.habitacionId.value).value)
             && today <= req.fechaEntrada.value < req.fechaSalida.value) ==>
      (r == Err(RoomTaken) <==>
         TakenById(reservas.rows, req.habitacionId.value, req.fechaEntrada.value, req.fechaSalida.value))
    // 7. legacy conflict, consulted only when there is no id-keyed one
    ensures (Complete(req) && HasId(rooms.rows, req.habitacionId.value)
             && Bookable(Find(rooms, req.habitacionId.value).value)
             && today <= req.fechaEntrada.value < req.fechaSalida.value
             && !TakenById(reservas.rows, req.habitacionId.value, req.fechaEntrada.value, req.fechaSalida.value)) ==>
      (r == Err(LegacyTypeTaken) <==>
         TakenByType(reservas.rows, req.habitacion.value, req.fechaEntrada.value, req.fechaSalida.value))
    ensures r == Err(RoomTaken) ==>
      TakenById(reservas.rows, req.habitacionId.value, req.fechaEntrada.value, req.fechaSalida.value)
    ensures r == Err(LegacyTypeTaken) ==>
      && !TakenById(reservas.rows, req.habitacionId.value, req.fechaEntrada.value, req.fechaSalida.value)
      && TakenByType(reservas.rows, req.habitacion.value, req.fechaEntrada.value, req.fechaSalida.value)
    // admission iff every check passes
    ensures r.Ok? <==>
      && Complete(req)
      && HasId(rooms.rows, req.habitacionId.value)
      && Bookable(Find(rooms, req.habitacionId.value).value)
      && today <= req.fechaEntrada.value < req.fechaSalida.value
      && !TakenById(reservas.rows, req.habitacionId.value, req.fechaEntrada.value, req.fechaSalida.value)
      && !TakenByType(reservas.rows, req.habitacion.value, req.fechaEntrada.value, req.fechaSalida.value)
    // exactly one insert, of a pending reservation with the defaults applied
    ensures r.Ok? ==>
      && |r.value.rows| == |reservas.rows| + 1
      && r.value.rows[..|reservas.rows|] == reservas.rows
      && r.value.rows[|reservas.rows|].id == reservas.nextId
      && (Valid(reservas) ==> Valid(r.value))
    ensures r.Ok? ==> var n := r.value.rows[|reservas.rows|].data;
      && n.estado == Pendiente
      && n.nombre == req.nombre.value
      && n.habitacion == req.habitacion.value
      && n.precioNoche == req.precioNoche.value
      && n.metodoPago == req.metodoPago.value
      && n.habitacionId == Some(req.habitacionId.value)
      && n.entrada == req.fechaEntrada.value && n.salida == req.fechaSalida.value
      && n.correo == (if Truthy(req.correo) then req.correo.value else req.email.value)
      && (TruthyNum(req.personas) ==> n.personas == req.personas.value)
      && (!TruthyNum(req.personas) ==> n.personas == 1)
      && (TruthyNum(req.total) ==> n.total == req.total.value)
      && (!TruthyNum(req.total) ==> n.total == req.precioNoche.value)
      && n.montoPagado.None?
  {
    if !Complete(req) then
      Err(MissingFields)
    else
      var hid := req.habitacionId.value;
      var entrada := req.fechaEntrada.value;
      var salida := req.fechaSalida.value;
      match Find(rooms, hid)
      case None => Err(RoomNotFound)
      case Some(room) =>
        if !Bookable(room) then Err(RoomUnavailable(room.tipo, room.estado))
        else if entrada < today then Err(EntryBeforeToday)
        else if salida <= entrada then Err(ExitNotAfterEntry)
        else if IdConflicts(reservas.rows, hid, entrada, salida) != [] then Err(RoomTaken)
        else if TypeConflicts(reservas.rows, req.habitacion.value, entrada, salida) != [] then Err(LegacyTypeTaken)
        else Ok(Insert(reservas, NewReservation(req)))
  }

  /** No two active reservations on the same room id overlap. */
  ghost predicate NoDoubleBooking(rows: seq<Row<Reservation>>) {
    forall i, j ::
      0 <= i < |rows| && 0 <= j < |rows| && i != j
      && Active(rows[i].data) && Active(rows[j].data)
      && rows[i].data.habitacionId.Some? && rows[i].data.habitacionId == rows[j].data.habitacionId
      ==> !Overlap(rows[i].data.entrada, rows[i].data.salida, rows[j].data.entrada, rows[j].data.salida)
  }

  /** The store invariant: well-formed keys and no double booking. */
  ghost predicate Consistent(t: Table<Reservation>) {
    Valid(t) && NoDoubleBooking(t.rows)
  }

  /** A successful admission keeps every room free of double bookings. */
  lemma {:induction false} AdmitKeepsNoDoubleBooking(
    rooms: Table<Rooms.Room>, reservas: Table<Reservation>, req: ReservaRequest, today: int)
    requires Consistent(reservas)
    requires Admit(rooms, reservas, req, today).Ok?
    ensures Consistent(Admit(rooms, reservas, req, today).value)
  {
    var rows := Admit(rooms, reservas, req, today).value.rows;
    var n := |reservas.rows|;
    var hid := req.habitacionId.value;
    var e := req.fechaEntrada.value;
    var s := req.fechaSalida.value;
    assert rows[n].data == NewReservation(req);
    forall i, j |
      0 <= i < |rows| && 0 <= j < |rows| && i != j
      && Active(rows[i].data) && Active(rows[j].data)
      && rows[i].data.habitacionId.Some? && rows[i].data.habitacionId == rows[j].data.habitacionId
      ensures !Overlap(rows[i].data.entrada, rows[i].data.salida, rows[j].data.entrada, rows[j].data.salida)
    {
      if i == n {
        assert rows[j] == reservas.rows[j];
        assert !ClashById(reservas.rows[j].data, hid, e, s);
      } else if j == n {
        assert rows[i] == reservas.rows[i];
        assert !ClashById(reservas.rows[i].data, hid, e, s);
      } else {
        assert rows[i] == reservas.rows[i] && rows[j] == reservas.rows[j];
      }
    }
  }

  /** Any capitalisation of "Disponible" makes a room bookable. */
  lemma DisponibleBookable(room: Rooms.Room)
    requires room.estado == Some("Disponible")
    ensures Bookable(room)
  {
    assert Lower("Disponible") == Disponible;
  }

  /** Two active reservations on the same room that merely touch, one ending
      the day the other begins, do not conflict. */
  lemma TouchingRangesAdmitted(rooms: Table<Rooms.Room>, req: ReservaRequest, today: int, booked: Reservation)
    requires Complete(req) && req.habitacionId.value == 7
    requires req.fechaEntrada == Given(5) && req.fechaSalida == Given(10) && today <= 5
    requires HasId(rooms.rows, 7) && Find(rooms, 7).value.estado == Some("Disponible")
    requires booked.estado == Pendiente && booked.habitacionId == Some(7) && booked.entrada == 1 && booked.salida == 5
    ensures Admit(rooms, Table([Row(1, booked)], 2), req, today).Ok?
  {
    DisponibleBookable(Find(rooms, 7).value);
    var t := Table([Row(1, booked)], 2);
    forall i | 0 <= i < |t.rows|
      ensures !ClashById(t.rows[i].data, 7, 5, 10) && !ClashByType(t.rows[i].data, req.habitacion.value, 5, 10)
    {
      assert i == 0;
    }
    AllChecksPass(rooms, t, req, today);
  }

  /** A request that passes every check is admitted. */
  lemma AllChecksPass(rooms: Table<Rooms.Room>, reservas: Table<Reservation>, req: ReservaRequest, today: int)
    requires Complete(req) && HasId(rooms.rows, req.habitacionId.value)
    requires Bookable(Find(rooms, req.habitacionId.value).value)
    requires today <= req.fechaEntrada.value < req.fechaSalida.value
    requires !TakenById(reservas.rows, req.habitacionId.value, req.fechaEntrada.value, req.fechaSalida.value)
    requires !TakenByType(reservas.rows, req.habitacion.value, req.fechaEntrada.value, req.fechaSalida.value)
    ensures Admit(rooms, reservas, req, today).Ok?
  {
  }

  /** A request inside an active reservation's range on the same room is rejected. */
  lemma OverlappingRangeRejected(rooms: Table<Rooms.Room>, req: ReservaRequest, today: int, booked: Reservation)
    requires Complete(req) && req.habitacionId.value == 7
    requires req.fechaEntrada == Given(5) && req.fechaSalida == Given(7) && today <= 5
    requires HasId(rooms.rows, 7) && Find(rooms, 7).value.estado == Some("Disponible")
    requires booked.estado == Pendiente && booked.habitacionId == Some(7) && booked.entrada == 1 && booked.salida == 10
    ensures Admit(rooms, Table([Row(1, booked)], 2), req, today) == Err(RoomTaken)
  {
    DisponibleBookable(Find(rooms, 7).value);
    var rows := [Row(1, booked)];
    assert ClashById(rows[0].data, 7, 5, 7);
  }

  /** The legacy query runs whenever the id-keyed query finds no overlap, even
      when the room already holds id-keyed reservations on other dates: an
      overlapping legacy row whose type label differs only in case and
      trailing spaces still blocks the request. */
  lemma LegacyCheckedDespiteIdKeyedRows(
    rooms: Table<Rooms.Room>, req: ReservaRequest, today: int, byId: Reservation, legacy: Reservation)
    requires Complete(req) && req.habitacionId.value == 7 && req.habitacion.value == "doble"
    requires req.fechaEntrada == Given(11) && req.fechaSalida == Given(12) && today <= 11
    requires HasId(rooms.rows, 7) && Find(rooms, 7).value.estado == Some("Disponible")
    requires byId.estado == Pendiente && byId.habitacionId == Some(7) && byId.entrada == 1 && byId.salida == 3
    requires legacy.estado == Pagada && legacy.habitacionId.None? && legacy.habitacion == "Doble "
    requires legacy.entrada == 10 && legacy.salida == 15
    ensures Admit(rooms, Table([Row(1, byId), Row(2, legacy)], 3), req, today) == Err(LegacyTypeTaken)
  {
    var t := Table([Row(1, byId), Row(2, legacy)], 3);
    DisponibleBookable(Find(rooms, 7).value);
    LegacyLabelsMatch();
    assert ClashByType(t.rows[1].data, "doble", 11, 12);
    forall i | 0 <= i < |t.rows|
      ensures !ClashById(t.rows[i].data, 7, 11, 12)
    {
      assert i == 0 || i == 1;
    }
    LegacyRejection(rooms, t, req, today);
  }

  /** With every earlier check passed and no id-keyed overlap, an overlapping
      active legacy row of the same type is what rejects the request. */
  lemma LegacyRejection(rooms: Table<Rooms.Room>, reservas: Table<Reservation>, req: ReservaRequest, today: int)
    requires Complete(req) && HasId(rooms.rows, req.habitacionId.value)
    requires Bookable(Find(rooms, req.habitacionId.value).value)
    requires today <= req.fechaEntrada.value < req.fechaSalida.value
    requires !TakenById(reservas.rows, req.habitacionId.value, req.fechaEntrada.value, req.fechaSalida.value)
    requires TakenByType(reservas.rows, req.habitacion.value, req.fechaEntrada.value, req.fechaSalida.value)
    ensures Admit(rooms, reservas, req, today) == Err(LegacyTypeTaken)
  {
  }

  lemma LegacyLabelsMatch()
    ensures Normalize("Doble ") == Normalize("doble")
  {
    assert TrimEnd("Doble ") == TrimEnd("Doble") == "Doble";
    assert TrimEnd("doble") == "doble";
    assert TrimStart("Doble") == "Doble";
    assert TrimStart("doble") == "doble";
    assert Lower("Doble") == "doble";
    assert Lower("doble") == "doble";
  }

  /** A cancelled reservation never blocks anyone: adding one to the table
      leaves every admission verdict as it was. */
  lemma {:induction false} CancelledNeverBlocks(
    rooms: Table<Rooms.Room>, reservas: Table<Reservation>, cancelled: Row<Reservation>, req: ReservaRequest, today: int)
    requires cancelled.data.estado == Cancelada
    ensures var more := Table(reservas.rows + [cancelled], reservas.nextId);
      Admit(rooms, more, req, today).Ok? <==> Admit(rooms, reservas, req, today).Ok?
  {
    if Complete(req) {
      CancelledRowIgnored(reservas.rows, cancelled, req.habitacionId.value, req.habitacion.value,
                          req.fechaEntrada.value, req.fechaSalida.value);
    }
  }

  lemma CancelledRowIgnored(rows: seq<Row<Reservation>>, cancelled: Row<Reservation>, hid: int, tipo: string, e: int, s: int)
    requires cancelled.data.estado == Cancelada
    ensures TakenById(rows + [cancelled], hid, e, s) <==> TakenById(rows, hid, e, s)
    ensures TakenByType(rows + [cancelled], tipo, e, s) <==> TakenByType(rows, tipo, e, s)
  {
    var more := rows + [cancelled];
    assert !Active(more[|rows|].data);
    assert forall i :: 0 <= i < |rows| ==> more[i] == rows[i];
  }

  /** The state-only room update is what opens or closes a room to admission:
      afterwards the room is bookable exactly when the new state, lower-cased,
      is "disponible". */
  lemma EstadoGovernsBooking(rooms: Table<Rooms.Room>, id: int, estado: Field<string>)
    requires Valid(rooms)
    requires Rooms.UpdateEstado(rooms, id, estado).Ok?
    ensures var after := Rooms.UpdateEstado(rooms, id, estado).value;
      && HasId(after.rows, id)
      && (Bookable(Find(after, id).value) <==> Lower(estado.value) == Disponible)
  {
    var after := Rooms.UpdateEstado(rooms, id, estado).value;
    var k :| 0 <= k < |rooms.rows| && rooms.rows[k].id == id;
    assert after.rows[k].id == id;
    FindUnique(after, k);
  }
}
