/** Manual payment recording (`POST /pagos`): a guarded move of a reservation
    to "pagada" that stores the method and amount paid. */
module Payments {
  import opened Common
  import opened Tables
  import opened Reservations

  datatype PagoRequest = PagoRequest(reservaId: Field<int>, metodoPago: Field<string>, montoPagado: Field<int>)

  /** The `pago` object echoed back on success. */
  datatype Receipt = Receipt(reservaId: int, metodoPago: string, montoPagado: int)

  datatype PagoError = MissingData | NotFound | NotPayable

  predicate Complete(req: PagoRequest) {
    TruthyNum(req.reservaId) && Truthy(req.metodoPago) && TruthyNum(req.montoPagado)
  }

  /** The guard compares the stored state exactly, without case folding. */
  predicate Settled(r: Reservation) {
    r.estado == Pagada || r.estado == Cancelada
  }

  function Pay(t: Table<Reservation>, req: PagoRequest): (r: Result<(Table<Reservation>, Receipt), PagoError>)
    ensures !Complete(req) <==> r == Err(MissingData)
    ensures Complete(req) ==> (r == Err(NotFound) <==> !HasId(t.rows, req.reservaId.value))
    ensures Complete(req) && HasId(t.rows, req.reservaId.value) ==>
      (r == Err(NotPayable) <==> Settled(Find(t, req.reservaId.value).value))
    ensures r.Ok? ==> r.value.1 == Receipt(req.reservaId.value, req.metodoPago.value, req.montoPagado.value)
    ensures r.Ok? ==> var t' := r.value.0;
      && t'.nextId == t.nextId && |t'.rows| == |t.rows|
      && forall i :: 0 <= i < |t.rows| ==>
        && t'.rows[i].id == t.rows[i].id
        && (t.rows[i].id == req.reservaId.value ==> t'.rows[i].data == t.rows[i].data.(
              estado := Pagada, metodoPago := req.metodoPago.value, montoPagado := Some(req.montoPagado.value)))
        && (t.rows[i].id != req.reservaId.value ==> t'.rows[i] == t.rows[i])
    ensures r.Ok? ==> Valid(t) ==> Valid(r.value.0)
  {
    if !Complete(req) then Err(MissingData)
    else
      var id := req.reservaId.value;
      match Find(t, id)
      case None => Err(NotFound)
      case Some(reserva) =>
        if Settled(reserva) then Err(NotPayable)
        else
          var paid := Update(t, id, (x: Reservation) =>
            x.(estado := Pagada, metodoPago := req.metodoPago.value, montoPagado := Some(req.montoPagado.value)));
          Ok((paid, Receipt(id, req.metodoPago.value, req.montoPagado.value)))
  }

  /** A recorded payment cannot be recorded again: the reservation is now "pagada". */
  lemma PayTwiceRejected(t: Table<Reservation>, first: PagoRequest, second: PagoRequest)
    requires Valid(t)
    requires Pay(t, first).Ok?
    requires Complete(second) && second.reservaId == first.reservaId
    ensures Pay(Pay(t, first).value.0, second) == Err(NotPayable)
  {
    var id := first.reservaId.value;
    var t' := Pay(t, first).value.0;
    var k :| 0 <= k < |t.rows| && t.rows[k].id == id;
    FindUnique(t', k);
  }

  /** Paying a pending reservation keeps every room free of double bookings:
      its dates stay held, by an active state. */
  lemma {:induction false} PayKeepsNoDoubleBooking(t: Table<Reservation>, req: PagoRequest)
    requires Consistent(t)
    requires Pay(t, req).Ok?
    requires Find(t, req.reservaId.value).value.estado == Pendiente
    ensures Consistent(Pay(t, req).value.0)
  {
    var id := req.reservaId.value;
    var rows := Pay(t, req).value.0.rows;
    forall i | 0 <= i < |t.rows| && t.rows[i].id == id
      ensures Active(t.rows[i].data)
    {
      FindUnique(t, i);
    }
    forall i, j |
      0 <= i < |rows| && 0 <= j < |rows| && i != j
      && Active(rows[i].data) && Active(rows[j].data)
      && rows[i].data.habitacionId.Some? && rows[i].data.habitacionId == rows[j].data.habitacionId
      ensures !Overlap(rows[i].data.entrada, rows[i].data.salida, rows[j].data.entrada, rows[j].data.salida)
    {
      assert Active(t.rows[i].data) && Active(t.rows[j].data);
    }
  }
}
