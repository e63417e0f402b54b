/** The administrative side of a reservation's life: `PUT /reservas/:id/:action`
    (confirm or cancel) and `DELETE /reservas/:id`, and what they do to the
    no-double-booking invariant. */
module ReservationStates {
  import opened Common
  import opened Tables
  import opened Reservations

  datatype StateError = InvalidAction | NotFound

  /** The state an action token leads to; no other token is accepted. */
  function Target(action: string): (s: Option<string>)
    ensures s.Some? <==> action == "confirm" || action == "cancel"
    ensures action == "confirm" ==> s == Some(Pagada)
    ensures action == "cancel" ==> s == Some(Cancelada)
  {
    if action == "confirm" then Some(Pagada)
    else if action == "cancel" then Some(Cancelada)
    else None
  }

  /** `PUT /reservas/:id/:action`: the UPDATE neither checks that the id exists
      nor looks at the current state, and always reports success. */
  function Transition(t: Table<Reservation>, id: int, action: string): (r: Result<Table<Reservation>, StateError>)
    ensures r.Err? <==> action != "confirm" && action != "cancel"
    ensures r.Err? ==> r.error == InvalidAction
    ensures r.Ok? ==> r.value.nextId == t.nextId && |r.value.rows| == |t.rows|
    ensures r.Ok? ==> forall i :: 0 <= i < |t.rows| ==>
      && r.value.rows[i].id == t.rows[i].id
      && (t.rows[i].id == id ==>
            r.value.rows[i].data == t.rows[i].data.(estado := if action == "confirm" then Pagada else Cancelada))
      && (t.rows[i].id != id ==> r.value.rows[i] == t.rows[i])
    ensures r.Ok? && !HasId(t.rows, id) ==> r.value == t
    ensures r.Ok? ==> Valid(t) ==> Valid(r.value)
  {
    match Target(action)
    case None => Err(InvalidAction)
    case Some(estado) => Ok(Update(t, id, (x: Reservation) => x.(estado := estado)))
  }

  /** `DELETE /reservas/:id`: not-found exactly when no row matched. */
  function Delete(t: Table<Reservation>, id: int): (r: Result<Table<Reservation>, StateError>)
    ensures r.Err? <==> !HasId(t.rows, id)
    ensures r.Err? ==> r.error == NotFound
    ensures r.Ok? ==> !HasId(r.value.rows, id) && |r.value.rows| < |t.rows|
    ensures r.Ok? ==> forall x :: x in t.rows && x.id != id ==> x in r.value.rows
    ensures r.Ok? ==> forall x :: x in r.value.rows ==> x in t.rows
    ensures r.Ok? ==> Valid(t) ==> Valid(r.value)
  {
    match DeleteExisting(t, id)
    case None => Err(NotFound)
    case Some(kept) => Ok(kept)
  }

  /** Cancelling never creates a double booking. */
  lemma {:induction false} CancelKeepsNoDoubleBooking(t: Table<Reservation>, id: int)
    requires Consistent(t)
    ensures Consistent(Transition(t, id, "cancel").value)
  {
    var rows := Transition(t, id, "cancel").value.rows;
    forall i, j |
      0 <= i < |rows| && 0 <= j < |rows| && i != j
      && Active(rows[i].data) && Active(rows[j].data)
      && rows[i].data.habitacionId.Some? && rows[i].data.habitacionId == rows[j].data.habitacionId
      ensures !Overlap(rows[i].data.entrada, rows[i].data.salida, rows[j].data.entrada, rows[j].data.salida)
    {
      assert rows[i] == t.rows[i] && rows[j] == t.rows[j];
    }
  }

  /** Confirming a reservation that already holds its dates keeps the
      invariant: only its state changes, between two active states. */
  lemma {:induction false} ConfirmActiveKeepsNoDoubleBooking(t: Table<Reservation>, id: int)
    requires Consistent(t)
    requires forall i :: 0 <= i < |t.rows| && t.rows[i].id == id ==> Active(t.rows[i].data)
    ensures Consistent(Transition(t, id, "confirm").value)
  {
    var rows := Transition(t, id, "confirm").value.rows;
    forall i, j |
      0 <= i < |rows| && 0 <= j < |rows| && i != j
      && Active(rows[i].data) && Active(rows[j].data)
      && rows[i].data.habitacionId.Some? && rows[i].data.habitacionId == rows[j].data.habitacionId
      ensures !Overlap(rows[i].data.entrada, rows[i].data.salida, rows[j].data.entrada, rows[j].data.salida)
    {
      assert Active(t.rows[i].data) && Active(t.rows[j].data);
    }
  }

  /** Confirm does not look at the current state, so it can revive a cancelled
      reservation whose dates were since given to someone else. */
  lemma ConfirmCanReviveCancelled(a: Reservation, b: Reservation)
    requires a.estado == Cancelada && b.estado == Pendiente
    requires a.habitacionId == Some(7) && b.habitacionId == Some(7)
    requires a.entrada == 1 && a.salida == 5 && b.entrada == 2 && b.salida == 4
    ensures var t := Table([Row(1, a), Row(2, b)], 3);
      && Consistent(t)
      && !NoDoubleBooking(Transition(t, 1, "confirm").value.rows)
  {
    var t := Table([Row(1, a), Row(2, b)], 3);
    var rows := Transition(t, 1, "confirm").value.rows;
    assert rows[0].data == a.(estado := Pagada) && rows[1] == t.rows[1];
    assert Overlap(rows[0].data.entrada, rows[0].data.salida, rows[1].data.entrada, rows[1].data.salida);
  }

  /** Deleting rows never creates a double booking. */
  lemma {:induction false} DeleteKeepsNoDoubleBooking(t: Table<Reservation>, id: int)
    requires Consistent(t)
    requires Delete(t, id).Ok?
    ensures Consistent(Delete(t, id).value)
  {
    var rows := Delete(t, id).value.rows;
    forall i, j |
      0 <= i < |rows| && 0 <= j < |rows| && i != j
      && Active(rows[i].data) && Active(rows[j].data)
      && rows[i].data.habitacionId.Some? && rows[i].data.habitacionId == rows[j].data.habitacionId
      ensures !Overlap(rows[i].data.entrada, rows[i].data.salida, rows[j].data.entrada, rows[j].data.salida)
    {
      assert rows[i] in t.rows && rows[j] in t.rows;
      var a :| 0 <= a < |t.rows| && t.rows[a] == rows[i];
      var b :| 0 <= b < |t.rows| && t.rows[b] == rows[j];
      assert rows[i].id != rows[j].id;
    }
  }
}
