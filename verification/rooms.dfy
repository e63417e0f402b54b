/** The room inventory (`/habitaciones`): listing with column defaults, creation,
    full update, state-only update and deletion. The `estado` column kept here
    is what reservation admission reads. */
module Rooms {
  import opened Common
  import opened Tables

  /** A row of the Habitaciones table. Every column but `numero` can hold NULL:
      a full update writes whatever the request carried. */
  datatype Room = Room(
    numero: string,
    tipo: Option<string>,
    precio: Option<int>,
    capacidad: Option<int>,
    estado: Option<string>,
    descripcion: Option<string>,
    imagen: Option<string>)

  /** The JSON body of a create or full-update request. */
  datatype RoomRequest = RoomRequest(
    numero: Field<string>,
    tipo: Field<string>,
    precio: Field<int>,
    capacidad: Field<int>,
    estado: Field<string>,
    descripcion: Field<string>,
    imagen: Field<string>)

  datatype RoomError = MissingFields | NotFound | MissingEstado

  /** One entry of the listing, with the `ISNULL` defaults applied. */
  datatype RoomView = RoomView(
    id: int,
    tipo: Option<string>,
    numero: string,
    precio: Option<int>,
    capacidad: int,
    estado: Option<string>,
    descripcion: string,
    imagen: string)

  /** The columns written by both create and full update; `numero` is kept. */
  function Overwrite(room: Room, req: RoomRequest): Room {
    room.(
      tipo := req.tipo.ToColumn(),
      precio := req.precio.ToColumn(),
      capacidad := Some(OrNum(req.capacidad, 1)),
      estado := req.estado.ToColumn(),
      descripcion := Some(OrStr(req.descripcion, "")),
      imagen := Some(OrStr(req.imagen, "")))
  }

  /** The defaults both writers apply: capacity 1, empty description and image. */
  lemma OverwriteDefaults(room: Room, req: RoomRequest)
    ensures var r := Overwrite(room, req);
      && r.numero == room.numero
      && r.tipo == req.tipo.ToColumn()
      && r.precio == req.precio.ToColumn()
      && r.estado == req.estado.ToColumn()
      && (TruthyNum(req.capacidad) ==> r.capacidad == Some(req.capacidad.value))
      && (!TruthyNum(req.capacidad) ==> r.capacidad == Some(1))
      && (Truthy(req.descripcion) ==> r.descripcion == Some(req.descripcion.value))
      && (!Truthy(req.descripcion) ==> r.descripcion == Some(""))
      && (Truthy(req.imagen) ==> r.imagen == Some(req.imagen.value))
      && (!Truthy(req.imagen) ==> r.imagen == Some(""))
  {
  }

  function View(row: Row<Room>): RoomView {
    var r := row.data;
    RoomView(row.id, r.tipo, r.numero, r.precio, r.capacidad.GetOr(1), r.estado,
             r.descripcion.GetOr(""), r.imagen.GetOr(""))
  }

  /** `GET /habitaciones`: every room, ordered by id, NULL capacity shown as 1
      and NULL description or image shown as "". */
  function List(t: Table<Room>): (r: seq<RoomView>)
    ensures |r| == |t.rows|
    ensures forall i :: 0 <= i < |r| ==> r[i].id == t.rows[i].id && r[i].numero == t.rows[i].data.numero
    ensures forall i :: 0 <= i < |r| ==>
      r[i].capacidad == (if t.rows[i].data.capacidad.None? then 1 else t.rows[i].data.capacidad.value)
    ensures forall i :: 0 <= i < |r| ==>
      && r[i].tipo == t.rows[i].data.tipo
      && r[i].precio == t.rows[i].data.precio
      && r[i].estado == t.rows[i].data.estado
    ensures forall i :: 0 <= i < |r| ==>
      r[i].descripcion == (if t.rows[i].data.descripcion.None? then "" else t.rows[i].data.descripcion.value)
    ensures forall i :: 0 <= i < |r| ==>
      r[i].imagen == (if t.rows[i].data.imagen.None? then "" else t.rows[i].data.imagen.value)
    ensures Valid(t) ==> forall i, j :: 0 <= i < j < |r| ==> r[i].id < r[j].id
  {
    seq(|t.rows|, i requires 0 <= i < |t.rows| => View(t.rows[i]))
  }

  /** `POST /habitaciones`: numero, tipo and estado must be truthy and precio
      must not be undefined (0 and null are accepted). */
  function Create(t: Table<Room>, req: RoomRequest): (r: Result<Table<Room>, RoomError>)
    ensures r.Err? <==> !Truthy(req.numero) || !Truthy(req.tipo) || req.precio.Missing? || !Truthy(req.estado)
    ensures r.Err? ==> r.error == MissingFields
    ensures r.Ok? ==> Valid(t) ==> Valid(r.value)
    ensures r.Ok? ==> |r.value.rows| == |t.rows| + 1 && r.value.rows[..|t.rows|] == t.rows
    ensures r.Ok? ==> var added := r.value.rows[|t.rows|];
      && added.id == t.nextId
      && added.data.numero == req.numero.value
      && added.data.tipo == Some(req.tipo.value)
      && added.data.estado == Some(req.estado.value)
      && added.data.precio == req.precio.ToColumn()
      && (TruthyNum(req.capacidad) ==> added.data.capacidad == Some(req.capacidad.value))
      && (!TruthyNum(req.capacidad) ==> added.data.capacidad == Some(1))
      && (Truthy(req.descripcion) ==> added.data.descripcion == Some(req.descripcion.value))
      && (!Truthy(req.descripcion) ==> added.data.descripcion == Some(""))
      && (Truthy(req.imagen) ==> added.data.imagen == Some(req.imagen.value))
      && (!Truthy(req.imagen) ==> added.data.imagen == Some(""))
  {
    if !Truthy(req.numero) || !Truthy(req.tipo) || req.precio.Missing? || !Truthy(req.estado) then
      Err(MissingFields)
    else
      var blank := Room(req.numero.value, None, None, None, None, None, None);
      Ok(Insert(t, Overwrite(blank, req)))
  }

  /** `PUT /habitaciones/:id`: no field is required; a missing id reports
      not-found (the UPDATE touched nothing, so the table is unchanged). */
  function UpdateFull(t: Table<Room>, id: int, req: RoomRequest): (r: Result<Table<Room>, RoomError>)
    ensures r.Err? <==> !HasId(t.rows, id)
    ensures r.Err? ==> r.error == NotFound
    ensures r.Ok? ==> Valid(t) ==> Valid(r.value)
    ensures r.Ok? ==> |r.value.rows| == |t.rows| && forall i :: 0 <= i < |t.rows| ==>
      && r.value.rows[i].id == t.rows[i].id
      && (t.rows[i].id == id ==> r.value.rows[i].data == Overwrite(t.rows[i].data, req))
      && (t.rows[i].id != id ==> r.value.rows[i] == t.rows[i])
  {
    var updated := Update(t, id, (room: Room) => Overwrite(room, req));
    if Affected(t, id) == 0 then Err(NotFound) else Ok(updated)
  }

  /** `PUT /habitaciones/:id/estado`: estado must be truthy; only that column
      changes; a missing id reports not-found. */
  function UpdateEstado(t: Table<Room>, id: int, estado: Field<string>): (r: Result<Table<Room>, RoomError>)
    ensures !Truthy(estado) ==> r == Err(MissingEstado)
    ensures Truthy(estado) ==> (r.Err? <==> !HasId(t.rows, id))
    ensures Truthy(estado) && r.Err? ==> r.error == NotFound
    ensures r.Ok? ==> Valid(t) ==> Valid(r.value)
    ensures r.Ok? ==> |r.value.rows| == |t.rows| && forall i :: 0 <= i < |t.rows| ==>
      && r.value.rows[i].id == t.rows[i].id
      && (t.rows[i].id == id ==> r.value.rows[i].data == t.rows[i].data.(estado := Some(estado.value)))
      && (t.rows[i].id != id ==> r.value.rows[i] == t.rows[i])
  {
    if !Truthy(estado) then
      Err(MissingEstado)
    else
      var updated := Update(t, id, (room: Room) => room.(estado := Some(estado.value)));
      if Affected(t, id) == 0 then Err(NotFound) else Ok(updated)
  }

  /** `DELETE /habitaciones/:id`: reports success whether or not the id existed. */
  function Delete(t: Table<Room>, id: int): (r: Result<Table<Room>, RoomError>)
    ensures r.Ok?
    ensures !HasId(r.value.rows, id)
    ensures forall x :: x in t.rows && x.id != id ==> x in r.value.rows
    ensures forall x :: x in r.value.rows ==> x in t.rows
    ensures Valid(t) ==> Valid(r.value)
  {
    Ok(Tables.Delete(t, id))
  }

  /** A room created without capacity, description or image is listed with
      capacity 1 and empty texts, as the last entry. */
  lemma CreateThenList(t: Table<Room>, req: RoomRequest)
    requires Create(t, req).Ok?
    requires !TruthyNum(req.capacidad) && !Truthy(req.descripcion) && !Truthy(req.imagen)
    ensures var l := List(Create(t, req).value);
      && |l| == |t.rows| + 1
      && l[|t.rows|] == RoomView(t.nextId, Some(req.tipo.value), req.numero.value,
                                 req.precio.ToColumn(), 1, Some(req.estado.value), "", "")
  {
    OverwriteDefaults(Room(req.numero.value, None, None, None, None, None, None), req);
  }
}
