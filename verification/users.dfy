/** Administrative user management (`/usuarios`): creation with password and
    role defaults, profile update guarded by the current password, deletion. */
module Users {
  import opened Common
  import opened Tables
  import opened Accounts

  datatype NewUser = NewUser(
    nombre: Field<string>, apellido: Field<string>, correo: Field<string>,
    contrasena: Field<string>, rol: Field<string>)

  datatype UserEdit = UserEdit(
    nombre: Field<string>, apellido: Field<string>, correo: Field<string>, rol: Field<string>,
    contrasenaActual: Field<string>, contrasenaNueva: Field<string>)

  datatype UserError = MissingFields | DuplicateCorreo | NotFound | MissingCurrentPassword | WrongCurrentPassword

  const DefaultPassword := "12345"
  const Operador := "operador"

  /** The password stored for a new user: a value that already carries the
      digest prefix is kept as given; otherwise the given password, or the
      default one, is hashed. */
  function InitialPassword(crypto: Crypto, given: Field<string>): (p: string)
    ensures Truthy(given) && StartsWith(given.value, HashPrefix) ==> p == given.value
    ensures Truthy(given) && !StartsWith(given.value, HashPrefix) ==> p == crypto.hash(given.value)
    ensures !Truthy(given) ==> p == crypto.hash(DefaultPassword)
  {
    if Truthy(given) && StartsWith(given.value, HashPrefix) then given.value
    else crypto.hash(OrStr(given, DefaultPassword))
  }

  /** `POST /usuarios`. */
  function Create(t: Table<User>, req: NewUser, crypto: Crypto): (r: Result<Table<User>, UserError>)
    ensures !(Truthy(req.nombre) && Truthy(req.correo)) <==> r == Err(MissingFields)
    ensures Truthy(req.nombre) && Truthy(req.correo) ==>
      (r == Err(DuplicateCorreo) <==> CorreoTaken(t.rows, req.correo.value))
    ensures Truthy(req.nombre) && Truthy(req.correo) && !CorreoTaken(t.rows, req.correo.value) ==> r.Ok?
    ensures r.Ok? ==>
      && |r.value.rows| == |t.rows| + 1
      && r.value.rows[..|t.rows|] == t.rows
      && (Valid(t) ==> Valid(r.value))
    ensures r.Ok? ==> var u := r.value.rows[|t.rows|];
      && u.id == t.nextId
      && u.data.nombre == Some(req.nombre.value)
      && u.data.correo == Some(req.correo.value)
      && u.data.contrasena == InitialPassword(crypto, req.contrasena)
      && (Truthy(req.rol) ==> u.data.rol == req.rol.value)
      && (!Truthy(req.rol) ==> u.data.rol == Operador)
      && (Truthy(req.apellido) ==> u.data.apellido == Some(req.apellido.value))
      && (!Truthy(req.apellido) ==> u.data.apellido == Some(""))
  {
    if !Truthy(req.nombre) || !Truthy(req.correo) then Err(MissingFields)
    else if FindByCorreo(t.rows, req.correo.value).Some? then Err(DuplicateCorreo)
    else
      var user := User(Some(req.nombre.value), Some(OrStr(req.apellido, "")), Some(req.correo.value),
                       InitialPassword(crypto, req.contrasena), OrStr(req.rol, Operador));
      Ok(Insert(t, user))
  }

  /** The columns an accepted edit writes. `digest` is the hash of the new
      password when one was asked for; it is written only when truthy. */
  function Edit(u: User, req: UserEdit, digest: Option<string>): User {
    u.(
      nombre := req.nombre.ToColumn(),
      apellido := OrNull(req.apellido),
      correo := req.correo.ToColumn(),
      rol := OrStr(req.rol, u.rol),
      contrasena := if digest.Some? && digest.value != "" then digest.value else u.contrasena)
  }

  /** `PUT /usuarios/:id`. */
  function Update(t: Table<User>, id: int, req: UserEdit, crypto: Crypto): (r: Result<Table<User>, UserError>)
    ensures r == Err(NotFound) <==> !HasId(t.rows, id)
    ensures HasId(t.rows, id) ==>
      (r == Err(MissingCurrentPassword) <==> Truthy(req.contrasenaNueva) && !Truthy(req.contrasenaActual))
    ensures HasId(t.rows, id) && Truthy(req.contrasenaNueva) && Truthy(req.contrasenaActual) ==>
      (r == Err(WrongCurrentPassword) <==>
         !Verify(crypto, req.contrasenaActual.value, Find(t, id).value.contrasena))
    ensures HasId(t.rows, id)
      && (Truthy(req.contrasenaNueva) ==>
            Truthy(req.contrasenaActual) && Verify(crypto, req.contrasenaActual.value, Find(t, id).value.contrasena))
      ==> r.Ok?
    ensures r.Ok? ==> Valid(t) ==> Valid(r.value)
    ensures r.Ok? ==> r.value.nextId == t.nextId && |r.value.rows| == |t.rows|
    ensures r.Ok? ==> forall i :: 0 <= i < |t.rows| && t.rows[i].id != id ==> r.value.rows[i] == t.rows[i]
    ensures r.Ok? ==> forall i :: 0 <= i < |t.rows| && t.rows[i].id == id ==>
      var before := t.rows[i].data;
      var after := r.value.rows[i].data;
      && r.value.rows[i].id == id
      && after.nombre == req.nombre.ToColumn()
      && after.correo == req.correo.ToColumn()
      && (Truthy(req.apellido) ==> after.apellido == Some(req.apellido.value))
      && (!Truthy(req.apellido) ==> after.apellido.None?)
      && (Truthy(req.rol) ==> after.rol == req.rol.value)
      && (!Truthy(req.rol) ==> after.rol == before.rol)
      && (!Truthy(req.contrasenaNueva) ==> after.contrasena == before.contrasena)
      && (Truthy(req.contrasenaNueva) && crypto.hash(req.contrasenaNueva.value) != "" ==>
            after.contrasena == crypto.hash(req.contrasenaNueva.value))
  {
    match Find(t, id)
    case None => Err(NotFound)
    case Some(u) =>
      if Truthy(req.contrasenaNueva) && !Truthy(req.contrasenaActual) then Err(MissingCurrentPassword)
      else if Truthy(req.contrasenaNueva) && !Verify(crypto, req.contrasenaActual.value, u.contrasena) then
        Err(WrongCurrentPassword)
      else
        var digest := if Truthy(req.contrasenaNueva) then Some(crypto.hash(req.contrasenaNueva.value)) else None;
        Ok(Tables.Update(t, id, (x: User) => Edit(x, req, digest)))
  }

  /** A password change with the right current password is accepted, and the
      new password then passes the same check that login and the next change
      apply, when the hash primitive produces "$2b$" digests that its compare
      accepts. */
  lemma ChangedPasswordVerifies(t: Table<User>, id: int, req: UserEdit, crypto: Crypto, i: int)
    requires Valid(t)
    requires 0 <= i < |t.rows| && t.rows[i].id == id
    requires Truthy(req.contrasenaNueva) && Truthy(req.contrasenaActual)
    requires Verify(crypto, req.contrasenaActual.value, t.rows[i].data.contrasena)
    requires StartsWith(crypto.hash(req.contrasenaNueva.value), HashPrefix)
    requires crypto.compare(req.contrasenaNueva.value, crypto.hash(req.contrasenaNueva.value))
    ensures Update(t, id, req, crypto).Ok?
    ensures Verify(crypto, req.contrasenaNueva.value, Update(t, id, req, crypto).value.rows[i].data.contrasena)
  {
    FindUnique(t, i);
    assert crypto.hash(req.contrasenaNueva.value) != "";
  }

  /** `DELETE /usuarios/:id`: not-found exactly when no row matched. */
  function Delete(t: Table<User>, id: int): (r: Result<Table<User>, UserError>)
    ensures r.Err? <==> !HasId(t.rows, id)
    ensures r.Err? ==> r.error == NotFound
    ensures r.Ok? ==> !HasId(r.value.rows, id) && |r.value.rows| < |t.rows|
    ensures r.Ok? ==> forall x :: x in t.rows && x.id != id ==> x in r.value.rows
    ensures r.Ok? ==> Valid(t) ==> Valid(r.value)
  {
    match DeleteExisting(t, id)
    case None => Err(NotFound)
    case Some(kept) => Ok(kept)
  }
}
