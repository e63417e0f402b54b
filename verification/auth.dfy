/** Self-service registration and login (`/auth/register`, `/auth/login`).
    Token signing is left out; a successful login yields the profile. */
module Auth {
  import opened Common
  import opened Tables
  import opened Accounts

  datatype RegisterRequest = RegisterRequest(
    nombre: Field<string>, apellido: Field<string>, correo: Field<string>, password: Field<string>)

  datatype LoginRequest = LoginRequest(correo: Field<string>, password: Field<string>)

  datatype AuthError = MissingData | DuplicateCorreo | MissingCredentials | InvalidCredentials

  /** What a successful login returns about the user; the type has no place
      for the stored password. */
  datatype Profile = Profile(id: int, nombre: Option<string>, apellido: Option<string>, correo: Option<string>, rol: string)

  const Cliente := "cliente"

  /** `POST /auth/register`. */
  function Register(t: Table<User>, req: RegisterRequest, crypto: Crypto): (r: Result<Table<User>, AuthError>)
    ensures !(Truthy(req.nombre) && Truthy(req.correo) && Truthy(req.password)) <==> r == Err(MissingData)
    ensures Truthy(req.nombre) && Truthy(req.correo) && Truthy(req.password) ==>
      (r == Err(DuplicateCorreo) <==> CorreoTaken(t.rows, req.correo.value))
    ensures (Truthy(req.nombre) && Truthy(req.correo) && Truthy(req.password)
             && !CorreoTaken(t.rows, req.correo.value)) ==> r.Ok?
    ensures r.Ok? ==>
      && |r.value.rows| == |t.rows| + 1
      && r.value.rows[..|t.rows|] == t.rows
      && (Valid(t) ==> Valid(r.value))
    ensures r.Ok? ==> var u := r.value.rows[|t.rows|];
      && u.id == t.nextId
      && u.data.rol == Cliente
      && u.data.contrasena == crypto.hash(req.password.value)
      && u.data.nombre == Some(req.nombre.value)
      && u.data.correo == Some(req.correo.value)
      && (Truthy(req.apellido) ==> u.data.apellido == Some(req.apellido.value))
      && (!Truthy(req.apellido) ==> u.data.apellido.None?)
  {
    if !Truthy(req.nombre) || !Truthy(req.correo) || !Truthy(req.password) then Err(MissingData)
    else if FindByCorreo(t.rows, req.correo.value).Some? then Err(DuplicateCorreo)
    else
      var user := User(Some(req.nombre.value), OrNull(req.apellido), Some(req.correo.value),
                       crypto.hash(req.password.value), Cliente);
      Ok(Insert(t, user))
  }

  function ProfileOf(row: Row<User>): Profile {
    Profile(row.id, row.data.nombre, row.data.apellido, row.data.correo, row.data.rol)
  }

  /** `POST /auth/login`: an unknown correo and a wrong password are rejected alike. */
  function Login(t: Table<User>, req: LoginRequest, crypto: Crypto): (r: Result<Profile, AuthError>)
    ensures !(Truthy(req.correo) && Truthy(req.password)) <==> r == Err(MissingCredentials)
    ensures Truthy(req.correo) && Truthy(req.password) && r.Err? ==> r.error == InvalidCredentials
    ensures Truthy(req.correo) && !CorreoTaken(t.rows, req.correo.value) ==> r.Err?
    ensures r.Ok? ==>
      && CorreoTaken(t.rows, req.correo.value)
      && var row := FindByCorreo(t.rows, req.correo.value).value;
      && Verify(crypto, req.password.value, row.data.contrasena)
      && r.value == Profile(row.id, row.data.nombre, row.data.apellido, Some(req.correo.value), row.data.rol)
    ensures Truthy(req.correo) && Truthy(req.password) && CorreoTaken(t.rows, req.correo.value) ==>
      (r.Ok? <==> Verify(crypto, req.password.value, FindByCorreo(t.rows, req.correo.value).value.data.contrasena))
  {
    if !Truthy(req.correo) || !Truthy(req.password) then Err(MissingCredentials)
    else
      match FindByCorreo(t.rows, req.correo.value)
      case None => Err(InvalidCredentials)
      case Some(row) =>
        if Verify(crypto, req.password.value, row.data.contrasena) then Ok(ProfileOf(row))
        else Err(InvalidCredentials)
  }

  /** The row a fresh registration adds is the only one with its correo. */
  lemma RegisteredRowFound(t: Table<User>, req: RegisterRequest, crypto: Crypto)
    requires Register(t, req, crypto).Ok?
    ensures var t' := Register(t, req, crypto).value;
      FindByCorreo(t'.rows, req.correo.value) == Some(t'.rows[|t.rows|])
  {
    var t' := Register(t, req, crypto).value;
    var row := FindByCorreo(t'.rows, req.correo.value).value;
    var k :| 0 <= k < |t'.rows| && t'.rows[k] == row;
    assert k == |t.rows|;
  }

  /** Registering and then logging in with the same password succeeds as a
      "cliente", provided the hash primitive produces "$2b$" digests that its
      own compare accepts. */
  lemma RegisterThenLogin(t: Table<User>, req: RegisterRequest, crypto: Crypto)
    requires Register(t, req, crypto).Ok?
    requires StartsWith(crypto.hash(req.password.value), HashPrefix)
    requires crypto.compare(req.password.value, crypto.hash(req.password.value))
    ensures var t' := Register(t, req, crypto).value;
      Login(t', LoginRequest(req.correo, req.password), crypto)
        == Ok(Profile(t.nextId, Some(req.nombre.value), OrNull(req.apellido), Some(req.correo.value), Cliente))
  {
    RegisteredRowFound(t, req, crypto);
  }

  /** If the hash primitive produced digests with another prefix, the stored
      digest would be compared as plain text, and the freshly registered
      password would be accepted only if it equalled its own digest. */
  lemma RegisterThenLoginUnprefixed(t: Table<User>, req: RegisterRequest, crypto: Crypto)
    requires Register(t, req, crypto).Ok?
    requires !StartsWith(crypto.hash(req.password.value), HashPrefix)
    ensures var t' := Register(t, req, crypto).value;
      (Login(t', LoginRequest(req.correo, req.password), crypto).Ok?
       <==> req.password.value == crypto.hash(req.password.value))
  {
    RegisteredRowFound(t, req, crypto);
  }
}
