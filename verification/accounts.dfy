/** The Usuarios table and the credential check shared by login and profile
    update. A stored password is either a bcrypt digest (recognised by its
    "$2b$" prefix) or a legacy plain-text value. */
module Accounts {
  import opened Common
  import opened Tables

  /** The password primitives, left uninterpreted: `hash` (salt included) and
      `compare(given, digest)`. */
  datatype Crypto = Crypto(hash: string -> string, compare: (string, string) -> bool)

  const HashPrefix := "$2b$"

  /** A row of the Usuarios table. A profile update can write NULL into
      nombre and correo. */
  datatype User = User(
    nombre: Option<string>,
    apellido: Option<string>,
    correo: Option<string>,
    contrasena: string,
    rol: string)

  /** The two shapes a stored password takes. */
  datatype Credential = Hashed(digest: string) | Plain(text: string)

  function Classify(stored: string): (c: Credential)
    ensures c.Hashed? <==> StartsWith(stored, HashPrefix)
    ensures Stored(c) == stored
  {
    if StartsWith(stored, HashPrefix) then Hashed(stored) else Plain(stored)
  }

  function Stored(c: Credential): string {
    match c
    case Hashed(d) => d
    case Plain(t) => t
  }

  /** The password check: a digest goes through `compare`, anything else must
      be equal to the given password. */
  function Verify(crypto: Crypto, given: string, stored: string): (ok: bool)
    ensures StartsWith(stored, HashPrefix) ==> (ok <==> crypto.compare(given, stored))
    ensures !StartsWith(stored, HashPrefix) ==> (ok <==> given == stored)
  {
    match Classify(stored)
    case Hashed(d) => crypto.compare(given, d)
    case Plain(t) => given == t
  }

  ghost predicate CorreoTaken(rows: seq<Row<User>>, correo: string) {
    exists i :: 0 <= i < |rows| && rows[i].data.correo == Some(correo)
  }

  /** `SELECT ... FROM Usuarios WHERE correo = @correo` and its first record. */
  function FindByCorreo(rows: seq<Row<User>>, correo: string): (r: Option<Row<User>>)
    ensures r.None? <==> !CorreoTaken(rows, correo)
    ensures r.Some? ==> r.value in rows && r.value.data.correo == Some(correo)
  {
    var m := Select(rows, (x: Row<User>) => x.data.correo == Some(correo));
    if m == [] then None
    else
      assert m[0] in m;
      Some(m[0])
  }

  /** Once a password is stored as its digest, the check accepts exactly the
      passwords `compare` accepts; a plain-text value accepts only itself. */
  lemma VerifyStoredDigest(crypto: Crypto, password: string, given: string)
    requires StartsWith(crypto.hash(password), HashPrefix)
    requires crypto.compare(password, crypto.hash(password))
    ensures Verify(crypto, password, crypto.hash(password))
    ensures Verify(crypto, given, crypto.hash(password)) <==> crypto.compare(given, crypto.hash(password))
  {
  }
}
