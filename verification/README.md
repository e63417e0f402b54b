# Hotel backend: reservation admission and its neighbours, in Dafny

This project models the stateful core of a hotel management REST backend. Its
data lives in three relational tables: Habitaciones (rooms), Reservas
(reservations) and Usuarios (users). The model covers:

- **Reservation admission** (`POST /reservas`). A request passes a fixed chain
  of checks, and the first failing check rejects it:
  1. required fields are present;
  2. the room exists;
  3. the room's `estado`, lower-cased, is "disponible";
  4. the entry day is not before today;
  5. the exit day is after the entry day;
  6. no active reservation on the same room id overlaps the dates;
  7. no active legacy reservation (one without a room id) of the same
     normalised type overlaps the dates.

  Only then is one `pendiente` reservation inserted.
- **The reservation state machine**: confirm/cancel (`PUT /reservas/:id/:action`),
  deletion, and manual payment recording (`POST /pagos`).
- **The room store** (`/habitaciones`). It supplies the `estado` that admission
  reads.
- **The user store** with its two kinds of stored password: "$2b$" digests,
  checked through an opaque compare, and legacy plain text, checked by equality.
  It serves `/auth/register`, `/auth/login` and the admin `/usuarios` routes.

Each table is an immutable `Table<T>`: rows with identity keys, plus the next key to
hand out (module `Tables`). `Tables.Valid` says the keys are strictly ascending
and below that counter. Every route is a pure function from the tables and the
request to a `Result`. A rejection carries no table, so "no change on rejection"
holds by construction. JSON request fields are `Field<T>` values
(`Missing | Null | Given`), and their JavaScript truthiness is spelled out.

Dates are integer day numbers, and "today" is a parameter. The password
primitives `hash` and `compare` are fields of a `Crypto` value passed as a
parameter. Nothing else is assumed about them.

The central property is `Reservations.AdmitKeepsNoDoubleBooking`. It states
that when no two active reservations with the same room id overlap, a
successful admission keeps that true. Cancelling, deleting and paying a
pending reservation keep it as well. Confirming does not: it ignores the
current state, so it can revive a cancelled reservation whose dates were since
booked again. `ReservationStates.ConfirmCanReviveCancelled` exhibits this.

Three behaviours of the code worth knowing:

- The legacy same-type check runs whenever the id-keyed overlap query finds
  nothing (`routes/reservas.js:105`). It runs even when the room already has
  id-keyed reservations on other dates, and
  `Reservations.LegacyCheckedDespiteIdKeyedRows` shows such a rejection.
- Confirm/cancel never reports not-found. It does not check that the id exists.
- The payment guard compares `estado` exactly, with no case folding.

## Model

| member | source | states |
|---|---|---|
| Reservations.Admit | routes/reservas.js:8-170 | A request missing any required field (correo falls back to email) is rejected as missing. A missing room gives not-found. A room whose lower-cased state is not "disponible" is rejected, and the rejection carries the room's tipo and estado. Each later check decides the verdict once all earlier ones pass. The entry-day rejection happens exactly when the entry day is before today. The exit-day rejection happens exactly when the exit day is not after the entry day. The id-keyed conflict happens exactly when an active same-room row overlaps. The legacy conflict happens exactly when there is no id-keyed overlap and an active null-id row of the same normalised type overlaps. The request is admitted exactly when every check passes. It then appends exactly one row: key nextId, estado pendiente, nombre, habitacion, room id, dates, precioNoche and metodoPago as given, correo falling back to email, personas defaulting to 1, total defaulting to precioNoche, no amount paid. |
| Reservations.IdConflicts | routes/reservas.js:89-102 | The id-keyed query returns nothing exactly when no active reservation with this room id overlaps the half-open range. |
| Reservations.TypeConflicts | routes/reservas.js:106-120 | The legacy query returns nothing exactly when no active reservation with a null room id and the same trimmed, lower-cased type overlaps the range. |
| Reservations.AdmitKeepsNoDoubleBooking | routes/reservas.js:89-156 | If no two active reservations on one room id overlap, that still holds after a successful admission, and the keys stay valid. |
| Reservations.TouchingRangesAdmitted | routes/reservas.js:98-101 | A booking on [1,5) does not block a request for [5,10) on the same room. |
| Reservations.OverlappingRangeRejected | routes/reservas.js:129-135 | On an available room, an active booking on [1,10) makes a request for [5,7) fail with the id-keyed conflict. |
| Reservations.LegacyCheckedDespiteIdKeyedRows | routes/reservas.js:104-128 | Room 7 has an id-keyed booking on other dates. An active legacy row "Doble " overlapping the request still rejects a request for type "doble". |
| Reservations.CancelledNeverBlocks | routes/reservas.js:94-120 | Adding a cancelled reservation to the table never changes whether a request is admitted. |
| Reservations.CancelledRowIgnored | routes/reservas.js:96-113 | A cancelled row never makes the id-keyed or the legacy query non-empty. |
| Reservations.DisponibleBookable | routes/reservas.js:58 | A room whose state is "Disponible" passes the case-insensitive availability check. |
| Reservations.EstadoGovernsBooking | routes/reservas.js:56-63 | After a state-only room update, the room is bookable exactly when the new state, lower-cased, is "disponible". |
| ReservationStates.Target | routes/reservas.js:230-234 | Only "confirm" (to pagada) and "cancel" (to cancelada) are valid tokens. |
| ReservationStates.Transition | routes/reservas.js:228-246 | Any other token is rejected. Otherwise every row with the id gets the new estado, with all other fields and rows unchanged. A missing id still succeeds and leaves the table as it was. |
| ReservationStates.Delete | routes/reservas.js:271-287 | Reports not-found exactly when no row has the id. Otherwise it removes that row, keeps every other row and keeps the keys valid. |
| ReservationStates.CancelKeepsNoDoubleBooking | routes/reservas.js:234-239 | Cancelling never creates overlapping active reservations on a room. |
| ReservationStates.ConfirmActiveKeepsNoDoubleBooking | routes/reservas.js:234-239 | Confirming a reservation that is already active keeps the no-double-booking invariant. |
| ReservationStates.ConfirmCanReviveCancelled | routes/reservas.js:228-241 | A cancelled [1,5) booking and a pending [2,4) booking on the same room are consistent. Confirming the cancelled one breaks the invariant, because the state is not checked. |
| ReservationStates.DeleteKeepsNoDoubleBooking | routes/reservas.js:271-282 | Deleting never creates a double booking. |
| Payments.Pay | routes/pagos.js:6-56 | Rejected as missing exactly when reservaId, metodoPago or montoPagado is falsy, so an amount of 0 is rejected. Not-found exactly when the id is absent. Rejected exactly when estado is "pagada" or "cancelada". Otherwise only that reservation changes: estado becomes pagada and the method and amount are stored. The receipt echoes the given id, method and amount. |
| Payments.PayTwiceRejected | routes/pagos.js:28-45 | A second payment on a reservation that was just paid is rejected as not payable. |
| Payments.PayKeepsNoDoubleBooking | routes/pagos.js:33-45 | Paying a pending reservation keeps the no-double-booking invariant. |
| Rooms.List | routes/habitaciones.js:8-29 | One entry per room, in key order (ascending on a valid table). Each entry carries the room's id, numero, tipo, precio and estado as stored. capacidad is shown as stored, or 1 when null. descripcion and imagen are shown as stored, or "" when null. |
| Rooms.Create | routes/habitaciones.js:34-66 | Rejected exactly when numero, tipo or estado is falsy or precio is undefined, so precio 0 or null is accepted. Otherwise it appends one room with numero, tipo, estado and precio as given. capacidad is stored as given when truthy and 1 otherwise. descripcion and imagen are stored as given when truthy and "" otherwise. |
| Rooms.OverwriteDefaults | routes/habitaciones.js:80-85 | Create and full update store capacidad `|| 1` and descripcion and imagen `|| ""`. They write tipo, precio and estado as given (null when absent) and keep numero. |
| Rooms.CreateThenList | routes/habitaciones.js:50-53 | A room created without capacity, description or image is listed last, with capacity 1 and empty texts. |
| Rooms.UpdateFull | routes/habitaciones.js:71-105 | Not-found exactly when no room has the id, with the table unchanged. Otherwise only that room's writable columns change. |
| Rooms.UpdateEstado | routes/habitaciones.js:110-144 | A falsy estado is rejected. Otherwise the result is not-found exactly when the id is absent. A found room changes only in estado. |
| Rooms.Delete | routes/habitaciones.js:149-162 | Always reports success, whether or not the id existed. It removes the room and keeps every other one. |
| Accounts.Classify | routes/auth.js:71 | A stored password is a digest exactly when it starts with "$2b$". Classifying loses nothing. |
| Accounts.Verify | routes/auth.js:70-76 | A "$2b$" value is checked with compare. Any other value matches only the identical password. |
| Accounts.FindByCorreo | routes/auth.js:58-67 | Finds a row exactly when some user has that correo, and the row found has it. |
| Accounts.VerifyStoredDigest | routes/usuarios.js:98-100 | A digest-form password accepts exactly what compare accepts. |
| Auth.Register | routes/auth.js:8-46 | Rejected exactly when nombre, correo or password is falsy. A duplicate correo is rejected exactly when that correo is already registered. Otherwise it succeeds and appends one user with rol cliente, the stored password hash(password), nombre and correo as given, and apellido as given or null when falsy. |
| Auth.Login | routes/auth.js:49-110 | Missing correo or password is rejected. An unknown correo and a wrong password get the same rejection. Success happens exactly when the user found by correo passes the hashed/plain check. The profile holds id, nombre, apellido, correo and rol, and no password. |
| Auth.RegisteredRowFound | routes/auth.js:18-38 | After registration the lookup by that correo finds the new row. |
| Auth.RegisterThenLogin | routes/auth.js:27-104 | If hash yields "$2b$" digests that compare accepts, logging in right after registering succeeds with a cliente profile. |
| Auth.RegisterThenLoginUnprefixed | routes/auth.js:70-76 | If hash yields digests without the "$2b$" prefix, the new password logs in only if it equals its own digest. |
| Users.InitialPassword | routes/usuarios.js:47-49 | A given password with the "$2b$" prefix is kept verbatim. Any other given password is hashed. An absent or empty one is replaced by hash("12345"). |
| Users.Create | routes/usuarios.js:27-67 | Rejected exactly when nombre or correo is falsy. A duplicate correo is rejected exactly when it is already registered. Otherwise it succeeds and appends one user with nombre and correo as given, the initial password, rol defaulting to operador and apellido to "". |
| Users.Update | routes/usuarios.js:72-136 | Not-found exactly when the id is absent. A new password without the current one is rejected. A wrong current password, checked the hashed/plain way, is rejected. Any other edit of an existing user succeeds, including every edit without a new password. On success nombre and correo are always overwritten, and apellido becomes the given value or null when falsy. rol is overwritten only when given. The password changes only when a new one is given, and then to its hash. Other rows are unchanged. |
| Users.ChangedPasswordVerifies | routes/usuarios.js:93-116 | On a valid table, a password change for an existing user whose current password passes the hashed/plain check is accepted. The new password then passes that check against the stored value, when hash yields "$2b$" digests that compare accepts. |
| Users.Delete | routes/usuarios.js:142-159 | Reports not-found exactly when no row has the id. Otherwise it removes the row and keeps the others. |
| Tables.Find | routes/reservas.js:44-56 | `SELECT ... WHERE id` then the first record: finds a row exactly when one has the key. |
| Tables.FindUnique | routes/pagos.js:17-26 | In a valid table the key lookup returns exactly the row with that key. |
| Tables.Delete | routes/habitaciones.js:152-155 | Removes every row with the key and keeps all others, in order. It shrinks the table when the key was present. |
| Tables.Insert | routes/reservas.js:139-156 | Appends one row under the next identity key and keeps the table valid. |
| Tables.Affected | routes/habitaciones.js:126-130 | The `rowsAffected` count of a statement keyed by id is zero exactly when no row has the key. The routes turn that zero into not-found. |
| Tables.Update | routes/reservas.js:238-239 | `UPDATE ... WHERE id`: every row with the key gets the new value, and all other rows and the identity counter stay as they were. An absent key leaves the table unchanged. Validity is kept. |
| Tables.DeleteExisting | routes/reservas.js:275-282 | A delete whose route reports not-found on zero affected rows gives nothing exactly when no row has the key. Otherwise it gives the plain delete. |

## Left out

- JWT signing and verification, and `GET /auth/perfil`. They belong to a token library; a successful login returns only the profile.
- bcrypt internals and salt randomness. `hash` and `compare` are uninterpreted parameters.
- The plain listings `GET /reservas`, `/reservas/pending` and `/reservas/mine`, the user listing, and `GET /reservas/search`. They pass queries straight through, and the search meaning rests on SQL assembled from strings.
- Contact e-mail relay, the report counts, route wiring and connection-pool setup. These are I/O with no logic.
- JavaScript `Date` parsing, time zones and `setHours`. Dates are day numbers and today is a parameter. An unparseable date string (NaN, which slips past both JavaScript comparisons) is not modelled.
- Storage and transport failures (the 500 paths) and HTTP status codes. Only the result tag and the error kind are kept.
- The check-then-insert race between concurrent admissions. The model is sequential.
- Decimal prices. Amounts are integers.
- Request values of the wrong JSON type, for example a room id sent as a string or a numeric `numero` passed through `String`.
- Database collation. SQL `=`, `IN` and the duplicate-correo lookups compare exactly, although a case-insensitive collation could fold case and trailing spaces.
- Non-ASCII case mapping. `Lower` maps only the ASCII letters.
- Column length limits (NVarChar sizes).
- A NULL stored password. Its `startsWith` call would throw in the profile update, so stored passwords are modelled as non-null strings.
- Rooms.List: `ORDER BY id` is not a sort in the model. Rows are kept in key order by the `Tables.Valid` invariant, which every writer preserves, so the listing is ascending only on valid tables.
- Auth.Login: the SQL lookup by correo has no ORDER BY, so the model takes the first matching row in storage order. Duplicate correos can arise because the profile update does not check uniqueness.
- Idempotence of rejected admissions is not stated separately. Admission is a pure function and a rejection carries no table.
