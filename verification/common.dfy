/** Shared vocabulary: optional values, results, JSON request fields with
    JavaScript truthiness, and the few string operations the routes use
    (lower-casing, SQL-style trimming, prefix test). */
module Common {

  /** A nullable database column. */
  datatype Option<+T> = None | Some(value: T) {
    /** `column || fallback` style reading of a nullable column. */
    function GetOr(default: T): T {
      match this
      case Some(v) => v
      case None => default
    }
  }

  /** The outcome of a route: the new state of the affected table, or the
      business rejection that left every table untouched. */
  datatype Result<+T, +E> = Ok(value: T) | Err(error: E)

  /** A field of a JSON request body: absent (`undefined` in JavaScript),
      explicitly `null`, or given. */
  datatype Field<+T> = Missing | Null | Given(value: T) {
    /** The value a parameterised query stores for this field: `undefined`
        and `null` both become SQL NULL. */
    function ToColumn(): (c: Option<T>)
      ensures c.Some? <==> Given?
      ensures c.Some? ==> c.value == value
    {
      if Given? then Some(value) else None
    }
  }

  /** JavaScript truthiness of a string field: given and not "". */
  predicate Truthy(f: Field<string>) {
    f.Given? && f.value != ""
  }

  /** JavaScript truthiness of a numeric field: given and not 0. */
  predicate TruthyNum(f: Field<int>) {
    f.Given? && f.value != 0
  }

  /** `f || fallback` for a string field. */
  function OrStr(f: Field<string>, fallback: string): (s: string)
    ensures Truthy(f) ==> s == f.value
    ensures !Truthy(f) ==> s == fallback
  {
    if Truthy(f) then f.value else fallback
  }

  /** `f || fallback` for a numeric field. */
  function OrNum(f: Field<int>, fallback: int): (n: int)
    ensures TruthyNum(f) ==> n == f.value
    ensures !TruthyNum(f) ==> n == fallback
  {
    if TruthyNum(f) then f.value else fallback
  }

  /** `f || null` for a string field, as stored in a nullable column. */
  function OrNull(f: Field<string>): (c: Option<string>)
    ensures Truthy(f) <==> c.Some?
    ensures c.Some? ==> c.value == f.value
  {
    if Truthy(f) then Some(f.value) else None
  }

  /** Lower-casing of one character; only the ASCII letters are mapped. */
  function LowerChar(c: char): char {
    if 'A' <= c <= 'Z' then (c as int - 'A' as int + 'a' as int) as char else c
  }

  /** `String.prototype.toLowerCase` / SQL `LOWER`, on ASCII letters. */
  function Lower(s: string): (r: string)
    ensures |r| == |s|
    ensures forall i :: 0 <= i < |r| ==> r[i] == LowerChar(s[i])
  {
    if s == [] then [] else [LowerChar(s[0])] + Lower(s[1..])
  }

  /** SQL `LTRIM`: drop leading spaces. */
  function TrimStart(s: string): (r: string)
    ensures |r| <= |s| && r == s[|s| - |r|..]
    ensures r == [] || r[0] != ' '
  {
    if s != [] && s[0] == ' ' then TrimStart(s[1..]) else s
  }

  /** SQL `RTRIM`: drop trailing spaces. */
  function TrimEnd(s: string): (r: string)
    ensures |r| <= |s| && r == s[..|r|]
    ensures r == [] || r[|r| - 1] != ' '
  {
    if s != [] && s[|s| - 1] == ' ' then TrimEnd(s[..|s| - 1]) else s
  }

  /** `LOWER(LTRIM(RTRIM(s)))`: the normal form under which the legacy
      room-type labels are compared. */
  function Normalize(s: string): string {
    Lower(TrimStart(TrimEnd(s)))
  }

  /** `String.prototype.startsWith`. */
  predicate StartsWith(s: string, prefix: string) {
    |prefix| <= |s| && s[..|prefix|] == prefix
  }
}
