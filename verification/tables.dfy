/** A relational table as the routes see it: rows with an identity key, kept
    in ascending key order, and the single-statement queries the routes issue
    against it (SELECT ... WHERE, INSERT, UPDATE ... WHERE id, DELETE ... WHERE id). */
module Tables {
  import opened Common

  datatype Row<T> = Row(id: int, data: T)

  /** `nextId` is the next value the identity column hands out. */
  datatype Table<T> = Table(rows: seq<Row<T>>, nextId: int)

  /** Keys strictly ascending (hence unique) and all below the identity counter. */
  ghost predicate Valid<T>(t: Table<T>) {
    && Ascending(t.rows)
    && (forall i :: 0 <= i < |t.rows| ==> t.rows[i].id < t.nextId)
  }

  ghost predicate Ascending<T>(rows: seq<Row<T>>) {
    forall i, j :: 0 <= i < j < |rows| ==> rows[i].id < rows[j].id
  }

  ghost predicate HasId<T>(rows: seq<Row<T>>, id: int) {
    exists i :: 0 <= i < |rows| && rows[i].id == id
  }

  /** `SELECT * ... WHERE p`: the matching rows, in table order. */
  function Select<T>(rows: seq<Row<T>>, p: Row<T> -> bool): (r: seq<Row<T>>)
    ensures |r| <= |rows|
    ensures forall x :: x in r ==> x in rows && p(x)
    ensures forall i :: 0 <= i < |rows| && p(rows[i]) ==> rows[i] in r
    decreases |rows|
  {
    if rows == [] then []
    else if p(rows[0]) then [rows[0]] + Select(rows[1..], p)
    else Select(rows[1..], p)
  }

  /** A filter keeps the relative order of the rows it keeps. */
  lemma {:induction false} SelectAscending<T>(rows: seq<Row<T>>, p: Row<T> -> bool)
    ensures Ascending(rows) ==> Ascending(Select(rows, p))
    decreases |rows|
  {
    if rows != [] && Ascending(rows) {
      SelectAscending(rows[1..], p);
      var tail := Select(rows[1..], p);
      forall x | x in tail
        ensures rows[0].id < x.id
      {
        var k :| 0 <= k < |rows[1..]| && rows[1..][k] == x;
        assert rows[k + 1] == x;
      }
    }
  }

  /** `SELECT ... WHERE id = @id` followed by `recordset[0]`. */
  function Find<T>(t: Table<T>, id: int): (r: Option<T>)
    ensures r.Some? <==> HasId(t.rows, id)
    ensures r.Some? ==> Row(id, r.value) in t.rows
  {
    var m := Select(t.rows, (x: Row<T>) => x.id == id);
    if m == [] then
      None
    else
      assert m[0] in m && m[0] == Row(id, m[0].data);
      Some(m[0].data)
  }

  /** In a valid table the key identifies its row, so `Find` returns it. */
  lemma FindUnique<T>(t: Table<T>, i: int)
    requires Valid(t)
    requires 0 <= i < |t.rows|
    ensures Find(t, t.rows[i].id) == Some(t.rows[i].data)
  {
    var r := Find(t, t.rows[i].id);
    var k :| 0 <= k < |t.rows| && t.rows[k] == Row(t.rows[i].id, r.value);
    assert k == i;
  }

  /** `rowsAffected[0]` of a statement keyed by `WHERE id = @id`. */
  function Affected<T>(t: Table<T>, id: int): (n: nat)
    ensures n == 0 <==> !HasId(t.rows, id)
  {
    var m := Select(t.rows, (x: Row<T>) => x.id == id);
    assert m != [] ==> m[0] in m;
    |m|
  }

  /** `INSERT`: the identity column hands out `nextId`. */
  function Insert<T>(t: Table<T>, data: T): (r: Table<T>)
    ensures |r.rows| == |t.rows| + 1
    ensures r.rows[..|t.rows|] == t.rows
    ensures r.rows[|t.rows|] == Row(t.nextId, data)
    ensures Valid(t) ==> Valid(r) && !HasId(t.rows, t.nextId)
  {
    Table(t.rows + [Row(t.nextId, data)], t.nextId + 1)
  }

  /** `UPDATE ... SET ... WHERE id = @id`: `f` computes the new row from the old. */
  function UpdateRows<T>(rows: seq<Row<T>>, id: int, f: T -> T): (r: seq<Row<T>>)
    ensures |r| == |rows|
    ensures forall i :: 0 <= i < |rows| ==> r[i].id == rows[i].id
    ensures forall i :: 0 <= i < |rows| && rows[i].id == id ==> r[i].data == f(rows[i].data)
    ensures forall i :: 0 <= i < |rows| && rows[i].id != id ==> r[i] == rows[i]
    decreases |rows|
  {
    if rows == [] then []
    else
      var head := if rows[0].id == id then Row(id, f(rows[0].data)) else rows[0];
      [head] + UpdateRows(rows[1..], id, f)
  }

  function Update<T>(t: Table<T>, id: int, f: T -> T): (r: Table<T>)
    ensures r.nextId == t.nextId
    ensures |r.rows| == |t.rows|
    ensures forall i :: 0 <= i < |t.rows| ==> r.rows[i].id == t.rows[i].id
    ensures forall i :: 0 <= i < |t.rows| && t.rows[i].id == id ==> r.rows[i].data == f(t.rows[i].data)
    ensures forall i :: 0 <= i < |t.rows| && t.rows[i].id != id ==> r.rows[i] == t.rows[i]
    ensures !HasId(t.rows, id) ==> r == t
    ensures Valid(t) ==> Valid(r)
  {
    var r := Table(UpdateRows(t.rows, id, f), t.nextId);
    assert !HasId(t.rows, id) ==> r.rows == t.rows;
    r
  }

  /** `DELETE ... WHERE id = @id`. */
  function Delete<T>(t: Table<T>, id: int): (r: Table<T>)
    ensures r.nextId == t.nextId
    ensures !HasId(r.rows, id)
    ensures HasId(t.rows, id) ==> |r.rows| < |t.rows|
    ensures forall x :: x in r.rows ==> x in t.rows
    ensures forall x :: x in t.rows && x.id != id ==> x in r.rows
    ensures Valid(t) ==> Valid(r)
  {
    var p := (x: Row<T>) => x.id != id;
    var kept := Select(t.rows, p);
    SelectAscending(t.rows, p);
    DeleteShrinks(t.rows, id);
    assert forall k :: 0 <= k < |kept| ==> kept[k] in kept;
    Table(kept, t.nextId)
  }

  /** Deleting a key that is present removes at least one row. */
  lemma {:induction false} DeleteShrinks<T>(rows: seq<Row<T>>, id: int)
    ensures HasId(rows, id) ==> |Select(rows, (x: Row<T>) => x.id != id)| < |rows|
    decreases |rows|
  {
    var p := (x: Row<T>) => x.id != id;
    if HasId(rows, id) {
      if rows[0].id != id {
        var k :| 0 <= k < |rows| && rows[k].id == id;
        assert rows[1..][k - 1].id == id;
        DeleteShrinks(rows[1..], id);
      } else {
        assert Select(rows, p) == Select(rows[1..], p);
      }
    }
  }

  /** A DELETE whose route reports not-found when `rowsAffected` is 0: `None`
      exactly when no row carries the key. */
  function DeleteExisting<T>(t: Table<T>, id: int): (r: Option<Table<T>>)
    ensures r.None? <==> !HasId(t.rows, id)
    ensures r.Some? ==> r.value == Delete(t, id)
  {
    if Affected(t, id) == 0 then None else Some(Delete(t, id))
  }
}
