/**
 * A database table of reference data (the `statuses` and `websites` tables) as the admin
 * pages see it: rows in `created_at` order, each with an id the table assigns, and the four
 * requests the pages make of it (select ordered by `created_at`, insert, update by id, delete
 * by id). Each request may be refused with an error message, which is an input; a refused
 * request changes nothing.
 */
module ReferenceTable {
  import opened Wrappers

  datatype Row<T> = Row(id: nat, data: T)

  /** No two rows share an id. */
  predicate IdsUnique<T>(rows: seq<Row<T>>) {
    forall i, j :: 0 <= i < j < |rows| ==> rows[i].id != rows[j].id
  }

  /** Every id is below `bound`, the next one the table will assign. */
  predicate IdsBelow<T>(rows: seq<Row<T>>, bound: nat) {
    forall i :: 0 <= i < |rows| ==> rows[i].id < bound
  }

  /** `update(data).eq("id", id)`: the rows with that id get the new data, in place. */
  function Updated<T>(rows: seq<Row<T>>, id: nat, data: T): (r: seq<Row<T>>)
    ensures |r| == |rows|
    ensures forall i :: 0 <= i < |r| ==> r[i].id == rows[i].id
    ensures forall i :: 0 <= i < |r| ==> r[i].data == (if rows[i].id == id then data else rows[i].data)
  {
    if rows == [] then []
    else [if rows[0].id == id then Row(id, data) else rows[0]] + Updated(rows[1..], id, data)
  }

  /** `delete().eq("id", id)`: the rows with that id are gone, the others keep their order. */
  function Removed<T>(rows: seq<Row<T>>, id: nat): (r: seq<Row<T>>)
    ensures |r| <= |rows|
    ensures forall i :: 0 <= i < |r| ==> r[i] in rows && r[i].id != id
    ensures forall i :: 0 <= i < |rows| && rows[i].id != id ==> rows[i] in r
  {
    if rows == [] then []
    else (if rows[0].id == id then [] else [rows[0]]) + Removed(rows[1..], id)
  }

  lemma UpdatedValid<T>(rows: seq<Row<T>>, id: nat, data: T, bound: nat)
    requires IdsUnique(rows) && IdsBelow(rows, bound)
    ensures IdsUnique(Updated(rows, id, data)) && IdsBelow(Updated(rows, id, data), bound)
  {
  }

  lemma {:induction false} RemovedValid<T>(rows: seq<Row<T>>, id: nat, bound: nat)
    requires IdsUnique(rows) && IdsBelow(rows, bound)
    ensures IdsUnique(Removed(rows, id)) && IdsBelow(Removed(rows, id), bound)
  {
    if rows != [] {
      RemovedValid(rows[1..], id, bound);
      var tail := Removed(rows[1..], id);
      forall k | 0 <= k < |tail| ensures tail[k].id != rows[0].id {
        assert tail[k] in rows[1..];
      }
    }
  }

  /** A row with an id the table does not hold is left alone by a delete of another id. */
  lemma {:induction false} RemovedAbsent<T>(rows: seq<Row<T>>, id: nat)
    requires forall i :: 0 <= i < |rows| ==> rows[i].id != id
    ensures Removed(rows, id) == rows
  {
    if rows != [] {
      RemovedAbsent(rows[1..], id);
    }
  }

  /** Deleting the row just inserted gives the table back. */
  lemma InsertThenDelete<T>(rows: seq<Row<T>>, bound: nat, data: T)
    requires IdsBelow(rows, bound)
    ensures Removed(rows + [Row(bound, data)], bound) == rows
  {
    RemovedAppend(rows, [Row(bound, data)], bound);
    RemovedAbsent(rows, bound);
    assert Removed([Row(bound, data)], bound) == [];
    assert rows + [] == rows;
  }

  lemma {:induction false} RemovedAppend<T>(a: seq<Row<T>>, b: seq<Row<T>>, id: nat)
    ensures Removed(a + b, id) == Removed(a, id) + Removed(b, id)
  {
    if a == [] {
      assert a + b == b;
    } else {
      assert (a + b)[1..] == a[1..] + b;
      RemovedAppend(a[1..], b, id);
    }
  }

  /** Repeating an update changes nothing more. */
  lemma UpdatedIdempotent<T>(rows: seq<Row<T>>, id: nat, data: T)
    ensures Updated(Updated(rows, id, data), id, data) == Updated(rows, id, data)
  {
    var once := Updated(rows, id, data);
    var twice := Updated(once, id, data);
    assert |twice| == |once|;
    forall i | 0 <= i < |once| ensures twice[i] == once[i] { }
  }

  class Table<T> {
    /** The rows in `created_at` order, which is the order they were inserted in. */
    var rows: seq<Row<T>>
    var nextId: nat

    predicate Valid()
      reads this
    {
      IdsUnique(rows) && IdsBelow(rows, nextId)
    }

    constructor ()
      ensures rows == [] && nextId == 0 && Valid()
    {
      rows, nextId := [], 0;
    }

    /** `select("*").order("created_at")`: the rows, or no data when the request fails. */
    method Select(fails: bool) returns (data: Option<seq<Row<T>>>)
      ensures data == if fails then None else Some(rows)
    {
      data := if fails then None else Some(rows);
    }

    /** `insert(data)`: one new row at the end, with an id no row had. */
    method Insert(data: T, refusal: Option<string>) returns (error: Option<string>)
      requires Valid()
      modifies this
      ensures Valid() && error == refusal
      ensures error.Some? ==> rows == old(rows) && nextId == old(nextId)
      ensures error.None? ==> rows == old(rows) + [Row(old(nextId), data)] && nextId == old(nextId) + 1
    {
      error := refusal;
      if refusal.None? {
        rows := rows + [Row(nextId, data)];
        nextId := nextId + 1;
      }
    }

    /** `update(data).eq("id", id)`. An id no row has is not an error: nothing changes. */
    method Update(id: nat, data: T, refusal: Option<string>) returns (error: Option<string>)
      requires Valid()
      modifies this
      ensures Valid() && error == refusal && nextId == old(nextId)
      ensures rows == if error.Some? then old(rows) else Updated(old(rows), id, data)
    {
      error := refusal;
      if refusal.None? {
        UpdatedValid(rows, id, data, nextId);
        rows := Updated(rows, id, data);
      }
    }

    /** `delete().eq("id", id)`. */
    method Delete(id: nat, refusal: Option<string>) returns (error: Option<string>)
      requires Valid()
      modifies this
      ensures Valid() && error == refusal && nextId == old(nextId)
      ensures rows == if error.Some? then old(rows) else Removed(old(rows), id)
    {
      error := refusal;
      if refusal.None? {
        RemovedValid(rows, id, nextId);
        rows := Removed(rows, id);
      }
    }
  }
}
