/** An abstract relational table: rows in primary-key order, with an
    autoincrement counter. This stands for what the data-access classes
    reach through the ORM (`objects.create`, `objects.get(pk=...)`,
    `obj.save()`, `obj.delete()`, `objects.all()`). */
module Store {
  import opened Wrappers

  datatype Row<R> = Row(id: nat, rec: R)

  /** Primary keys are positive and strictly increasing along the rows. */
  ghost predicate Increasing<R>(rows: seq<Row<R>>) {
    forall i, j :: 0 <= i < j < |rows| ==> rows[i].id < rows[j].id
  }

  ghost predicate Below<R>(rows: seq<Row<R>>, bound: nat) {
    forall i :: 0 <= i < |rows| ==> 0 < rows[i].id < bound
  }

  datatype TableRep<R> = TableRep(rows: seq<Row<R>>, nextId: nat)

  /** A table whose keys are unique, positive and below the next key to hand out. */
  type Table<R> = t: TableRep<R> | 0 < t.nextId && Increasing(t.rows) && Below(t.rows, t.nextId)
    witness TableRep([], 1)

  function Empty<R>(): (t: Table<R>)
    ensures t.rows == []
  {
    TableRep([], 1)
  }

  /** The record stored under `id` in `rows`, if any. */
  function Find<R>(rows: seq<Row<R>>, id: nat): (r: Option<R>)
    ensures r.Some? ==> Row(id, r.value) in rows
    ensures r.None? <==> forall i :: 0 <= i < |rows| ==> rows[i].id != id
  {
    if |rows| == 0 then None
    else if rows[0].id == id then Some(rows[0].rec)
    else Find(rows[1..], id)
  }

  predicate Has<R>(t: Table<R>, id: nat) {
    Find(t.rows, id).Some?
  }

  /** `objects.get(pk=id)`; `DoesNotExist` is reported as `NotFound`. */
  function Get<R>(t: Table<R>, id: nat): (r: Result<R>)
    ensures r.Ok? <==> Has(t, id)
    ensures r.Ok? ==> Row(id, r.value) in t.rows
    ensures r.Err? ==> r.error == NotFound
  {
    match Find(t.rows, id)
    case Some(v) => Ok(v)
    case None => Err(NotFound)
  }

  /** In a table, a key identifies at most one record. */
  lemma KeyIsUnique<R>(t: Table<R>, id: nat, a: R, b: R)
    requires Row(id, a) in t.rows && Row(id, b) in t.rows
    ensures a == b
  {
    var i :| 0 <= i < |t.rows| && t.rows[i] == Row(id, a);
    var j :| 0 <= j < |t.rows| && t.rows[j] == Row(id, b);
    if i < j {
      assert t.rows[i].id < t.rows[j].id;
    } else if j < i {
      assert t.rows[j].id < t.rows[i].id;
    }
  }

  /** Whatever row holds key `id`, `Get` returns its record. */
  lemma GetRow<R>(t: Table<R>, id: nat, v: R)
    requires Row(id, v) in t.rows
    ensures Get(t, id) == Ok(v)
  {
    var i :| 0 <= i < |t.rows| && t.rows[i] == Row(id, v);
    assert t.rows[i].id == id;
    KeyIsUnique(t, id, Get(t, id).value, v);
  }

  /** `objects.create(...)`: appends `rec` under the next key; the new key finds `rec`
      and every other key finds what it found before. */
  function Insert<R>(t: Table<R>, rec: R): (t': Table<R>)
    ensures !Has(t, t.nextId)
    ensures t'.rows == t.rows + [Row(t.nextId, rec)] && t'.nextId == t.nextId + 1
    ensures forall k :: Get(t', k) == if k == t.nextId then Ok(rec) else Get(t, k)
  {
    var t': TableRep<R> := TableRep(t.rows + [Row(t.nextId, rec)], t.nextId + 1);
    assert Increasing(t'.rows);
    assert Below(t'.rows, t'.nextId);
    FindAppend(t.rows, Row(t.nextId, rec));
    t'
  }

  lemma {:induction false} FindAppend<R>(rows: seq<Row<R>>, row: Row<R>)
    ensures forall id :: (Find(rows + [row], id) ==
      if Find(rows, id).Some? then Find(rows, id)
      else if row.id == id then Some(row.rec)
      else None)
  {
    if |rows| > 0 {
      assert (rows + [row])[1..] == rows[1..] + [row];
      FindAppend(rows[1..], row);
    }
  }

  function UpdateRows<R>(rows: seq<Row<R>>, id: nat, rec: R): (r: seq<Row<R>>)
    ensures |r| == |rows|
    ensures forall i :: 0 <= i < |rows| ==> r[i].id == rows[i].id
  {
    if |rows| == 0 then []
    else [if rows[0].id == id then Row(id, rec) else rows[0]] + UpdateRows(rows[1..], id, rec)
  }

  lemma {:induction false} FindUpdateRows<R>(rows: seq<Row<R>>, id: nat, rec: R)
    ensures forall k :: (Find(UpdateRows(rows, id, rec), k) ==
      if k == id && Find(rows, id).Some? then Some(rec) else Find(rows, k))
  {
    if |rows| > 0 {
      FindUpdateRows(rows[1..], id, rec);
    }
  }

  /** `obj.save()` of a changed record: the key `id`, if present, now finds `rec`; every other
      key finds what it found before, and no key is added or removed. */
  function Update<R>(t: Table<R>, id: nat, rec: R): (t': Table<R>)
    ensures |t'.rows| == |t.rows| && t'.nextId == t.nextId
    ensures forall k :: Get(t', k) == if k == id && Has(t, id) then Ok(rec) else Get(t, k)
  {
    var t': TableRep<R> := TableRep(UpdateRows(t.rows, id, rec), t.nextId);
    assert Increasing(t'.rows) by {
      forall i, j | 0 <= i < j < |t'.rows| ensures t'.rows[i].id < t'.rows[j].id {
        assert t.rows[i].id < t.rows[j].id;
      }
    }
    FindUpdateRows(t.rows, id, rec);
    t'
  }

  function DeleteRows<R>(rows: seq<Row<R>>, id: nat): (r: seq<Row<R>>)
    ensures |r| <= |rows|
    ensures forall i :: 0 <= i < |r| ==> r[i] in rows && r[i].id != id
    ensures forall i :: 0 <= i < |rows| && rows[i].id != id ==> rows[i] in r
  {
    if |rows| == 0 then []
    else if rows[0].id == id then DeleteRows(rows[1..], id)
    else [rows[0]] + DeleteRows(rows[1..], id)
  }

  lemma {:induction false} DeleteRowsIncreasing<R>(rows: seq<Row<R>>, id: nat)
    requires Increasing(rows)
    ensures Increasing(DeleteRows(rows, id))
  {
    if |rows| > 0 {
      DeleteRowsIncreasing(rows[1..], id);
      var tail := DeleteRows(rows[1..], id);
      forall x | x in tail ensures rows[0].id < x.id {
        var j :| 0 <= j < |rows[1..]| && rows[1..][j] == x;
        assert rows[j + 1] == x;
      }
    }
  }

  lemma {:induction false} FindDeleteRows<R>(rows: seq<Row<R>>, id: nat)
    ensures forall k :: Find(DeleteRows(rows, id), k) == if k == id then None else Find(rows, k)
  {
    if |rows| > 0 {
      FindDeleteRows(rows[1..], id);
    }
  }

  /** `obj.delete()`: the key `id` no longer finds anything; every other key finds what it
      found before, and the remaining rows keep their order. */
  function Delete<R>(t: Table<R>, id: nat): (t': Table<R>)
    ensures t'.nextId == t.nextId && |t'.rows| <= |t.rows|
    ensures forall k :: Get(t', k) == if k == id then Err(NotFound) else Get(t, k)
  {
    DeleteRowsIncreasing(t.rows, id);
    var t': TableRep<R> := TableRep(DeleteRows(t.rows, id), t.nextId);
    assert Below(t'.rows, t'.nextId) by {
      forall i | 0 <= i < |t'.rows| ensures 0 < t'.rows[i].id < t'.nextId {
        var j :| 0 <= j < |t.rows| && t.rows[j] == t'.rows[i];
      }
    }
    FindDeleteRows(t.rows, id);
    t'
  }

  /** Deletes the rows under each key of `ids` in turn (a missing key deletes nothing). */
  function DeleteAll<R>(t: Table<R>, ids: seq<nat>): (t': Table<R>)
    ensures t'.nextId == t.nextId
    ensures forall k :: Get(t', k) == if k in ids then Err(NotFound) else Get(t, k)
    decreases |ids|
  {
    if |ids| == 0 then t
    else
      assert ids == [ids[0]] + ids[1..];
      DeleteAll(Delete(t, ids[0]), ids[1..])
  }

  lemma {:induction false} DeleteRowsMissing<R>(rows: seq<Row<R>>, id: nat)
    requires forall i :: 0 <= i < |rows| ==> rows[i].id != id
    ensures DeleteRows(rows, id) == rows
  {
    if |rows| > 0 {
      DeleteRowsMissing(rows[1..], id);
      assert rows == [rows[0]] + rows[1..];
    }
  }

  /** Deleting keys the table does not hold leaves it exactly as it was. */
  lemma {:induction false} DeleteAllMissing<R>(t: Table<R>, ids: seq<nat>)
    requires forall i :: 0 <= i < |ids| ==> !Has(t, ids[i])
    ensures DeleteAll(t, ids) == t
    decreases |ids|
  {
    if |ids| > 0 {
      DeleteRowsMissing(t.rows, ids[0]);
      assert Delete(t, ids[0]) == t;
      DeleteAllMissing(t, ids[1..]);
    }
  }
}
