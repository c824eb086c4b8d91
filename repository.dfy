/**
 * The generic repository (`BaseRepository`) and the User repository's
 * natural-key lookup. Every method takes the session's table for its model;
 * `fails` stands for the store rejecting the call (a lost connection, a
 * failed statement or commit). The generic operations catch such a failure,
 * roll back and hand back None, [] or nothing; `GetByEmail` does not catch
 * it.
 */
module Repository {
  import opened Values
  import opened Models
  import opened Store

  /** The row `update` leaves behind: each column named in `patch` takes the
      patch's value when that value is truthy and keeps its stored value
      otherwise; names that are not columns never reach the table. */
  function ApplyTruthy(row: Row, patch: Row): Row
  {
    map c | c in row :: if c in patch && Truthy(patch[c]) then patch[c] else row[c]
  }

  /** `get_by_id`: the row with primary key `id`, or None. */
  method GetById(db: Table, id: Key, fails: bool) returns (r: Option<Record>)
    ensures fails ==> r == None
    ensures !fails ==> (r.Some? <==> id in db.rows)
    ensures r.Some? ==> r.value.id == id && id in db.rows && r.value.fields == db.rows[id]
  {
    if fails {
      // rolled back and logged
      return None;
    }
    if id in db.rows {
      r := Some(Record(id, db.rows[id]));
    } else {
      r := None;
    }
  }

  /** `get_all`: every row of the table exactly once, or [] on a failure. */
  method GetAll(db: Table, fails: bool) returns (r: seq<Record>)
    requires db.Valid()
    ensures fails ==> r == []
    ensures !fails ==> forall k :: k in db.rows ==> Record(k, db.rows[k]) in r
    ensures forall i :: 0 <= i < |r| ==> r[i].id in db.rows && r[i].fields == db.rows[r[i].id]
    ensures forall i, j :: 0 <= i < j < |r| ==> r[i].id < r[j].id
  {
    if fails {
      // rolled back and logged
      return [];
    }
    r := ScanFrom(db.rows, 0, db.nextKey);
  }

  /** `create`: `Model(**obj_in)` is added and committed. A keyword that is
      not a column raises TypeError, which the `except SQLAlchemyError` does
      not catch; a store failure, a NULL in a NOT NULL column or an
      over-wide string is rolled back and yields None. */
  method Create(db: Table, objIn: Row, fails: bool) returns (r: Result<Option<Record>>)
    requires db.Valid()
    modifies db
    ensures db.Valid()
    ensures r.Raised? <==> !(objIn.Keys <= db.schema.columns)
    ensures r.Raised? ==> r.error == TypeError
    ensures r == Ok(None) <==>
              objIn.Keys <= db.schema.columns && (fails || !Persistable(db.schema, Complete(db.schema, objIn)))
    ensures r.Ok? && r.value.Some? ==>
              var rec := r.value.value;
              && objIn.Keys <= db.schema.columns
              && rec.id == old(db.nextKey) && rec.id !in old(db.rows)
              && rec.fields == Complete(db.schema, objIn)
              && db.rows == old(db.rows)[rec.id := rec.fields]
              && db.nextKey == rec.id + 1
    ensures !(r.Ok? && r.value.Some?) ==> db.rows == old(db.rows) && db.nextKey == old(db.nextKey)
  {
    if !(objIn.Keys <= db.schema.columns) {
      return Raised(TypeError);
    }
    var row := Complete(db.schema, objIn);
    if fails || !Persistable(db.schema, row) {
      // rolled back and logged
      return Ok(None);
    }
    var id := db.nextKey;
    db.rows := db.rows[id := row];
    db.nextKey := id + 1;
    r := Ok(Some(Record(id, row)));
  }

  /** `update`: copies the truthy values of `objIn` onto the stored row `id`,
      one field at a time, then commits. A falsy value (None, False, 0, "")
      is skipped, so this can never clear a field. The object not being in
      the session (refresh raises), a store failure or a row the commit
      rejects all roll back and yield None. */
  method Update(db: Table, id: Key, objIn: Row, fails: bool) returns (r: Option<Record>)
    requires db.Valid()
    modifies db
    ensures db.Valid() && db.nextKey == old(db.nextKey)
    ensures r.Some? <==>
              && !fails && id in old(db.rows)
              && Persistable(db.schema, ApplyTruthy(old(db.rows)[id], objIn))
    ensures r.Some? ==>
              && r.value.id == id
              && r.value.fields == ApplyTruthy(old(db.rows)[id], objIn)
              && db.rows == old(db.rows)[id := r.value.fields]
    ensures r.None? ==> db.rows == old(db.rows)
  {
    if id !in db.rows {
      // refresh of an instance that is not persistent raises; rolled back
      return None;
    }
    var row := db.rows[id];
    ghost var before := row;
    var pending := objIn.Keys;
    while pending != {}
      invariant pending <= objIn.Keys
      invariant row.Keys == before.Keys
      invariant forall c :: c in row ==>
                  row[c] == if c in objIn && c !in pending && Truthy(objIn[c]) then objIn[c] else before[c]
      decreases pending
    {
      var c :| c in pending;
      if c in db.schema.columns && Truthy(objIn[c]) {
        row := row[c := objIn[c]];
      }
      pending := pending - {c};
    }
    assert row == ApplyTruthy(before, objIn);
    if fails || !Persistable(db.schema, row) {
      // rolled back and logged
      return None;
    }
    db.rows := db.rows[id := row];
    r := Some(Record(id, row));
  }

  /** `delete`: removes row `id` when it exists; an absent key or a store
      failure leaves the table as it was. */
  method Delete(db: Table, id: Key, fails: bool)
    requires db.Valid()
    modifies db
    ensures db.Valid() && db.nextKey == old(db.nextKey)
    ensures !fails && id in old(db.rows) ==> db.rows == old(db.rows) - {id}
    ensures fails || id !in old(db.rows) ==> db.rows == old(db.rows)
  {
    if fails {
      // rolled back and logged
      return;
    }
    if id in db.rows {
      db.rows := db.rows - {id};
    }
  }

  /** `UserRepository.get_by_email`: the first user whose EmailAddress is
      `email`, or None. A store failure is not caught. */
  method GetByEmail(db: Table, email: string, fails: bool) returns (r: Result<Option<Record>>)
    requires db.Valid() && db.schema.table == "Users"
    ensures r.Raised? <==> fails
    ensures r.Raised? ==> r.error == StoreError
    ensures r == Ok(None) <==>
              !fails && forall k :: k in db.rows ==> !Matches(db.rows, k, EmailAddress, S(email))
    ensures r.Ok? && r.value.Some? ==>
              var rec := r.value.value;
              && Matches(db.rows, rec.id, EmailAddress, S(email))
              && rec.fields == db.rows[rec.id]
              && forall k :: 0 <= k < rec.id ==> !Matches(db.rows, k, EmailAddress, S(email))
  {
    if fails {
      return Raised(StoreError);
    }
    var found := FirstFrom(db.rows, 0, db.nextKey, EmailAddress, S(email));
    if found.Some? {
      r := Ok(Some(Record(found.value, db.rows[found.value])));
    } else {
      r := Ok(None);
    }
  }

  /** The skip rule: a truthy patch value overwrites its column, a falsy one
      or an absent one leaves the stored value, and no column is added or
      removed. */
  lemma UpdateSkipsFalsy(row: Row, patch: Row)
    ensures ApplyTruthy(row, patch).Keys == row.Keys
    ensures forall c :: c in row && c in patch && Truthy(patch[c]) ==> ApplyTruthy(row, patch)[c] == patch[c]
    ensures forall c :: c in row && (c !in patch || !Truthy(patch[c])) ==> ApplyTruthy(row, patch)[c] == row[c]
  {
  }

  /** `update` cannot make a truthy field falsy: there is no way to reset a
      field to None, False, 0 or "" through it. */
  lemma UpdateCannotClear(row: Row, patch: Row, c: Field)
    requires c in row && Truthy(row[c])
    ensures c in ApplyTruthy(row, patch) && Truthy(ApplyTruthy(row, patch)[c])
  {
  }

  /** A second `update` with the same fields changes nothing more. */
  lemma UpdateIdempotent(row: Row, patch: Row)
    ensures ApplyTruthy(ApplyTruthy(row, patch), patch) == ApplyTruthy(row, patch)
  {
  }
}
