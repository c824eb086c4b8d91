/**
 * The Agent repository: lookup by the natural key `AgentName` and the
 * check-then-act upsert `register_or_update_agent`. Neither catches a store
 * failure: `fails` stands for the store failing at the first round trip of
 * the call (the lookup), and the failure reaches the caller as
 * Raised(StoreError). A commit the store rejects (a NULL in a NOT NULL
 * column, an over-wide string) raises the same way.
 */
module AgentRepository {
  import opened Values
  import opened Models
  import opened Store

  /** The row left after setting the attribute of every item
      of `data`: each column named in `data` takes its value, falsy values
      included; names that are not columns never reach the table. */
  function Overwrite(row: Row, data: Row): Row
  {
    map c | c in row :: if c in data then data[c] else row[c]
  }

  /** The outcome of one upsert: what it returns or raises, and the table
      afterwards. */
  datatype Upserted = Upserted(result: Result<Record>, rows: map<Key, Row>, nextKey: Key)

  /** `register_or_update_agent` on a table's rows: a missing `AgentName`
      raises KeyError; otherwise the first agent with that name is
      overwritten with every field of `data`, or, when there is none,
      `Agent(**data)` is inserted under the next generated key. */
  function Upsert(s: Schema, rows: map<Key, Row>, next: Key, data: Row, fails: bool): (u: Upserted)
    ensures u.result == Raised(KeyError) <==> AgentName !in data
    ensures AgentName in data && fails ==> u.result == Raised(StoreError)
    ensures u.result.Raised? ==> u.rows == rows && u.nextKey == next
    ensures u.result.Ok? ==>
              var rec := u.result.value;
              && AgentName in data && !fails
              && rec.id in u.rows && u.rows[rec.id] == rec.fields
              && Persistable(s, rec.fields)
              && Matches(u.rows, rec.id, AgentName, data[AgentName])
              && u.rows.Keys == rows.Keys + {rec.id}
              && (forall k :: k in rows && k != rec.id ==> u.rows[k] == rows[k])
  {
    if AgentName !in data then Upserted(Raised(KeyError), rows, next)
    else if fails then Upserted(Raised(StoreError), rows, next)
    else
      match FirstFrom(rows, 0, next, AgentName, data[AgentName])
      case Some(k) => Replace(s, rows, next, k, data)
      case None => Insert(s, rows, next, data)
  }

  /** The update branch: row `k` overwritten with `data`, then committed. */
  function Replace(s: Schema, rows: map<Key, Row>, next: Key, k: Key, data: Row): (u: Upserted)
    requires k in rows
    ensures u.result.Ok? <==> Persistable(s, Overwrite(rows[k], data))
    ensures u.result.Raised? ==> u.result.error == StoreError
    ensures u.result.Raised? ==> u.rows == rows && u.nextKey == next
    ensures u.result.Ok? ==> u.result.value == Record(k, Overwrite(rows[k], data))
    ensures u.result.Ok? ==> u.rows == rows[k := u.result.value.fields] && u.nextKey == next
  {
    var row := Overwrite(rows[k], data);
    if !Persistable(s, row) then Upserted(Raised(StoreError), rows, next)
    else Upserted(Ok(Record(k, row)), rows[k := row], next)
  }

  /** The insert branch: `Agent(**data)` added under key `next`, then
      committed. */
  function Insert(s: Schema, rows: map<Key, Row>, next: Key, data: Row): (u: Upserted)
    ensures u.result == Raised(TypeError) <==> !(data.Keys <= s.columns)
    ensures u.result.Ok? <==> data.Keys <= s.columns && Persistable(s, Complete(s, data))
    ensures u.result.Raised? && data.Keys <= s.columns ==> u.result.error == StoreError
    ensures u.result.Raised? ==> u.rows == rows && u.nextKey == next
    ensures u.result.Ok? ==> data.Keys <= s.columns && u.result.value == Record(next, Complete(s, data))
    ensures u.result.Ok? ==> u.rows == rows[next := u.result.value.fields] && u.nextKey == next + 1
  {
    if !(data.Keys <= s.columns) then Upserted(Raised(TypeError), rows, next)
    else
      var row := Complete(s, data);
      if !Persistable(s, row) then Upserted(Raised(StoreError), rows, next)
      else Upserted(Ok(Record(next, row)), rows[next := row], next + 1)
  }

  /** `get_by_name`: the first agent whose AgentName is `agentName`, or None.
      A store failure is not caught. */
  method GetByName(db: Table, agentName: Value, fails: bool) returns (r: Result<Option<Record>>)
    requires db.Valid() && db.schema.table == "Agents"
    ensures r.Raised? <==> fails
    ensures r.Raised? ==> r.error == StoreError
    ensures r == Ok(None) <==>
              !fails && forall k :: k in db.rows ==> !Matches(db.rows, k, AgentName, agentName)
    ensures r.Ok? && r.value.Some? ==>
              var rec := r.value.value;
              && Matches(db.rows, rec.id, AgentName, agentName)
              && rec.fields == db.rows[rec.id]
              && forall k :: 0 <= k < rec.id ==> !Matches(db.rows, k, AgentName, agentName)
  {
    if fails {
      return Raised(StoreError);
    }
    var found := FirstFrom(db.rows, 0, db.nextKey, AgentName, agentName);
    if found.Some? {
      r := Ok(Some(Record(found.value, db.rows[found.value])));
    } else {
      r := Ok(None);
    }
  }

  /** `register_or_update_agent`, step by step: look the name up, then either
      copy every item of `agentData` onto the existing row or construct and
      add a new one, then commit. */
  method RegisterOrUpdateAgent(db: Table, agentData: Row, fails: bool) returns (r: Result<Record>)
    requires db.Valid() && db.schema.table == "Agents"
    modifies db
    ensures db.Valid()
    ensures var u := Upsert(db.schema, old(db.rows), old(db.nextKey), agentData, fails);
            r == u.result && db.rows == u.rows && db.nextKey == u.nextKey
  {
    if AgentName !in agentData {
      return Raised(KeyError);
    }
    ghost var u := Upsert(db.schema, db.rows, db.nextKey, agentData, fails);
    var existing := GetByName(db, agentData[AgentName], fails);
    if existing.Raised? {
      return Raised(existing.error);
    }
    if existing.value.Some? {
      var id := existing.value.value.id;
      FirstIsLeast(db.rows, 0, db.nextKey, AgentName, agentData[AgentName], id);
      assert u == Replace(db.schema, db.rows, db.nextKey, id, agentData);
      var row := existing.value.value.fields;
      ghost var before := row;
      var pending := agentData.Keys;
      while pending != {}
        invariant pending <= agentData.Keys
        invariant row.Keys == before.Keys
        invariant forall c :: c in row ==>
                    row[c] == if c in agentData && c !in pending then agentData[c] else before[c]
        decreases pending
      {
        var c :| c in pending;
        if c in db.schema.columns {
          row := row[c := agentData[c]];
        }
        pending := pending - {c};
      }
      assert row == Overwrite(before, agentData) by {
        forall c | c in row
          ensures row[c] == Overwrite(before, agentData)[c]
        {
        }
      }
      if !Persistable(db.schema, row) {
        // the commit fails and the exception propagates
        return Raised(StoreError);
      }
      UpsertKeepsConsistent(db.schema, db.rows, db.nextKey, agentData, fails);
      db.rows := db.rows[id := row];
      r := Ok(Record(id, row));
    } else {
      assert u == Insert(db.schema, db.rows, db.nextKey, agentData);
      if !(agentData.Keys <= db.schema.columns) {
        return Raised(TypeError);
      }
      var row := Complete(db.schema, agentData);
      if !Persistable(db.schema, row) {
        // the commit fails and the exception propagates
        return Raised(StoreError);
      }
      UpsertKeepsConsistent(db.schema, db.rows, db.nextKey, agentData, fails);
      var id := db.nextKey;
      db.rows := db.rows[id := row];
      db.nextKey := id + 1;
      r := Ok(Record(id, row));
    }
  }

  /** A key that matches, below which nothing matches, is what `first()`
      returns. */
  lemma FirstIsLeast(rows: map<Key, Row>, lo: Key, hi: Key, field: Field, v: Value, k: Key)
    requires lo <= k < hi && Matches(rows, k, field, v)
    requires forall j :: lo <= j < k ==> !Matches(rows, j, field, v)
    ensures FirstFrom(rows, lo, hi, field, v) == Some(k)
  {
  }

  /** The upsert keeps the table consistent: every key generated, every row
      accepted by the store. */
  lemma UpsertKeepsConsistent(s: Schema, rows: map<Key, Row>, next: Key, data: Row, fails: bool)
    requires Consistent(s, rows, next)
    ensures var u := Upsert(s, rows, next, data, fails);
            Consistent(s, u.rows, u.nextKey) && u.nextKey >= next
  {
  }

  /** No two agents share a name. The table declares no such constraint;
      the upsert keeps it (UpsertKeepsUniqueNames), a plain create does not. */
  predicate UniqueNames(rows: map<Key, Row>)
  {
    forall j, k ::
      (j in rows && k in rows && AgentName in rows[j] && AgentName in rows[k] &&
       rows[j][AgentName] == rows[k][AgentName]) ==> j == k
  }

  /** Registering through the upsert never creates a second agent with an
      existing name: the update branch keeps the matched row's name, the
      insert branch runs only when no row has it. */
  lemma UpsertKeepsUniqueNames(s: Schema, rows: map<Key, Row>, next: Key, data: Row, fails: bool)
    requires Consistent(s, rows, next) && UniqueNames(rows)
    ensures UniqueNames(Upsert(s, rows, next, data, fails).rows)
  {
    var u := Upsert(s, rows, next, data, fails);
    if u.result.Ok? {
      var id := u.result.value.id;
      var name := data[AgentName];
      var found := FirstFrom(rows, 0, next, AgentName, name);
      if found.None? {
        assert id == next;
        forall k | k in rows
          ensures !Matches(rows, k, AgentName, name)
        {
          assert k < next;
        }
      } else {
        assert id == found.value;
      }
      forall j, k | j in u.rows && k in u.rows && AgentName in u.rows[j] && AgentName in u.rows[k] &&
                    u.rows[j][AgentName] == u.rows[k][AgentName]
        ensures j == k
      {
        if j != id && k != id {
          assert u.rows[j] == rows[j] && u.rows[k] == rows[k];
        }
      }
    }
  }

  /** An existing agent is updated in place: no row is added, every column
      named in `data` takes its value (falsy ones included), every other
      column keeps its value. */
  lemma UpsertOverwritesExisting(s: Schema, rows: map<Key, Row>, next: Key, data: Row, k: Key)
    requires Consistent(s, rows, next) && AgentName in data
    requires FirstFrom(rows, 0, next, AgentName, data[AgentName]) == Some(k)
    requires Upsert(s, rows, next, data, false).result.Ok?
    ensures var u := Upsert(s, rows, next, data, false);
            && u.result.value.id == k
            && u.nextKey == next && u.rows.Keys == rows.Keys
            && (forall c :: c in data && c in s.columns ==> u.rows[k][c] == data[c])
            && (forall c :: c in rows[k] && c !in data ==> u.rows[k][c] == rows[k][c])
  {
  }

  /** For an existing name the upsert fails only at the commit: when the
      overwritten row is one the store accepts, it succeeds under the
      matched key. */
  lemma UpsertUpdateSucceeds(s: Schema, rows: map<Key, Row>, next: Key, data: Row, k: Key)
    requires AgentName in data
    requires FirstFrom(rows, 0, next, AgentName, data[AgentName]) == Some(k)
    requires Persistable(s, Overwrite(rows[k], data))
    ensures Upsert(s, rows, next, data, false).result == Ok(Record(k, Overwrite(rows[k], data)))
  {
  }

  /** A partial update of an existing agent succeeds whenever each supplied
      column value fits and none of them puts NULL in a NOT NULL column:
      columns not supplied keep the stored, accepted values. */
  lemma {:induction false} UpsertPartialUpdateSucceeds(s: Schema, rows: map<Key, Row>, next: Key, data: Row, k: Key)
    requires Consistent(s, rows, next) && AgentName in data
    requires FirstFrom(rows, 0, next, AgentName, data[AgentName]) == Some(k)
    requires forall c :: c in data && c in s.columns ==>
               Fits(s, c, data[c]) && (c in s.required ==> data[c] != Null)
    ensures Upsert(s, rows, next, data, false).result == Ok(Record(k, Overwrite(rows[k], data)))
  {
    var row := Overwrite(rows[k], data);
    assert Persistable(s, rows[k]);
    forall c | c in s.required
      ensures c in row && row[c] != Null
    {
    }
    forall c | c in row
      ensures Fits(s, c, row[c])
    {
    }
    UpsertUpdateSucceeds(s, rows, next, data, k);
  }

  /** With no agent of that name, exactly one row is inserted, under a fresh
      key, holding the fields of `data` and NULL elsewhere. */
  lemma UpsertInsertsWhenAbsent(s: Schema, rows: map<Key, Row>, next: Key, data: Row)
    requires Consistent(s, rows, next) && AgentName in data
    requires forall k :: k in rows ==> !Matches(rows, k, AgentName, data[AgentName])
    requires Upsert(s, rows, next, data, false).result.Ok?
    ensures var u := Upsert(s, rows, next, data, false);
            && u.result.value.id == next && next !in rows
            && data.Keys <= s.columns
            && u.result.value.fields == Complete(s, data)
            && u.rows == rows[next := Complete(s, data)]
            && u.nextKey == next + 1 && |u.rows| == |rows| + 1
  {
    var none := FirstFrom(rows, 0, next, AgentName, data[AgentName]);
    assert none.None?;
  }

  /** After a successful upsert, `get_by_name` on the same name finds the
      row the upsert returned. */
  lemma {:induction false} UpsertThenFound(s: Schema, rows: map<Key, Row>, next: Key, data: Row)
    requires Consistent(s, rows, next)
    requires Upsert(s, rows, next, data, false).result.Ok?
    ensures var u := Upsert(s, rows, next, data, false);
            FirstFrom(u.rows, 0, u.nextKey, AgentName, data[AgentName]) == Some(u.result.value.id)
    ensures var u := Upsert(s, rows, next, data, false);
            UniqueNames(rows) ==>
              forall k :: Matches(u.rows, k, AgentName, data[AgentName]) ==> k == u.result.value.id
  {
    var u := Upsert(s, rows, next, data, false);
    var name := data[AgentName];
    var id := u.result.value.id;
    var before := FirstFrom(rows, 0, next, AgentName, name);
    assert id < u.nextKey by {
      UpsertKeepsConsistent(s, rows, next, data, false);
    }
    assert before.Some? ==> id == before.value;
    assert before.None? ==> id == next;
    forall j | 0 <= j < id
      ensures !Matches(u.rows, j, AgentName, name)
    {
      assert !Matches(rows, j, AgentName, name);
      if j in rows {
        assert u.rows[j] == rows[j];
      } else {
        assert j !in u.rows;
      }
    }
    FirstIsLeast(u.rows, 0, u.nextKey, AgentName, name, id);
    if UniqueNames(rows) {
      UpsertKeepsUniqueNames(s, rows, next, data, false);
    }
  }

  /** Registering the same data twice: the second call adds no row, changes
      nothing and returns what the first call returned. */
  lemma {:induction false} UpsertIdempotent(s: Schema, rows: map<Key, Row>, next: Key, data: Row)
    requires Consistent(s, rows, next)
    requires Upsert(s, rows, next, data, false).result.Ok?
    ensures var u := Upsert(s, rows, next, data, false);
            Upsert(s, u.rows, u.nextKey, data, false) == u
  {
    var u := Upsert(s, rows, next, data, false);
    var rec := u.result.value;
    UpsertThenFound(s, rows, next, data);
    UpsertStoresSupplied(s, rows, next, data);
    OverwriteAgain(rec.fields, data);
    UpsertUpdateSucceeds(s, u.rows, u.nextKey, data, rec.id);
    assert u.rows[rec.id := rec.fields] == u.rows;
  }

  /** After a successful upsert, every supplied column holds the supplied
      value, whichever branch ran. */
  lemma UpsertStoresSupplied(s: Schema, rows: map<Key, Row>, next: Key, data: Row)
    requires Upsert(s, rows, next, data, false).result.Ok?
    ensures var rec := Upsert(s, rows, next, data, false).result.value;
            forall c :: c in data && c in rec.fields ==> rec.fields[c] == data[c]
  {
    match FirstFrom(rows, 0, next, AgentName, data[AgentName])
    case Some(k) =>
    case None =>
  }

  /** Copying the same data a second time changes nothing, provided every
      supplied column already holds the supplied value. */
  lemma OverwriteAgain(row: Row, data: Row)
    requires forall c :: c in data && c in row ==> row[c] == data[c]
    ensures Overwrite(row, data) == row
  {
  }
}
