/**
 * The unit of work a repository call receives (`db_session`), reduced to the
 * one mapped table the call works on: its rows by primary key and the next
 * key the store will generate.
 */
module Store {
  import opened Values
  import opened Models

  /** What holds of a table between calls: every row has a key the store
      has already generated and was accepted at commit. */
  predicate Consistent(s: Schema, rows: map<Key, Row>, next: Key)
  {
    WellFormed(s) && forall k :: k in rows ==> k < next && Persistable(s, rows[k])
  }

  /** Row `k` exists and its `field` holds `v` (a `filter(Model.field == v)`). */
  predicate Matches(rows: map<Key, Row>, k: Key, field: Field, v: Value)
  {
    k in rows && field in rows[k] && rows[k][field] == v
  }

  /** The first row of a query filtered on `field == v`, over the keys in [lo, hi): the
      lowest matching key, or None when no key in range matches. The store's
      order is unspecified; the model reads rows in key order. */
  function FirstFrom(rows: map<Key, Row>, lo: Key, hi: Key, field: Field, v: Value): (r: Option<Key>)
    decreases hi - lo
    ensures r.Some? ==> lo <= r.value < hi && Matches(rows, r.value, field, v)
    ensures r.Some? ==> forall k :: lo <= k < r.value ==> !Matches(rows, k, field, v)
    ensures r.None? <==> forall k :: lo <= k < hi ==> !Matches(rows, k, field, v)
  {
    if lo >= hi then None
    else if Matches(rows, lo, field, v) then Some(lo)
    else FirstFrom(rows, lo + 1, hi, field, v)
  }

  /** A query for all rows, over the keys in [lo, hi): every row once, in key
      order. */
  function ScanFrom(rows: map<Key, Row>, lo: Key, hi: Key): (r: seq<Record>)
    decreases hi - lo
    ensures forall i :: 0 <= i < |r| ==> lo <= r[i].id < hi && r[i].id in rows && r[i].fields == rows[r[i].id]
    ensures forall i, j :: 0 <= i < j < |r| ==> r[i].id < r[j].id
    ensures forall k :: lo <= k < hi && k in rows ==> Record(k, rows[k]) in r
  {
    if lo >= hi then []
    else if lo in rows then [Record(lo, rows[lo])] + ScanFrom(rows, lo + 1, hi)
    else ScanFrom(rows, lo + 1, hi)
  }

  /** The rows of one mapped table as the session sees them. */
  class Table {
    const schema: Schema
    var rows: map<Key, Row>
    var nextKey: Key

    ghost predicate Valid()
      reads this
    {
      Consistent(schema, rows, nextKey)
    }

    constructor (schema: Schema)
      requires WellFormed(schema)
      ensures Valid() && this.schema == schema
      ensures rows == map[] && nextKey == 0
    {
      this.schema := schema;
      rows := map[];
      nextKey := 0;
    }
  }
}
