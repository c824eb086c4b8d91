/**
 * Field values as the ORM hands them to Python code, and the outcomes of
 * repository calls.
 */
module Values {

  /** A column value: SQL NULL (Python `None`), a boolean, an integer, a
      string, or a timestamp (a `datetime`, here a count of ticks). */
  datatype Value = Null | B(b: bool) | I(i: int) | S(s: string) | Time(ticks: int)

  /** Python truthiness of a column value: `None`, `False`, `0` and `""` are
      falsy; every other value, and every `datetime`, is truthy. */
  predicate Truthy(v: Value)
  {
    match v
    case Null => false
    case B(b) => b
    case I(i) => i != 0
    case S(s) => s != ""
    case Time(_) => true
  }

  /** The falsy values are exactly Python's four falsy constants. */
  lemma FalsyIsPythonFalsy(v: Value)
    ensures !Truthy(v) <==> v == Null || v == B(false) || v == I(0) || v == S("")
  {
  }

  datatype Option<T> = None | Some(value: T)

  /** The exceptions that escape a repository call. */
  datatype Error =
    | StoreError   // an SQLAlchemyError: failed query, failed commit, violated constraint
    | KeyError     // a dictionary subscript on a missing key
    | TypeError    // a mapped class constructed with a keyword it has no column for

  /** What a call that does not catch errors hands back: a value, or the
      exception it raises to its caller. */
  datatype Result<T> = Ok(value: T) | Raised(error: Error)
}
