/**
 * The mapped tables the repositories work on, reduced to what constrains a
 * row: its column names, the columns declared NOT NULL, and the declared
 * width of each string column. The generated primary key (AgentID, UserID)
 * is kept apart from the field map, as a Record's id.
 */
module Models {
  import opened Values

  /** The names a field map can use: the columns of Agents and Users, and
      any other name (`Other`), which is no column of either table. `Other`
      is meant to carry only names that are not columns: `Other("AgentName")`
      stands for no Python keyword, and the model would treat it as a
      non-column distinct from `AgentName`. */
  datatype Field =
    | AgentName | AgentPath | AgentClassName | Description | IsActive
    | RedisChannel | Configurations | ShowResponse | ResponseOrder
    | TriggerOn | OnError | OnSuccess | Status | StatusChangedOn
    | EmailAddress | DisplayName
    | Other(name: string)

  /** A row, or the keyword arguments of a call, as a field map. */
  type Row = map<Field, Value>

  /** A generated primary key. */
  type Key = nat

  /** A persisted entity: its primary key and its fields. */
  datatype Record = Record(id: Key, fields: Row)

  datatype Schema = Schema(
    table: string,
    columns: set<Field>,
    required: set<Field>,       // nullable=False
    widths: map<Field, nat>)    // String(n) / Unicode(n)

  predicate WellFormed(s: Schema)
  {
    s.required <= s.columns && s.widths.Keys <= s.columns
  }

  /** A string value fits its column's declared width. */
  predicate Fits(s: Schema, c: Field, v: Value)
  {
    c in s.widths && v.S? ==> |v.s| <= s.widths[c]
  }

  /** A row the store accepts at commit: one value per column, no NULL in a
      NOT NULL column, no string wider than its column. A row that breaks
      one of these makes the commit fail. */
  predicate Persistable(s: Schema, row: Row)
  {
    && row.Keys == s.columns
    && (forall c :: c in s.required ==> c in row && row[c] != Null)
    && (forall c :: c in row ==> Fits(s, c, row[c]))
  }

  /** The row read back after inserting `Model(**fields)` and refreshing it:
      the supplied fields, and NULL in every column not supplied. */
  function Complete(s: Schema, fields: Row): (row: Row)
    requires fields.Keys <= s.columns
    ensures row.Keys == s.columns
    ensures forall c :: c in fields ==> row[c] == fields[c]
    ensures forall c :: c in s.columns && c !in fields ==> row[c] == Null
  {
    map c | c in s.columns :: if c in fields then fields[c] else Null
  }

  /** The Agents table as declared, with `OnSuccess` at 10 characters. */
  const AgentDeclared: Schema := Schema("Agents",
    {AgentName, AgentPath, AgentClassName, Description, IsActive, RedisChannel,
     Configurations, ShowResponse, ResponseOrder, TriggerOn, OnError, OnSuccess,
     Status, StatusChangedOn},
    {AgentName, AgentPath, AgentClassName, IsActive, RedisChannel, ShowResponse,
     ResponseOrder},
    map[AgentName := 256, AgentPath := 512, AgentClassName := 128,
        Description := 512, RedisChannel := 64, Configurations := 2048,
        TriggerOn := 2048, OnError := 2048, OnSuccess := 10, Status := 256])

  /** The Agents table with `OnSuccess` as wide as its sibling policy columns
      `TriggerOn` and `OnError`; the rest of the model uses this one. */
  const Agent: Schema := AgentDeclared.(widths := AgentDeclared.widths[OnSuccess := 2048])

  const User: Schema := Schema("Users", {EmailAddress, DisplayName}, {EmailAddress},
    map[EmailAddress := 255, DisplayName := 512])

  /** The two Agents schemas differ only in the width of `OnSuccess`. */
  lemma AgentSchemasAgree()
    ensures WellFormed(AgentDeclared) && WellFormed(Agent) && WellFormed(User)
    ensures Agent.columns == AgentDeclared.columns && Agent.required == AgentDeclared.required
    ensures forall c :: c in Agent.widths && c != OnSuccess ==> c in AgentDeclared.widths && Agent.widths[c] == AgentDeclared.widths[c]
    ensures AgentDeclared.widths[OnSuccess] == 10 && Agent.widths[OnSuccess] == 2048
  {
  }
}
