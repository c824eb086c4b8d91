/**
 * `AgentManager`: builds the aggregation agent's record with fixed defaults,
 * names it, and registers it through the Agent repository's upsert. The
 * manager's `agent` is held as the map of the attributes assigned on it;
 * `agentId` is its AgentID, None until the record has been registered.
 */
module Managers {
  import opened Values
  import opened Models
  import opened Store
  import opened AgentRepository

  const DefaultName := "Agent Name"
  const AggregationPath := "src/aggregator_agent/aggregation.py"
  const AggregationClass := "aggregation"
  const AggregationChannel := "AGGREGATION_CHANNEL"
  const AggregationName := "Aggregation Agent"
  const AggregationDescription := "Aggregation Agent, this will access relevant APIs and return the response and store it accordingly"
  const AggregationConfigurations := "{\"APIs\": [\"Articles\", \"StockPrices\", \"FinancialRatios\", \"FinancialStatements\"]}"
  const TriggerOnPolicy := "{\"InitiatedBy\": [\"Argaam Wizard\"], \"Action\": [\"Start\", \"Stop\"]}"
  const OnErrorPolicy := "{\"Notify\": [\"Redis\", \"Alerta\"], \"Action\": [\"Retry\", \"Stop\"]}"
  const OnSuccessPolicy := "{\"Notify\": [\"Redis\"], \"Action\": [\"SaveResponse\", \"Stop\"]}"

  /** The row `configure_agent` leaves: the twelve fields it assigns set to
      the aggregation agent's defaults, every other field as it was. */
  function Configure(row: Row): Row
  {
    row[AgentName := S(AggregationName)]
       [AgentPath := S(AggregationPath)]
       [AgentClassName := S(AggregationClass)]
       [Description := S(AggregationDescription)]
       [IsActive := B(true)]
       [RedisChannel := S(AggregationChannel)]
       [Configurations := S(AggregationConfigurations)]
       [ShowResponse := B(true)]
       [ResponseOrder := I(0)]
       [TriggerOn := S(TriggerOnPolicy)]
       [OnError := S(OnErrorPolicy)]
       [OnSuccess := S(OnSuccessPolicy)]
  }

  /** The attributes assigned on the record `AgentManager(name)` holds: the
      defaults, named `name`. A fresh `Agent()` has none assigned, so Status
      and StatusChangedOn are not among them. */
  function ConfiguredAgent(name: string): Row
  {
    Configure(map[])[AgentName := S(name)]
  }

  class AgentManager {
    var agent: Row
    var agentId: Option<Key>

    /** `__init__`: an Agent with no attribute assigned, configured, then
        named `agentName`; the name set by `configure_agent` is overridden. */
    constructor (agentName: string := DefaultName)
      ensures agent == ConfiguredAgent(agentName) && agentId == None
      ensures agent.Keys == Agent.columns - {Status, StatusChangedOn}
      ensures agent[AgentName] == S(agentName)
      ensures agent[IsActive] == B(true) && agent[ShowResponse] == B(true) && agent[ResponseOrder] == I(0)
      ensures agent[AgentPath] == S(AggregationPath) && agent[AgentClassName] == S(AggregationClass)
      ensures agent[RedisChannel] == S(AggregationChannel)
    {
      agent := map[];
      agentId := None;
      new;
      ConfigureAgent();
      agent := agent[AgentName := S(agentName)];
      ConfiguredAgentColumns(agentName);
    }

    /** `configure_agent`: assigns the twelve default fields one by one and
        leaves every other field as it was. */
    method ConfigureAgent()
      modifies this
      ensures agent == Configure(old(agent))
      ensures agentId == old(agentId)
    {
      agent := agent[AgentName := S(AggregationName)];
      agent := agent[AgentPath := S(AggregationPath)];
      agent := agent[AgentClassName := S(AggregationClass)];
      agent := agent[Description := S(AggregationDescription)];
      agent := agent[IsActive := B(true)];
      agent := agent[RedisChannel := S(AggregationChannel)];
      agent := agent[Configurations := S(AggregationConfigurations)];
      agent := agent[ShowResponse := B(true)];
      agent := agent[ResponseOrder := I(0)];
      agent := agent[TriggerOn := S(TriggerOnPolicy)];
      agent := agent[OnError := S(OnErrorPolicy)];
      agent := agent[OnSuccess := S(OnSuccessPolicy)];
    }

    /** `initialize_refresh_agent`: registers `agent` through the upsert and
        replaces it with the row the upsert returns. An exception from the
        upsert propagates and leaves the manager as it was. */
    method InitializeRefreshAgent(db: Table, fails: bool) returns (raised: Option<Error>)
      requires db.Valid() && db.schema.table == "Agents"
      modifies this, db
      ensures db.Valid()
      ensures var u := Upsert(db.schema, old(db.rows), old(db.nextKey), old(agent), fails);
              && db.rows == u.rows && db.nextKey == u.nextKey
              && (u.result.Ok? ==> raised == None && agent == u.result.value.fields && agentId == Some(u.result.value.id))
              && (u.result.Raised? ==> raised == Some(u.result.error) && agent == old(agent) && agentId == old(agentId))
      ensures raised.None? ==>
                && AgentName in old(agent) && AgentName in agent
                && agent[AgentName] == old(agent)[AgentName]
                && agentId.Some? && agentId.value in db.rows && db.rows[agentId.value] == agent
    {
      var r := RegisterOrUpdateAgent(db, agent, fails);
      match r
      case Ok(rec) =>
        agent := rec.fields;
        agentId := Some(rec.id);
        raised := None;
      case Raised(e) =>
        raised := Some(e);
    }
  }

  /** A record, possibly partial, whose every value the store accepts in its
      column, and which gives every NOT NULL column a non-NULL value. */
  predicate Acceptable(s: Schema, data: Row)
  {
    && data.Keys <= s.columns
    && (forall c :: c in s.required ==> c in data && data[c] != Null)
    && (forall c :: c in data ==> Fits(s, c, data[c]))
  }

  /** The configured record names every Agents column but Status and
      StatusChangedOn, which neither `__init__` nor `configure_agent`
      assigns. */
  lemma ConfiguredAgentColumns(name: string)
    ensures ConfiguredAgent(name).Keys == Agent.columns - {Status, StatusChangedOn}
  {
  }

  /** Every value of the configured record fits its column of the Agents
      table as corrected, for any name within AgentName's 256 characters. */
  lemma ConfiguredAgentFits(name: string)
    requires |name| <= 256
    ensures forall c :: c in ConfiguredAgent(name) ==> Fits(Agent, c, ConfiguredAgent(name)[c])
  {
    var row := ConfiguredAgent(name);
    assert |AggregationDescription| <= 512 && |AggregationConfigurations| <= 2048;
    assert |TriggerOnPolicy| <= 2048 && |OnErrorPolicy| <= 2048 && |OnSuccessPolicy| <= 2048;
    forall c | c in row
      ensures Fits(Agent, c, row[c])
    {
    }
  }

  /** The configured record gives every NOT NULL column of the Agents table
      a non-NULL value. */
  lemma ConfiguredAgentRequired(name: string)
    ensures forall c :: c in Agent.required ==> c in ConfiguredAgent(name) && ConfiguredAgent(name)[c] != Null
  {
    var row := ConfiguredAgent(name);
    forall c | c in Agent.required
      ensures c in row && row[c] != Null
    {
    }
  }

  /** The configured record is acceptable to the Agents table as corrected,
      for any name within AgentName's 256 characters. */
  lemma ConfiguredAgentAcceptable(name: string)
    requires |name| <= 256
    ensures Acceptable(Agent, ConfiguredAgent(name))
  {
    ConfiguredAgentColumns(name);
    ConfiguredAgentRequired(name);
    ConfiguredAgentFits(name);
  }

  /** With `OnSuccess` declared 10 characters wide, the configured record's
      OnSuccess policy does not fit, whatever its name. */
  lemma ConfiguredAgentTooWideAsDeclared(name: string)
    ensures |OnSuccessPolicy| > 10
    ensures OnSuccess in ConfiguredAgent(name)
    ensures !Fits(AgentDeclared, OnSuccess, ConfiguredAgent(name)[OnSuccess])
    ensures !Acceptable(AgentDeclared, ConfiguredAgent(name))
  {
  }

  /** Registering an acceptable record always succeeds with a working store.
      Every supplied field is stored as given. A column not supplied keeps the
      existing agent's value on an update and is NULL on an insert. */
  lemma {:induction false} RegisterAcceptable(s: Schema, rows: map<Key, Row>, next: Key, data: Row)
    requires Consistent(s, rows, next) && Acceptable(s, data) && AgentName in data
    ensures var u := Upsert(s, rows, next, data, false);
            var found := FirstFrom(rows, 0, next, AgentName, data[AgentName]);
            && u.result.Ok?
            && (forall c :: c in data ==> u.result.value.fields[c] == data[c])
            && (forall c :: c in s.columns && c !in data ==>
                  u.result.value.fields[c] == if found.Some? then rows[found.value][c] else Null)
  {
    match FirstFrom(rows, 0, next, AgentName, data[AgentName])
    case Some(k) =>
      var row := Overwrite(rows[k], data);
      assert Persistable(s, rows[k]);
      forall c | c in s.required
        ensures c in row && row[c] != Null
      {
      }
      forall c | c in row
        ensures Fits(s, c, row[c])
      {
      }
      assert Persistable(s, row);
    case None =>
      var row := Complete(s, data);
      forall c | c in s.required
        ensures c in row && row[c] != Null
      {
      }
      forall c | c in row
        ensures Fits(s, c, row[c])
      {
      }
      assert Persistable(s, row);
  }

  /** Registering a record with a value too wide for its column always
      raises at the commit, whether the agent exists or not: both branches
      copy that value into the row. */
  lemma {:induction false} RegisterUnfitting(s: Schema, rows: map<Key, Row>, next: Key, data: Row, c: Field)
    requires Consistent(s, rows, next) && data.Keys <= s.columns && AgentName in data
    requires c in data && !Fits(s, c, data[c])
    ensures Upsert(s, rows, next, data, false).result == Raised(StoreError)
  {
    match FirstFrom(rows, 0, next, AgentName, data[AgentName])
    case Some(k) =>
      assert Persistable(s, rows[k]);
      ReplaceUnfitting(s, rows, next, k, data, c);
    case None =>
      InsertUnfitting(s, rows, next, data, c);
  }

  /** The update branch copies the unfitting value, so its commit raises. */
  lemma ReplaceUnfitting(s: Schema, rows: map<Key, Row>, next: Key, k: Key, data: Row, c: Field)
    requires k in rows && c in rows[k] && c in data && !Fits(s, c, data[c])
    ensures Replace(s, rows, next, k, data).result == Raised(StoreError)
  {
    var row := Overwrite(rows[k], data);
    assert !Fits(s, c, row[c]);
  }

  /** The insert branch stores the unfitting value, so its commit raises. */
  lemma InsertUnfitting(s: Schema, rows: map<Key, Row>, next: Key, data: Row, c: Field)
    requires data.Keys <= s.columns && c in data && !Fits(s, c, data[c])
    ensures Insert(s, rows, next, data).result == Raised(StoreError)
  {
    var row := Complete(s, data);
    assert !Fits(s, c, row[c]);
  }

  /** With a working store, the manager's configured record always
      registers on the corrected Agents table, under its own name. When an
      agent of that name exists, its Status and StatusChangedOn are kept. */
  lemma RegistrationSucceeds(rows: map<Key, Row>, next: Key, name: string)
    requires Consistent(Agent, rows, next) && |name| <= 256
    ensures var u := Upsert(Agent, rows, next, ConfiguredAgent(name), false);
            var found := FirstFrom(rows, 0, next, AgentName, S(name));
            && u.result.Ok?
            && (forall c :: c in ConfiguredAgent(name) ==> u.result.value.fields[c] == ConfiguredAgent(name)[c])
            && (found.Some? ==>
                  && u.result.value.fields[Status] == rows[found.value][Status]
                  && u.result.value.fields[StatusChangedOn] == rows[found.value][StatusChangedOn])
  {
    var data := ConfiguredAgent(name);
    ConfiguredAgentAcceptable(name);
    ConfiguredAgentColumns(name);
    assert data[AgentName] == S(name);
    RegisterAcceptable(Agent, rows, next, data);
  }

  /** On the Agents table as declared, registering the manager's configured
      record always raises, even with a working store: its OnSuccess value
      does not fit the column. */
  lemma RegistrationFailsAsDeclared(rows: map<Key, Row>, next: Key, name: string)
    requires Consistent(AgentDeclared, rows, next)
    ensures Upsert(AgentDeclared, rows, next, ConfiguredAgent(name), false).result == Raised(StoreError)
  {
    ConfiguredAgentTooWideAsDeclared(name);
    assert ConfiguredAgent(name).Keys <= AgentDeclared.columns;
    RegisterUnfitting(AgentDeclared, rows, next, ConfiguredAgent(name), OnSuccess);
  }
}
