# wizard_dal repository layer in Dafny

This project models the data-access core of `wizard_dal`:

- the generic `BaseRepository`: lookup by id, list all, create, partial update and delete;
- the User repository's lookup by email address;
- the Agent repository's lookup by name, and `register_or_update_agent`, an upsert keyed on `AgentName`;
- `AgentManager`, which builds the aggregation agent's record and registers it.

The database session is reduced to one in-memory table per call, `Store.Table`. It holds rows by generated primary key and the next key the store will hand out. A row is a field map from column name to value. `Values.Value` holds `None`, booleans, integers, strings and timestamps, and `Values.Truthy` follows Python's truthiness.

The tables' shapes come from the mapped classes Agent and User. Each table has its columns, its NOT NULL columns and the declared width of each string column. A row the store accepts at commit is `Models.Persistable`.

A store failure is a `fails` parameter: a lost connection, or a statement or commit that errs. The generic operations catch it. They roll back, so the table is unchanged, and return None, an empty list or nothing. `get_by_email`, `get_by_name` and the upsert do not catch it, and the model returns `Raised(StoreError)` with the table unchanged. A commit that breaks a NOT NULL or width constraint is a store failure of the same kind. Constructing a mapped class with a keyword that is not one of its columns raises `TypeError`. `except SQLAlchemyError` does not catch that, so `create` lets it escape.

`Table` is a class holding the rows and the next key; it has only a constructor. The repository operations are module-level methods that take a `db: Table` and update its fields. `AgentManager` is a class whose methods update its own fields. `update` and the upsert copy fields in a loop, as the source does. Each of these methods is proved against a specification function (`ApplyTruthy`, `Upsert`, `Configure`); the other operations carry direct contracts. The lemmas about those functions state what holds over several calls.

The update branch of the upsert copies every supplied field onto the existing row, falsy values included (wizard_dal/AgentRepository.py:25-26). It is not a no-op refresh.

## Model

| member | source | states |
|---|---|---|
| Values.FalsyIsPythonFalsy | wizard_dal/repository.py:60 | a value is falsy exactly when it is None, False, 0 or "" |
| Models.Complete | wizard_dal/repository.py:46 | the row built from a field map holds every supplied field and NULL in every column not supplied |
| Models.AgentSchemasAgree | wizard_dal/models.py:27-44 | the Agents table as declared and as corrected differ only in the width of OnSuccess (10 against 2048) |
| Store.FirstFrom | wizard_dal/repository.py:88 | the first-row query returns a matching key below which no key matches, and None exactly when no key in range matches |
| Store.ScanFrom | wizard_dal/repository.py:37 | the all-rows query returns every row in range exactly once, in key order, each with its stored fields |
| Repository.GetById | wizard_dal/repository.py:26-33 | returns the row whose key is the argument, None when there is none, and None on a store failure |
| Repository.GetAll | wizard_dal/repository.py:35-42 | returns exactly the table's rows, each once, or [] on a store failure |
| Repository.Create | wizard_dal/repository.py:44-55 | on success adds exactly one row, under a fresh key, holding obj_in's fields, and returns it; an unknown field raises TypeError; a store failure or a rejected row rolls back and returns None; the other rows never change |
| Repository.Update | wizard_dal/repository.py:57-68 | on success the row becomes ApplyTruthy of its old value and the other rows are untouched; an absent row, a store failure or a rejected row rolls back and returns None |
| Repository.Delete | wizard_dal/repository.py:70-79 | a present key loses exactly its row; an absent key or a store failure leaves the table unchanged |
| Repository.GetByEmail | wizard_dal/repository.py:87-88 | returns the first user whose EmailAddress is the argument, or None exactly when no user has it; a store failure is raised, not caught |
| Repository.UpdateSkipsFalsy | wizard_dal/repository.py:59-60 | a truthy patch value overwrites its column; a falsy or absent one leaves the stored value; no column is added |
| Repository.UpdateCannotClear | wizard_dal/repository.py:59-60 | update can never turn a truthy field into None, False, 0 or "" |
| Repository.UpdateIdempotent | wizard_dal/repository.py:59-60 | updating twice with the same fields gives the same row as updating once |
| AgentRepository.GetByName | wizard_dal/AgentRepository.py:11-12 | returns the first agent whose AgentName is the argument, or None exactly when no agent has it; a store failure is raised |
| AgentRepository.Upsert | wizard_dal/AgentRepository.py:14-36 | KeyError is raised exactly when AgentName is missing, and a failed lookup raises StoreError; a raise leaves the table unchanged; success returns the stored row, which carries the requested name, adds at most that one key, and leaves every other row as it was |
| AgentRepository.Replace | wizard_dal/AgentRepository.py:23-29 | the update branch succeeds exactly when the overwritten row is one the store accepts, storing and returning it under the same key; otherwise it raises StoreError with the table unchanged |
| AgentRepository.Insert | wizard_dal/AgentRepository.py:30-36 | the insert branch raises TypeError exactly when agent_data names a non-column, and succeeds exactly when the completed row is one the store accepts, storing it under the next key; otherwise it raises StoreError; a raise leaves the table unchanged |
| AgentRepository.RegisterOrUpdateAgent | wizard_dal/AgentRepository.py:14-36 | the step-by-step upsert returns what Upsert returns and leaves the table Upsert describes, keeping the table consistent |
| AgentRepository.FirstIsLeast | wizard_dal/AgentRepository.py:12 | a matching key with no match below it is the one the first-row query returns |
| AgentRepository.UpsertKeepsConsistent | wizard_dal/AgentRepository.py:22-36 | after the upsert every key is one the store has generated and every row is one the store accepts |
| AgentRepository.UpsertOverwritesExisting | wizard_dal/AgentRepository.py:22-29 | for an existing name, no row is added; every column named in agent_data takes its value, falsy ones included; every other column keeps its value |
| AgentRepository.UpsertInsertsWhenAbsent | wizard_dal/AgentRepository.py:30-36 | for a new name, exactly one row is inserted under a fresh key, holding agent_data's fields and NULL elsewhere, and is returned |
| AgentRepository.UpsertKeepsUniqueNames | wizard_dal/AgentRepository.py:22-36 | when no two agents share a name, none do after the upsert: the update branch keeps the matched name, the insert branch runs only when the name is absent |
| AgentRepository.UpsertUpdateSucceeds | wizard_dal/AgentRepository.py:23-29 | for an existing name, the upsert succeeds under the matched key whenever the overwritten row is one the store accepts |
| AgentRepository.UpsertPartialUpdateSucceeds | wizard_dal/AgentRepository.py:23-29 | a partial update of an existing agent succeeds whenever every supplied column value fits and none puts NULL in a NOT NULL column |
| AgentRepository.UpsertThenFound | wizard_dal/AgentRepository.py:22-36 | after a successful upsert, looking up the same name finds the row the upsert returned; when names were unique, it is the only row with that name |
| AgentRepository.UpsertIdempotent | wizard_dal/AgentRepository.py:22-29 | a second upsert with the same data adds no row, changes nothing and returns the same row |
| AgentRepository.UpsertStoresSupplied | wizard_dal/AgentRepository.py:22-36 | after a successful upsert every supplied column holds the supplied value, in either branch |
| AgentRepository.OverwriteAgain | wizard_dal/AgentRepository.py:25-26 | copying fields a row already holds changes nothing |
| Managers.AgentManager.constructor | wizard_dal/managers.py:5-8 | the agent carries the constructor's name ("Agent Name" when none is given), not "Aggregation Agent"; it is active, shows responses, has response order 0, the aggregation path, class name and channel; Status and StatusChangedOn are not among its assigned attributes; it has no id yet |
| Managers.AgentManager.ConfigureAgent | wizard_dal/managers.py:14-26 | the agent becomes Configure of its old value, which sets the twelve default fields and leaves the others |
| Managers.AgentManager.InitializeRefreshAgent | wizard_dal/managers.py:28-31 | the table changes as the upsert says; on success the agent and its id become the returned row, whose name is the one registered; on a raise the manager is unchanged |
| Managers.ConfiguredAgentColumns | wizard_dal/managers.py:5-26 | the configured record assigns every Agents column except Status and StatusChangedOn |
| Managers.ConfiguredAgentFits | wizard_dal/managers.py:14-26 | with a name of at most 256 characters, every value of the configured record fits its column of the corrected Agents table |
| Managers.ConfiguredAgentRequired | wizard_dal/managers.py:14-26 | the configured record gives every NOT NULL Agents column a non-NULL value |
| Managers.ConfiguredAgentAcceptable | wizard_dal/managers.py:14-26 | with a name of at most 256 characters, the configured record names only Agents columns, fills every NOT NULL one and fits every width |
| Managers.ConfiguredAgentTooWideAsDeclared | wizard_dal/models.py:42 | the configured OnSuccess policy is longer than 10 characters, so it does not fit the declared column and the record is not acceptable, whatever its name |
| Managers.RegisterAcceptable | wizard_dal/AgentRepository.py:22-36 | with a working store, upserting an acceptable record succeeds; every supplied field is stored as given; a column not supplied keeps the existing agent's value on an update and is NULL on an insert |
| Managers.RegisterUnfitting | wizard_dal/AgentRepository.py:22-36 | upserting a record with a value too wide for its column raises at the commit, whether the name exists or not |
| Managers.ReplaceUnfitting | wizard_dal/AgentRepository.py:25-27 | the update branch copies a too-wide value into the row, so its commit raises |
| Managers.InsertUnfitting | wizard_dal/AgentRepository.py:32-34 | the insert branch stores a too-wide value, so its commit raises |
| Managers.RegistrationSucceeds | wizard_dal/managers.py:28-31 | with a working store, the manager's record always registers on the corrected Agents table; every assigned field is stored as built, and an existing agent's Status and StatusChangedOn are kept |
| Managers.RegistrationFailsAsDeclared | wizard_dal/managers.py:28-31 | on the Agents table as declared, registering the manager's record always raises, even with a working store |

## Findings

| source | as written | input that shows it | evidently intended | confidence | as-written member | corrected member |
|---|---|---|---|---|---|---|
| wizard_dal/models.py:42 | `OnSuccess` is declared `Unicode(10)`, but the manager's default OnSuccess policy (wizard_dal/managers.py:26) is 57 characters long | `AgentManager()` followed by `initialize_refresh_agent()`, on any table built from this declaration: the commit raises, whether the name is new or already stored | `OnSuccess` as wide as the sibling policy columns `TriggerOn` and `OnError` (2048) | medium, not executed; holds when the Agents table was created from this declaration and the server rejects over-long strings | Managers.RegistrationFailsAsDeclared | Managers.RegistrationSucceeds |

## Left out

- Engine and session construction: the connection string from environment variables and the engine and session factory built at import time (wizard_dal/repository.py:9-17, wizard_dal/models.py:14-23). Each operation takes the session's table as a parameter.
- SQLAlchemy itself: query building, `commit`, `refresh`, `echo`, and relationships between the mapped classes. They become operations on the in-memory table.
- The `print` diagnostics in the `except` branches: logging only.
- Column types: a value of the wrong type in a column (a string in a Boolean column, say) is not checked. Only NOT NULL and string widths are.
- Primary keys are generated as 0, 1, 2, … in insertion order. Keys consumed by rolled-back inserts are not skipped.
- Keyword names the mapped classes accept that are not modelled columns: the primary key (`AgentID`, `UserID`) and relationship names such as `conversation_responses`. The model treats them as `Other` names. `Create` and the upsert's insert branch raise TypeError for them, where SQLAlchemy would accept them. The update branches drop them.
- The store's row order is unspecified, since no query has an ORDER BY. A first-row query returns the lowest matching key, and the all-rows query returns rows in ascending key order.
- AgentRepository.UpsertThenFound, AgentRepository.UpsertIdempotent: when two agents share a name (a plain `create` can store such a pair; the table has no unique constraint), these hold because the lookup picks the lowest key. Under another order of `first()` they need `UniqueNames`, which the upsert keeps (`UpsertKeepsUniqueNames`); under it the matched agent is the only one with that name.
- String comparison and width: a filter on AgentName or EmailAddress compares strings exactly. SQL Server's default collation ignores case and trailing spaces, so the server can match rows the model does not. Widths count Dafny characters, not UTF-16 code units or bytes.
- Integers are unbounded. The source's Integer columns (AgentID, ResponseOrder) are 32-bit on SQL Server, and out-of-range values are not modelled.
- Repository.GetById: looks rows up by primary key. The source filters on `self.model.id`, which only Company and ConversationData define. For Agent or User that access raises AttributeError, which `except SQLAlchemyError` does not catch. That error is not modelled.
- Repository.Update: takes the object's primary key rather than the ORM object. Stale attribute values held by the object are not modelled. `obj_in` is a plain field map, not the attributes `vars()` would also list (the ORM's instance state). A non-column name in `obj_in` is dropped: the model does not show it as a plain attribute on the returned object.
- AgentRepository.RegisterOrUpdateAgent: `fails` makes the first store round trip, the lookup, raise. A later commit failure caused by the connection, rather than by a rejected row, is not modelled separately. After a failed commit, the session still has to be rolled back before it can be used again; that state is not modelled. A non-column name in `agent_data` is dropped from the stored row in the update branch.
- The check-then-act race between concurrent upserts of the same name: concurrency is out of scope, and the upsert is one sequential call.
- `AgentManager.get_db_session` and `update_status` (wizard_dal/managers.py:10-12, 33-36) call `get_session` and `update_agent_status`, which no shown class defines. `get_session` is replaced by a table parameter of `InitializeRefreshAgent`.
- The import of `AgentRepository` from `.repository` (wizard_dal/managers.py:2), where it is not defined. The model imports the Agent repository module directly.
- `initialize_refresh_agent` passes an Agent object where the upsert subscripts a dictionary. The model passes the map of the attributes assigned on it: the twelve set by `configure_agent`, the name overridden by the constructor. Status and StatusChangedOn are never assigned, so an update keeps the stored values.
- setup.py and wizard_dal/__init__.py: packaging and re-exports.
- No conversation repository, serialization helper or aggregation manager exists in the source, so none is modelled.
