# SQL statement builder — a Dafny model

This project models `SQLQuery`, the statement builder of
`pkg/db/sqlComponents/sqlQuery.go`. The builder is bound to one table. It
discovers the table's columns into a column registry: a map from column name
to a "selected" flag. Callers then select columns and attach filters. Each
filter holds a column, a comparison operator, a value and a logical link.
Finally the builder renders

    <VERB> <column part>FROM <table> WHERE <filter clause>;

The builder is a Dafny class, `SqlComponents.SqlQuery`. Its fields are the
same as the Go struct's: `dbName`, `tableName`, `queryType`, `columnsName`
(a `map<string, bool>`) and `filterExpressions` (a `seq<SqlFilter>`). The
methods that change state (`Init`, `AddColumn`, `AddFilter`) say exactly what
the new registry or filter sequence is, in terms of the old one. The
renderers (`GetFilterExpressions`, `GetSQLQuery`) are loops proved against
specification functions in module `QuerySpec`. The lemmas in `QuerySpec` then
state what the source promises about those functions.

Files:

- `db_errors.dfy` (`DbErrors`): the error kinds. `Outcome` stands for a Go
  `error` (`Pass` is `nil`); `Result<T>` stands for a `(T, error)` pair.
- `sql_types.dfy` (`SqlTypes`): the statement kind, the comparison operator,
  the link, and their validity checks and tokens.
- `sql_filter.dfy` (`SqlFilters`): the filter record and its expression.
- `query_spec.dfy` (`QuerySpec`): specification functions and lemmas.
- `sql_query.dfy` (`SqlComponents`): the builder class.
- `scenarios.dfy` (`Scenarios`): worked examples. `LinkPlacementExample`
  renders the clause of two concrete filters with `FilterClause`.
  `PeopleBuilder` and `PeopleQuery` build and render a SELECT on `people`.
  `RefusedFilter` shows two refused filters and a DELETE without filters. The
  assertions in the three methods follow from the builder's contracts.

Behaviour of the code that the model keeps:

- `Init` resets the registry only after the discovery call has succeeded. A
  row that cannot be scanned ends `Init` with the names read so far still in
  the registry; nothing is rolled back. `Init` never stores its `dbName` or
  `tableName` arguments in the builder. The table name is used only for the
  lookup and for the `TableNotExist` error.
- A filter's own link joins it to the filter BEFORE it. The first filter's
  link never appears (`FirstLinkIgnored`, `FilterClauseAppend`).
- With no filters the statement ends in the literal `WHERE ;`
  (`EmptyClauseStatement`, scenario `RefusedFilter`). A SELECT with no selected
  column and no `ALL_COLUMNS` renders `SELECT  FROM …` (`NoColumnList`). An
  UPDATE renders no column part (`UPDATE FROM …`). All three are reproduced,
  not corrected.
- The `ALL_COLUMNS` sentinel is an ordinary registry key. `AddColumn` can
  select it only when discovery reported a column of that name.
- `GetSQLQuery` renders the verb first (sqlQuery.go:85-88) and returns its
  error. The switch's default branch (sqlQuery.go:115-117) returns an
  `InvalidTypeError{"SQLTitle", …}` for any other kind. The model assumes that
  rendering the verb already fails for every kind outside SELECT, UPDATE and
  DELETE, so that branch is never reached in the model (see "## Left out").

## Model

| member | source | states |
|---|---|---|
| `SqlComponents.SqlQuery.constructor` | pkg/db/sqlComponents/sqlQuery.go:13-19 | a builder bound to a table and a statement kind starts with an empty registry and no filters |
| `SqlComponents.SqlQuery.Init` | pkg/db/sqlComponents/sqlQuery.go:21-44 | a failed discovery call returns `SchemaLookupFailed` and leaves the registry as it was; otherwise the registry becomes `Registry` of the names read before the first unreadable row; the result is `RecordReadFailed` if some row could not be read, `TableNotExist(tableName)` if no name was read, and success otherwise |
| `SqlComponents.SqlQuery.AddColumn` | pkg/db/sqlComponents/sqlQuery.go:46-52 | a known column is selected, with no error (the new registry is `MarkSelected` of the old one); an unknown name returns `ValueNotExist(name, "ColumnsName")` and leaves the registry unchanged |
| `SqlComponents.SqlQuery.AddFilter` | pkg/db/sqlComponents/sqlQuery.go:54-65 | an invalid operator returns the operator's error, even when the column is also unknown; a valid operator with an unknown column returns `ValueNotExist`; both leave the filters unchanged; otherwise the filter is appended at the end and nothing else changes; filters whose operators are all valid stay so |
| `SqlComponents.SqlQuery.GetFilterExpressions` | pkg/db/sqlComponents/sqlQuery.go:67-82 | the loop returns exactly `FilterClause` of the filter sequence: `""` for no filters, the first failure's error, or the linked expressions |
| `SqlComponents.SqlQuery.SelectedColumnList` | pkg/db/sqlComponents/sqlQuery.go:96-107 | visiting the registry in an unspecified order, the loop emits every selected column exactly once and no other, joined by `", "` |
| `SqlComponents.SqlQuery.GetSQLQuery` | pkg/db/sqlComponents/sqlQuery.go:84-127 | the verb's error comes first, then the filter clause's; otherwise the text is the verb, a space, the column part (`"* "` when `ALL_COLUMNS` is selected, else the selected columns each once plus a space, and nothing for DELETE and UPDATE), then `FROM <table> WHERE <clause>;` |
| `QuerySpec.NamesRead` | pkg/db/sqlComponents/sqlQuery.go:30-36 | the names scanned before the first unreadable row: every one comes from a readable row in order, and the row after them, if any, is unreadable |
| `QuerySpec.Registry` | pkg/db/sqlComponents/sqlQuery.go:28-37 | inserting the discovered names one by one gives a map whose keys are exactly the set of names and whose every flag is false |
| `QuerySpec.RegistryEmpty` | pkg/db/sqlComponents/sqlQuery.go:40-42 | the registry is empty exactly when no name was discovered, so the empty-table check fires exactly then |
| `QuerySpec.MarkSelected` | pkg/db/sqlComponents/sqlQuery.go:47-48 | selecting a known column keeps the key set, sets that column's flag and leaves every other flag unchanged |
| `QuerySpec.MarkSelectedIdempotent` | pkg/db/sqlComponents/sqlQuery.go:46-50 | selecting a column twice gives the same registry as selecting it once |
| `QuerySpec.MarkSelectedCommutes` | pkg/db/sqlComponents/sqlQuery.go:46-50 | the order of two column selections does not matter |
| `QuerySpec.FilterClauseAppend` | pkg/db/sqlComponents/sqlQuery.go:74-79 | appending a filter to a non-empty sequence extends the clause by a space, the NEW filter's own link token, a space and its expression; an earlier failure still wins |
| `QuerySpec.FirstLinkIgnored` | pkg/db/sqlComponents/sqlQuery.go:74-76 | the link stored on the first filter has no effect on the clause |
| `QuerySpec.FilterClauseSucceeds` | pkg/db/sqlComponents/sqlQuery.go:69-73 | the clause renders exactly when every filter's operator is valid; so filters attached through `AddFilter` always render |
| `QuerySpec.FilterClauseFirstError` | pkg/db/sqlComponents/sqlQuery.go:69-73 | when some expression fails, the clause fails with the error of the first failing filter |
| `QuerySpec.EnumerationSize` | pkg/db/sqlComponents/sqlQuery.go:97-107 | a listing of the selected columns without repeats has exactly as many entries as there are selected columns |
| `QuerySpec.SingleColumnList` | pkg/db/sqlComponents/sqlQuery.go:96-107 | with exactly one selected column the column list is that column, whatever the map order |
| `QuerySpec.TwoColumnList` | pkg/db/sqlComponents/sqlQuery.go:96-107 | with two selected columns the list is `a, b` or `b, a` |
| `QuerySpec.NoColumnList` | pkg/db/sqlComponents/sqlQuery.go:96-108 | with no selected column the list is empty, so only the trailing space is emitted |
| `QuerySpec.StatementShape` | pkg/db/sqlComponents/sqlQuery.go:89-125 | a rendered statement starts with the verb and a space and ends with `FROM <table> WHERE <clause>;` |
| `QuerySpec.EmptyClauseStatement` | pkg/db/sqlComponents/sqlQuery.go:120-125 | with an empty filter clause the statement ends in the literal `WHERE ;` |
| `Scenarios.LinkPlacementExample` | pkg/db/sqlComponents/sqlQuery.go:68-81 | `age > 18` linked AND followed by `status = 'active'` linked OR renders `age > 18 OR status = 'active'` |
| `Scenarios.PeopleBuilder` | pkg/db/sqlComponents/sqlQuery.go:21-65 | discovering `age` and `status`, selecting both and attaching two filters gives a registry with both flags set and the two filters in order |

## Left out

- The discovery round-trip (`conn.Query`, `res.Next`, `res.Scan`) is I/O. It is
  a `Discovery` parameter instead: either the call fails, or it yields rows,
  each a column name or a row whose scan fails. The driver's own error values
  become the kinds `SchemaLookupFailed` and `RecordReadFailed`.
- Logging (`common.Log.Errorw`) has no behaviour to model.
- Go's map iteration order is unspecified. `SelectedColumnList` picks the next
  key with `:|`, and its ghost `order` records the visiting order. Properties
  are stated as "each selected column exactly once", not as a fixed order.
- `pkg/db/sqlComponents/sqlTypes`, `SQLFilter` and `pkg/db/errors` are not part
  of this model. `SqlTypes` and `SqlFilters` stand in for them. Their closed
  sets and tokens (`SELECT`/`UPDATE`/`DELETE`, `=`/`<>`/`<`/`<=`/`>`/`>=`,
  `AND`/`OR`) are assumed. So is the rule that an operator's validity check and
  its rendering fail with the same error.
- `SqlComponents.SqlQuery.GetSQLQuery`: does not model the `InvalidTypeError`
  path of the switch's default branch (sqlQuery.go:115-117), and `DbErrors.Error`
  has no kind for it. The branch runs only for a kind whose verb renders but
  which is not SELECT, UPDATE or DELETE. The model assumes that
  `QueryType.ToString` fails for every such kind. That file is not part of this
  model.
- The `marks` constants (`internal/common/marks`) are not part of this model.
  Every rendered string assumes `EMPTY`, `SPACE`, `ASTERISK`, `COMMA` and
  `SEMICOLON` are `""`, `" "`, `"*"`, `","` and `";"`.
- `LinkToken` assumes that a failing `Link.ToString` returns the empty string.
  The builder discards that error.
- The UPDATE branch is an unfinished placeholder in the source. The model
  renders what it renders today and gives UPDATE no semantics of its own.
- Concurrent use of one builder is not modelled. The source has no
  synchronisation and is meant for use from a single goroutine.
- Go strings are byte strings. The model uses `seq<char>`, which makes no
  difference to concatenation.
- `pkg/model/person/personModel.go` is a plain data record with no behaviour.
