# parse_tables: a Dafny model of the table-reference walk

The `parse_tables` DuckDB extension takes a SQL string and returns one
`(schema, table, context)` row for every base table and CTE definition that
its walk of the SELECT statements reaches. The walk enters FROM trees, FROM
subqueries and the CTE bodies of SELECT nodes. It skips set operations, table
functions and other reference kinds, and subqueries outside FROM. The logic lives in
`src/parse_tables_extension.cpp`. Two mutually recursive functions walk the
parsed tree and append rows to a vector:

- `ExtractTablesFromQueryNode` handles query nodes.
- `ExtractTablesFromRef` handles table references.

`MyFunc` fills that vector once, the first time it is called. After that, each
call hands out one row and moves a cursor on.

The model has six modules:

- `Wrappers` (wrappers.dfy): Option and Result.
- `Ast` (ast.dfy): the closed syntax tree the walk sees.
  - `QueryNode` is `SelectNode(cteMap, fromTable)` or `OtherNode`.
  - `TableRef` is `BaseTable`, `Join`, `Subquery` or `OtherRef`.
  - `Statement`, and `ParseOutcome` (what the parser returns).
  - The output row `TableRefResult`, the context labels, and the CTE lookup `Defines`.
- `Extraction` (extraction.dfy): `RefRows`, `NodeRows` and `CtePrefix` are pure
  functions that give the rows one call appends. The methods
  `ExtractTablesFromRef` and `ExtractTablesFromQueryNode` are the walk itself.
  They take the results vector as it is and return it with the rows appended,
  which models the C++ `std::vector &results` parameter. The CTE loop is a `while` loop.
- `ExtractionProperties` (extraction_properties.dfy): what the rows are, stated
  against the tree.
  - `NodeReached` lists, in pre-order and without labels, the CTE definitions
    and base tables that the walk reaches.
  - `NodeRowsMatch` proves that the rows match this list one to one, in order.
  - Further lemmas cover the labels and CTE scoping.
- `ParseTables` (parse_tables.dfy): the statement driver and the cursor.
  - Class `ParseTablesState` has the source's two fields, `row` and `results`.
  - Its `Pull` method is `MyFunc`. It is proved against the pure transition `PullStep`.
  - Lemmas about `PullStep` cover the whole sequence of calls.
- `SampleQueries` (sample_queries.dfy): sample queries, written as trees, with the rows they produce.

Where the code does not do what one would naturally expect, the model follows
the code:

- `ExtractTablesFromQueryNode` never reads its `cte_map` argument. Both the CTE
  bodies and the FROM tree are walked with the node's own map. So a subquery
  does not see the CTEs of the query around it. A CTE body does not see the map
  of the WITH clause it belongs to either, because the body is its own SELECT
  node. See `SampleQueries.SubqueryHidesOuterCte` and `SampleQueries.CteBodyDoesNotSeeItsMap`.
- The left child of a join keeps `is_top_level`. So the leftmost table of a
  top-level join is labelled `from`, not `join_left` (`SampleQueries.JoinLabels`).
- The label `subquery` is passed down but never reaches a row. Every query node
  starts its FROM walk at the top level (`ExtractionProperties.RowColumns`).
- A statement that is not a SELECT throws after earlier statements have already
  appended their rows. Those rows stay in `results` (`ParseTables.RunFill`).
- When the walk finds no rows, every call parses and walks again, because the
  guard `results.empty() && row == 0` still holds. The outcome is the same each
  time (`ParseTables.ExhaustedStaysExhausted`).

## Model

| member | source | states |
|---|---|---|
| `Ast.SchemaColumn` | src/parse_tables_extension.cpp:91 | The schema column is never empty. It is the schema name verbatim when that name is not empty, and `main` when it is. |
| `Extraction.ExtractTablesFromRef` | src/parse_tables_extension.cpp:70-113 | The returned vector is the input vector followed by exactly the rows `RefRows` gives for the reference. Earlier rows are kept unchanged. |
| `Extraction.ExtractTablesFromQueryNode` | src/parse_tables_extension.cpp:116-142 | The returned vector is the input vector followed by exactly the rows `NodeRows` gives for the node. The CTE loop keeps the input followed by the rows of the entries done so far. |
| `ExtractionProperties.RefRowsMatch` | src/parse_tables_extension.cpp:70-113 | A FROM walk started at the top level, or with a table label, emits one row per CTE definition and base table it reaches, in pre-order with left before right. A table row has the table's schema column, its name and one of `from_cte`, `from`, `join_left`, `join_right`. A CTE row, from a FROM subquery's own WITH, is `("", name, "cte")`. Skipped kinds and empty subqueries emit nothing. |
| `ExtractionProperties.NodeRowsMatch` | src/parse_tables_extension.cpp:116-142 | For any inherited label and map, a query node's rows correspond one to one and in order to what the walk reaches. A CTE definition gives `("", name, "cte")`. A base table gives a row as above. A non-SELECT node gives nothing. |
| `ExtractionProperties.CtePrefixMatches` | src/parse_tables_extension.cpp:128-136 | The rows of the first k CTE entries match, in map order, each entry's definition followed by what its body reaches. |
| `ExtractionProperties.RowColumns` | src/parse_tables_extension.cpp:80-142 | The number of rows equals the number of CTE definitions and base tables reached. Every context is `cte` or one of the four table labels, and never `subquery`. The schema is empty exactly on `cte` rows. |
| `ExtractionProperties.InheritedScopeIgnored` | src/parse_tables_extension.cpp:116-142 | A query node's rows do not depend on the label or the CTE map it inherits. |
| `ExtractionProperties.TopLevelIgnoresContext` | src/parse_tables_extension.cpp:80-101 | A FROM walk started at the top level gives the same rows whatever label it is handed. |
| `ExtractionProperties.LeftmostRow` | src/parse_tables_extension.cpp:82-101 | When the left spine of joins ends in a base table, that table gives the first row. Its label is `from_cte` if the name is in the current map, else `from` at the top level, else `join_left` under a join, else the inherited label. |
| `ExtractionProperties.CteLabelIffVisible` | src/parse_tables_extension.cpp:84-101 | In a tree of joins, a row is labelled `from_cte` exactly when the current map defines its table, whatever its position. |
| `ExtractionProperties.OnlyFirstRowIsFrom` | src/parse_tables_extension.cpp:86-101 | In a tree of joins, only the first row can be labelled `from`, including under the label `from` that every statement's FROM walk receives. When the walk is not at the top level and its label is not `from`, no row is. |
| `ExtractionProperties.CteEntryOrder` | src/parse_tables_extension.cpp:128-140 | CTE entry i's `cte` row follows the rows of the entries before it and is followed by its body's rows, walked with the node's own map. The FROM rows follow the whole CTE block and are walked at the top level with the node's own map. |
| `ExtractionProperties.FromCteMeansOwnMap` | src/parse_tables_extension.cpp:138-140 | When a SELECT node's FROM tree is a tree of joins, its rows are labelled `from_cte` exactly when the node's own CTE map defines the table, whatever map was passed in. |
| `ParseTables.FirstNonSelect` | src/parse_tables_extension.cpp:155-158 | Gives the index of the first statement that is not a SELECT, or the length when there is none. Every statement before it is a SELECT. |
| `ParseTables.StatementsRowsConcat` | src/parse_tables_extension.cpp:155-166 | Walking two runs of statements one after the other concatenates their rows. |
| `ParseTables.FillOutcome` | src/parse_tables_extension.cpp:150-169 | The fill succeeds exactly when parsing succeeds and every statement is a SELECT. It then holds every statement's rows in order. A parse failure leaves no rows and raises the parse error. An unsupported statement raises the unsupported-statement error and leaves the rows of the statements before it. |
| `ParseTables.ExhaustedStaysExhausted` | src/parse_tables_extension.cpp:150-174 | Once a call emits nothing, it has left the state unchanged, and the next call also emits nothing. |
| `ParseTables.DrainFrom` | src/parse_tables_extension.cpp:172-182 | From a filled state at row j, n calls emit rows j, j+1, ... in order, one per call, and emit nothing after the last row. |
| `ParseTables.DrainEmpty` | src/parse_tables_extension.cpp:150-174 | When the fill succeeds with no rows, every call emits nothing. |
| `ParseTables.PullsFromInitial` | src/parse_tables_extension.cpp:144-183 | From the initial state: when the fill succeeds, call i emits row i of the fill, and calls past the end emit nothing. When the fill fails, the first call raises that error. |
| `ParseTables.ParseTablesState.constructor` | src/parse_tables_extension.cpp:26-29 | A new state has `row == 0` and no results. |
| `ParseTables.ParseTablesState.Pull` | src/parse_tables_extension.cpp:144-183 | One call of `MyFunc`. The statement loop fills `results` only when it is empty and `row` is 0. The call then leaves the state and returns exactly what `PullStep` gives: the error, no row, or `results[row]` with the cursor advanced by one. |
| `SampleQueries.NoFromNoRows` | src/parse_tables_extension.cpp:124-140 | `SELECT 1` gives no rows. |
| `SampleQueries.SingleTable` | src/parse_tables_extension.cpp:80-94 | `FROM t` gives `(main, t, from)`, and `FROM s.t` gives `(s, t, from)`. |
| `SampleQueries.CteReference` | src/parse_tables_extension.cpp:84-135 | `WITH c AS (SELECT 1) SELECT * FROM c` gives `("", c, cte)` then `(main, c, from_cte)`. |
| `SampleQueries.CteBodyDoesNotSeeItsMap` | src/parse_tables_extension.cpp:116-142 | A CTE body that names its own CTE gets the label `from`, because the body's walk uses the body's own empty map. |
| `SampleQueries.JoinLabels` | src/parse_tables_extension.cpp:97-101 | `a JOIN b` gives `(main, a, from)` then `(main, b, join_right)`. |
| `SampleQueries.JoinChainLabels` | src/parse_tables_extension.cpp:97-101 | `(a JOIN b) JOIN c` labels a `from`, and b and c `join_right`. |
| `SampleQueries.SubqueryTable` | src/parse_tables_extension.cpp:103-108 | A table inside a FROM subquery is labelled `from`, not `subquery`. |
| `SampleQueries.SubqueryHidesOuterCte` | src/parse_tables_extension.cpp:103-142 | An outer CTE name used inside a FROM subquery is labelled `from`, not `from_cte`. |

## Left out

- `Bind` and `MyInit` are left out. They are host planning hooks that set the output column names and types and copy the SQL text. The fresh state that MyInit creates is `ParseTablesState`'s constructor.
- `LoadInternal`, `Load`, `Name`, `Version` and the `extern "C"` entry points are left out. They only register the function with the host.
- The parser (`Parser::ParseQuery`) is a foreign library. Its result for the bound SQL text is an input to `Pull`: either a parse error or a sequence of statements. No SQL text is tokenised here.
- Writing the row into a `DataChunk` as three `Value`s is left out. `Pull` returns the row itself.
- Exception types and message text are left out. Both failures become one error, "failed to parse", tagged with the cause (parser error or unsupported statement). This mirrors the catch-and-rethrow around the fill.
- The CTE map's ordering and key comparison belong to the library. The map is an insertion-ordered sequence of entries, and lookup is name membership. Duplicate names, which the library's map cannot hold, are not excluded.
- The parser's other query-node kinds and table-reference kinds are collapsed into `OtherNode` and `OtherRef`, which the walk skips. The chain of nullable pointers from a CTE entry or subquery to its node becomes one `Option`.
- `row` is an unbounded `nat`, where the source uses `idx_t`. It never exceeds the number of results, so wrap-around cannot happen.
- The second `SELECT_STATEMENT` test inside the statement loop is always true after the throw above it, so it is not modelled separately.
- On an error the host aborts the query. The model still states the state left behind (partial rows, `row` 0), but does not model the abort.
