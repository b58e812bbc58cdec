/**
 * The part of the parser's syntax tree that the extension walks, as closed
 * datatypes, and the row it emits.
 *
 * A query node is either a SELECT node, holding its CTE map and an optional
 * FROM tree, or some other kind of node (a set operation, say), which the walk
 * does not enter. The CTE map is an insertion-ordered sequence of entries;
 * an entry's body collapses the chain of nullable pointers
 * `entry.second->query->node` into one Option.
 */
module Ast {
  import opened Wrappers

  datatype QueryNode =
    | SelectNode(cteMap: CteMap, fromTable: Option<TableRef>)
    | OtherNode

  type CteMap = seq<CteEntry>

  datatype CteEntry = CteEntry(name: string, body: Option<QueryNode>)

  /** Kinds of table reference; OtherRef stands for every kind the walk skips. */
  datatype TableRef =
    | BaseTable(schemaName: string, tableName: string)
    | Join(left: TableRef, right: TableRef)
    | Subquery(node: Option<QueryNode>)
    | OtherRef

  /** A parsed statement: a SELECT with an optional root node, or any other kind. */
  datatype Statement = Select(node: Option<QueryNode>) | NonSelect

  /** What the parser hands back for the bound SQL text. */
  datatype ParseOutcome = ParseError | Parsed(statements: seq<Statement>)

  /** One output row: (schema, table, context). */
  datatype TableRefResult = TableRefResult(schema: string, table: string, context: string)

  const FROM: string := "from"
  const FROM_CTE: string := "from_cte"
  const JOIN_LEFT: string := "join_left"
  const JOIN_RIGHT: string := "join_right"
  const SUBQUERY: string := "subquery"
  const CTE: string := "cte"
  const DEFAULT_SCHEMA: string := "main"

  /** The labels a base-table row can carry. */
  const TABLE_LABELS: set<string> := {FROM_CTE, FROM, JOIN_LEFT, JOIN_RIGHT}

  /** True when the map holds an entry of that name (`cte_map->map.find(name) != end()`). */
  predicate Defines(cteMap: CteMap, name: string) {
    exists i :: 0 <= i < |cteMap| && cteMap[i].name == name
  }

  /** A nullable map pointer that is set and holds an entry of that name. */
  predicate Visible(cteMap: Option<CteMap>, name: string) {
    cteMap.Some? && Defines(cteMap.value, name)
  }

  /** The schema column of a base table: its schema name, or "main" when that is empty. */
  function SchemaColumn(schemaName: string): (s: string)
    ensures s != ""
    ensures schemaName != "" ==> s == schemaName
    ensures schemaName == "" ==> s == DEFAULT_SCHEMA
  {
    if schemaName == "" then DEFAULT_SCHEMA else schemaName
  }

  /** The row emitted for a CTE definition. */
  function CteRow(name: string): TableRefResult {
    TableRefResult("", name, CTE)
  }
}
