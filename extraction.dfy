/**
 * The table-reference walk: ExtractTablesFromRef and ExtractTablesFromQueryNode.
 *
 * RefRows, NodeRows and CtePrefix give, as pure functions, the rows one call
 * appends to the results vector. The two methods are the walk itself: they
 * take the vector as it stands and give it back with the rows appended, which
 * is what the C++ does through its `std::vector &results` parameter.
 *
 * The three functions are mutually recursive; each decreases on the tree it
 * is looking at, then on its position in a SELECT node's CTE map, so that a
 * CTE body (which sits inside the node) is below the node.
 */
module Extraction {
  import opened Wrappers
  import opened Ast

  /** The label of a base table: a CTE name wins, then the top-level position, then the inherited label. */
  function BaseLabel(name: string, context: string, isTopLevel: bool, cteMap: Option<CteMap>): string {
    if Visible(cteMap, name) then FROM_CTE
    else if isTopLevel then FROM
    else context
  }

  /** The rows ExtractTablesFromRef appends for `ref`. */
  function RefRows(ref: TableRef, context: string, isTopLevel: bool, cteMap: Option<CteMap>): seq<TableRefResult>
    decreases ref, 0, 0
  {
    match ref
    case BaseTable(schemaName, tableName) =>
      [TableRefResult(SchemaColumn(schemaName), tableName, BaseLabel(tableName, context, isTopLevel, cteMap))]
    case Join(left, right) =>
      RefRows(left, JOIN_LEFT, isTopLevel, cteMap) + RefRows(right, JOIN_RIGHT, false, cteMap)
    case Subquery(node) =>
      if node.Some? then NodeRows(node.value, SUBQUERY, cteMap) else []
    case OtherRef => []
  }

  /**
   * The rows ExtractTablesFromQueryNode appends for `node`. The inherited
   * `cteMap` is accepted and never used: both the CTE bodies and the FROM
   * tree are walked with the node's own map.
   */
  function NodeRows(node: QueryNode, context: string, cteMap: Option<CteMap>): seq<TableRefResult>
    decreases node, 1, 0
  {
    match node
    case OtherNode => []
    case SelectNode(ctes, fromTable) =>
      CtePrefix(node, |ctes|) + (if fromTable.Some? then RefRows(fromTable.value, context, true, Some(ctes)) else [])
  }

  /** The rows for the first `k` entries of a SELECT node's CTE map: each name's row, then its body's rows. */
  function CtePrefix(select: QueryNode, k: nat): seq<TableRefResult>
    requires select.SelectNode? && k <= |select.cteMap|
    decreases select, 0, k
  {
    if k == 0 then []
    else
      var entry := select.cteMap[k - 1];
      assert entry in select.cteMap;
      CtePrefix(select, k - 1) + [CteRow(entry.name)]
        + (if entry.body.Some? then NodeRows(entry.body.value, FROM, Some(select.cteMap)) else [])
  }

  method ExtractTablesFromRef(ref: TableRef, results: seq<TableRefResult>, context: string,
                              isTopLevel: bool, cteMap: Option<CteMap>)
    returns (out: seq<TableRefResult>)
    ensures out == results + RefRows(ref, context, isTopLevel, cteMap)
    decreases ref, 0, 0
  {
    match ref {
      case BaseTable(schemaName, tableName) =>
        // The label rule and the "main" default are spelled out here as the C++ does;
        // the ensures ties them to BaseLabel and SchemaColumn.
        var contextLabel := context;
        if cteMap.Some? && Defines(cteMap.value, tableName) {
          contextLabel := FROM_CTE;
        } else if isTopLevel {
          contextLabel := FROM;
        }
        var schema := if schemaName == "" then DEFAULT_SCHEMA else schemaName;
        out := results + [TableRefResult(schema, tableName, contextLabel)];
      case Join(left, right) =>
        out := ExtractTablesFromRef(left, results, JOIN_LEFT, isTopLevel, cteMap);
        out := ExtractTablesFromRef(right, out, JOIN_RIGHT, false, cteMap);
      case Subquery(node) =>
        out := results;
        if node.Some? {
          out := ExtractTablesFromQueryNode(node.value, results, SUBQUERY, cteMap);
        }
      case OtherRef =>
        out := results;
    }
  }

  method ExtractTablesFromQueryNode(node: QueryNode, results: seq<TableRefResult>, context: string,
                                    cteMap: Option<CteMap>)
    returns (out: seq<TableRefResult>)
    ensures out == results + NodeRows(node, context, cteMap)
    decreases node, 1, 0
  {
    out := results;
    if node.SelectNode? {
      var ctes := node.cteMap;
      var i := 0;
      while i < |ctes|
        invariant 0 <= i <= |ctes|
        invariant out == results + CtePrefix(node, i)
      {
        var entry := ctes[i];
        assert entry in node.cteMap;
        out := out + [CteRow(entry.name)];
        if entry.body.Some? {
          out := ExtractTablesFromQueryNode(entry.body.value, out, FROM, Some(ctes));
        }
        i := i + 1;
      }
      if node.fromTable.Some? {
        out := ExtractTablesFromRef(node.fromTable.value, out, context, true, Some(ctes));
      }
    }
  }
}
