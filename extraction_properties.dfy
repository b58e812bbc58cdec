/**
 * What the walk emits, stated against the tree.
 *
 * NodeReached lists, in pre-order, what the walk reaches: every CTE
 * definition of every SELECT node it enters and every base table, with no
 * labels. NodeRowsMatch says the rows correspond one to one, in order, to
 * that list: a CTE definition gives ("", name, "cte"), a base table gives its
 * schema column, its name and one of the four table labels. The rest of the
 * module is about the labels.
 */
module ExtractionProperties {
  import opened Wrappers
  import opened Ast
  import opened Extraction

  datatype Reached = CteDefinition(name: string) | Table(schemaName: string, tableName: string)

  function RefReached(ref: TableRef): seq<Reached>
    decreases ref, 0, 0
  {
    match ref
    case BaseTable(schemaName, tableName) => [Table(schemaName, tableName)]
    case Join(left, right) => RefReached(left) + RefReached(right)
    case Subquery(node) => if node.Some? then NodeReached(node.value) else []
    case OtherRef => []
  }

  function NodeReached(node: QueryNode): seq<Reached>
    decreases node, 1, 0
  {
    match node
    case OtherNode => []
    case SelectNode(ctes, fromTable) =>
      CteReached(node, |ctes|) + (if fromTable.Some? then RefReached(fromTable.value) else [])
  }

  function CteReached(select: QueryNode, k: nat): seq<Reached>
    requires select.SelectNode? && k <= |select.cteMap|
    decreases select, 0, k
  {
    if k == 0 then []
    else
      var entry := select.cteMap[k - 1];
      assert entry in select.cteMap;
      CteReached(select, k - 1) + [CteDefinition(entry.name)]
        + (if entry.body.Some? then NodeReached(entry.body.value) else [])
  }

  /** The row that a reached entity must produce. */
  predicate Describes(row: TableRefResult, item: Reached) {
    match item
    case CteDefinition(name) => row == CteRow(name)
    case Table(schemaName, tableName) =>
      row.schema == SchemaColumn(schemaName) && row.table == tableName && row.context in TABLE_LABELS
  }

  predicate Matches(rows: seq<TableRefResult>, items: seq<Reached>) {
    |rows| == |items| && forall i :: 0 <= i < |rows| ==> Describes(rows[i], items[i])
  }

  lemma MatchesConcat(a: seq<TableRefResult>, b: seq<Reached>, c: seq<TableRefResult>, d: seq<Reached>)
    requires Matches(a, b) && Matches(c, d)
    ensures Matches(a + c, b + d)
  {
  }

  /** A FROM walk entered at the top level, or with a table label, emits rows matching its reached tables. */
  lemma {:induction false} RefRowsMatch(ref: TableRef, context: string, isTopLevel: bool, cteMap: Option<CteMap>)
    requires isTopLevel || context in TABLE_LABELS
    ensures Matches(RefRows(ref, context, isTopLevel, cteMap), RefReached(ref))
    decreases ref, 0, 0
  {
    match ref
    case BaseTable(_, _) =>
    case Join(left, right) =>
      RefRowsMatch(left, JOIN_LEFT, isTopLevel, cteMap);
      RefRowsMatch(right, JOIN_RIGHT, false, cteMap);
      MatchesConcat(RefRows(left, JOIN_LEFT, isTopLevel, cteMap), RefReached(left),
                    RefRows(right, JOIN_RIGHT, false, cteMap), RefReached(right));
    case Subquery(node) =>
      if node.Some? { NodeRowsMatch(node.value, SUBQUERY, cteMap); }
    case OtherRef =>
  }

  /** Whatever label and map it inherits, a query node emits rows matching what it reaches. */
  lemma {:induction false} NodeRowsMatch(node: QueryNode, context: string, cteMap: Option<CteMap>)
    ensures Matches(NodeRows(node, context, cteMap), NodeReached(node))
    decreases node, 1, 0
  {
    match node
    case OtherNode =>
    case SelectNode(ctes, fromTable) =>
      CtePrefixMatches(node, |ctes|);
      if fromTable.Some? {
        RefRowsMatch(fromTable.value, context, true, Some(ctes));
        MatchesConcat(CtePrefix(node, |ctes|), CteReached(node, |ctes|),
                      RefRows(fromTable.value, context, true, Some(ctes)), RefReached(fromTable.value));
      } else {
        MatchesConcat(CtePrefix(node, |ctes|), CteReached(node, |ctes|), [], []);
      }
  }

  lemma {:induction false} CtePrefixMatches(select: QueryNode, k: nat)
    requires select.SelectNode? && k <= |select.cteMap|
    ensures Matches(CtePrefix(select, k), CteReached(select, k))
    decreases select, 0, k
  {
    if k > 0 {
      var entry := select.cteMap[k - 1];
      assert entry in select.cteMap;
      CtePrefixMatches(select, k - 1);
      MatchesConcat(CtePrefix(select, k - 1), CteReached(select, k - 1), [CteRow(entry.name)], [CteDefinition(entry.name)]);
      if entry.body.Some? {
        NodeRowsMatch(entry.body.value, FROM, Some(select.cteMap));
        MatchesConcat(CtePrefix(select, k - 1) + [CteRow(entry.name)], CteReached(select, k - 1) + [CteDefinition(entry.name)],
                      NodeRows(entry.body.value, FROM, Some(select.cteMap)), NodeReached(entry.body.value));
      } else {
        MatchesConcat(CtePrefix(select, k - 1) + [CteRow(entry.name)], CteReached(select, k - 1) + [CteDefinition(entry.name)], [], []);
      }
    }
  }

  /**
   * Columns of every row a statement's walk emits: the context is "cte" or
   * one of the four table labels, so never "subquery"; the schema is empty
   * exactly on CTE rows; and there are as many rows as reached entities.
   */
  lemma RowColumns(node: QueryNode, context: string, cteMap: Option<CteMap>)
    ensures |NodeRows(node, context, cteMap)| == |NodeReached(node)|
    ensures forall row :: row in NodeRows(node, context, cteMap) ==>
      && (row.context == CTE || row.context in TABLE_LABELS)
      && row.context != SUBQUERY
      && (row.schema == "" <==> row.context == CTE)
  {
    var rows := NodeRows(node, context, cteMap);
    NodeRowsMatch(node, context, cteMap);
    forall row | row in rows
      ensures && (row.context == CTE || row.context in TABLE_LABELS)
              && row.context != SUBQUERY
              && (row.schema == "" <==> row.context == CTE)
    {
      var i :| 0 <= i < |rows| && rows[i] == row;
      assert Describes(rows[i], NodeReached(node)[i]);
    }
  }

  /** The label and map a query node inherits do not change its rows. */
  lemma InheritedScopeIgnored(node: QueryNode, context1: string, cteMap1: Option<CteMap>,
                              context2: string, cteMap2: Option<CteMap>)
    ensures NodeRows(node, context1, cteMap1) == NodeRows(node, context2, cteMap2)
  {
  }

  /** A FROM walk started at the top level does not use the inherited label. */
  lemma TopLevelIgnoresContext(ref: TableRef, context1: string, context2: string, cteMap: Option<CteMap>)
    ensures RefRows(ref, context1, true, cteMap) == RefRows(ref, context2, true, cteMap)
  {
  }

  /** The base table at the bottom of the left spine of joins, if the spine ends in one. */
  function LeftmostTable(ref: TableRef): Option<TableRef> {
    match ref
    case BaseTable(_, _) => Some(ref)
    case Join(left, _) => LeftmostTable(left)
    case Subquery(_) => None
    case OtherRef => None
  }

  /**
   * The first row of a walk whose left spine ends in a base table is that
   * table's row. It is "from_cte" when the name is a visible CTE; otherwise
   * "from" when the walk is at the top level — even below joins, since the
   * left child keeps the flag — and "join_left" or the inherited label otherwise.
   */
  lemma {:induction false} LeftmostRow(ref: TableRef, context: string, isTopLevel: bool, cteMap: Option<CteMap>)
    requires LeftmostTable(ref).Some?
    ensures var table := LeftmostTable(ref).value;
      && table.BaseTable?
      && |RefRows(ref, context, isTopLevel, cteMap)| > 0
      && RefRows(ref, context, isTopLevel, cteMap)[0] ==
         TableRefResult(SchemaColumn(table.schemaName), table.tableName,
                        if Visible(cteMap, table.tableName) then FROM_CTE
                        else if isTopLevel then FROM
                        else if ref.Join? then JOIN_LEFT
                        else context)
  {
    if ref.Join? {
      LeftmostRow(ref.left, JOIN_LEFT, isTopLevel, cteMap);
    }
  }

  /** A tree of joins over base tables and skipped references, with no subquery in it. */
  predicate JoinTree(ref: TableRef) {
    match ref
    case BaseTable(_, _) => true
    case Join(left, right) => JoinTree(left) && JoinTree(right)
    case Subquery(_) => false
    case OtherRef => true
  }

  /** In a join tree, a row is labelled "from_cte" exactly when its table names a CTE of the current map, wherever it sits. */
  lemma {:induction false} CteLabelIffVisible(ref: TableRef, context: string, isTopLevel: bool, cteMap: Option<CteMap>)
    requires JoinTree(ref) && context != FROM_CTE
    ensures forall row :: row in RefRows(ref, context, isTopLevel, cteMap) ==>
      (row.context == FROM_CTE <==> Visible(cteMap, row.table))
  {
    match ref
    case BaseTable(_, _) =>
    case Join(left, right) =>
      CteLabelIffVisible(left, JOIN_LEFT, isTopLevel, cteMap);
      CteLabelIffVisible(right, JOIN_RIGHT, false, cteMap);
    case Subquery(_) =>
    case OtherRef =>
  }

  /**
   * In a join tree, "from" is carried by at most the first row, and only at
   * the top level: the right side of every join loses the top-level flag.
   */
  lemma {:induction false} OnlyFirstRowIsFrom(ref: TableRef, context: string, isTopLevel: bool, cteMap: Option<CteMap>)
    requires JoinTree(ref) && (!isTopLevel ==> context != FROM)
    ensures forall i :: 0 < i < |RefRows(ref, context, isTopLevel, cteMap)| ==>
      RefRows(ref, context, isTopLevel, cteMap)[i].context != FROM
    ensures !isTopLevel ==> forall row :: row in RefRows(ref, context, isTopLevel, cteMap) ==> row.context != FROM
  {
    match ref
    case BaseTable(_, _) =>
    case Join(left, right) =>
      var leftRows: seq<TableRefResult> := RefRows(left, JOIN_LEFT, isTopLevel, cteMap);
      var rightRows: seq<TableRefResult> := RefRows(right, JOIN_RIGHT, false, cteMap);
      OnlyFirstRowIsFrom(left, JOIN_LEFT, isTopLevel, cteMap);
      OnlyFirstRowIsFrom(right, JOIN_RIGHT, false, cteMap);
      forall i | 0 < i < |leftRows + rightRows|
        ensures (leftRows + rightRows)[i].context != FROM
      {
        if i >= |leftRows| {
          assert (leftRows + rightRows)[i] == rightRows[i - |leftRows|];
          assert rightRows[i - |leftRows|] in rightRows;
        } else {
          assert (leftRows + rightRows)[i] == leftRows[i];
        }
      }
    case Subquery(_) =>
    case OtherRef =>
  }

  lemma {:induction false} CtePrefixGrows(select: QueryNode, j: nat, k: nat)
    requires select.SelectNode? && j <= k <= |select.cteMap|
    ensures CtePrefix(select, j) <= CtePrefix(select, k)
    decreases k
  {
    if j < k {
      CtePrefixGrows(select, j, k - 1);
    }
  }

  /**
   * The CTE entries of a SELECT node come first, in map order: entry i's row
   * ("", name, "cte") follows the rows of the entries before it and is
   * followed by its body's rows, walked with the node's own map. The FROM
   * tree's rows come after the whole CTE block, walked at the top level with
   * the node's own map.
   */
  lemma CteEntryOrder(select: QueryNode, i: nat, context: string, cteMap: Option<CteMap>)
    requires select.SelectNode? && i < |select.cteMap|
    ensures var entry := select.cteMap[i];
      CtePrefix(select, i) + [CteRow(entry.name)]
        + (if entry.body.Some? then NodeRows(entry.body.value, FROM, Some(select.cteMap)) else [])
      <= NodeRows(select, context, cteMap)
    ensures var block := CtePrefix(select, |select.cteMap|);
      && block <= NodeRows(select, context, cteMap)
      && (select.fromTable.Some? ==>
            NodeRows(select, context, cteMap)[|block|..] == RefRows(select.fromTable.value, context, true, Some(select.cteMap)))
      && (select.fromTable.None? ==> NodeRows(select, context, cteMap) == block)
  {
    CtePrefixGrows(select, i + 1, |select.cteMap|);
  }

  /**
   * Scoping: when a SELECT node's FROM tree is a join tree, a row of that tree
   * is labelled "from_cte" exactly when the node's own CTE map defines its
   * table, whatever map the node's walk was handed.
   */
  lemma FromCteMeansOwnMap(select: QueryNode, context: string, cteMap: Option<CteMap>)
    requires select.SelectNode? && select.fromTable.Some? && JoinTree(select.fromTable.value)
    ensures var rows := NodeRows(select, context, cteMap);
      forall row :: row in rows[|CtePrefix(select, |select.cteMap|)|..] ==>
        (row.context == FROM_CTE <==> Defines(select.cteMap, row.table))
  {
    var block := CtePrefix(select, |select.cteMap|);
    var fromTable := select.fromTable.value;
    assert NodeRows(select, context, cteMap)[|block|..] == RefRows(fromTable, context, true, Some(select.cteMap));
    TopLevelIgnoresContext(fromTable, context, FROM, Some(select.cteMap));
    CteLabelIffVisible(fromTable, FROM, true, Some(select.cteMap));
  }
}
