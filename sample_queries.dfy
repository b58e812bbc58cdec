/**
 * Sample queries and the rows the walk gives them, written as trees.
 * Three of them show where the code differs from what one might expect:
 * the leftmost table of a join is "from", and neither a subquery nor a CTE
 * body sees the CTEs of the query around it.
 */
module SampleQueries {
  import opened Wrappers
  import opened Ast
  import opened Extraction

  function Walk(node: QueryNode): seq<TableRefResult> {
    NodeRows(node, FROM, None)
  }

  function SelectFrom(ref: TableRef): QueryNode {
    SelectNode([], Some(ref))
  }

  /** SELECT 1 */
  lemma NoFromNoRows()
    ensures Walk(SelectNode([], None)) == []
  {
  }

  /** SELECT * FROM t, and SELECT * FROM s.t */
  lemma SingleTable()
    ensures Walk(SelectFrom(BaseTable("", "t"))) == [TableRefResult("main", "t", "from")]
    ensures Walk(SelectFrom(BaseTable("s", "t"))) == [TableRefResult("s", "t", "from")]
  {
  }

  /** WITH c AS (SELECT 1) SELECT * FROM c */
  lemma CteReference()
    ensures Walk(SelectNode([CteEntry("c", Some(SelectNode([], None)))], Some(BaseTable("", "c"))))
         == [TableRefResult("", "c", "cte"), TableRefResult("main", "c", "from_cte")]
  {
    var ctes := [CteEntry("c", Some(SelectNode([], None)))];
    var node := SelectNode(ctes, Some(BaseTable("", "c")));
    assert ctes[0].name == "c";
    assert Defines(ctes, "c");
    assert CtePrefix(node, 1) == [CteRow("c")] + NodeRows(SelectNode([], None), FROM, Some(ctes));
  }

  /**
   * WITH c AS (SELECT * FROM c) SELECT 1: the body is its own SELECT node and
   * its FROM walk uses that node's (empty) map, so the c inside is not a CTE
   * reference, although the enclosing map is handed to the body's walk.
   */
  lemma CteBodyDoesNotSeeItsMap()
    ensures Walk(SelectNode([CteEntry("c", Some(SelectFrom(BaseTable("", "c"))))], None))
         == [TableRefResult("", "c", "cte"), TableRefResult("main", "c", "from")]
  {
    var ctes := [CteEntry("c", Some(SelectFrom(BaseTable("", "c"))))];
    var node := SelectNode(ctes, None);
    assert CtePrefix(node, 1) == [CteRow("c")] + NodeRows(SelectFrom(BaseTable("", "c")), FROM, Some(ctes));
    assert !Defines([], "c");
  }

  /** SELECT * FROM a JOIN b: the left side keeps the top-level flag. */
  lemma JoinLabels()
    ensures Walk(SelectFrom(Join(BaseTable("", "a"), BaseTable("", "b"))))
         == [TableRefResult("main", "a", "from"), TableRefResult("main", "b", "join_right")]
  {
  }

  /** SELECT * FROM a JOIN b JOIN c, which parses as (a JOIN b) JOIN c. */
  lemma JoinChainLabels()
    ensures Walk(SelectFrom(Join(Join(BaseTable("", "a"), BaseTable("", "b")), BaseTable("", "c"))))
         == [TableRefResult("main", "a", "from"), TableRefResult("main", "b", "join_right"),
             TableRefResult("main", "c", "join_right")]
  {
  }

  /** SELECT * FROM (SELECT * FROM inner_t) sub */
  lemma SubqueryTable()
    ensures Walk(SelectFrom(Subquery(Some(SelectFrom(BaseTable("", "inner_t"))))))
         == [TableRefResult("main", "inner_t", "from")]
  {
  }

  /** WITH c AS (SELECT 1) SELECT * FROM (SELECT * FROM c) sub: the inner c is not a CTE reference. */
  lemma SubqueryHidesOuterCte()
    ensures Walk(SelectNode([CteEntry("c", Some(SelectNode([], None)))],
                            Some(Subquery(Some(SelectFrom(BaseTable("", "c")))))))
         == [TableRefResult("", "c", "cte"), TableRefResult("main", "c", "from")]
  {
    var ctes := [CteEntry("c", Some(SelectNode([], None)))];
    var node := SelectNode(ctes, Some(Subquery(Some(SelectFrom(BaseTable("", "c"))))));
    assert CtePrefix(node, 1) == [CteRow("c")] + NodeRows(SelectNode([], None), FROM, Some(ctes));
    assert !Defines([], "c");
  }
}
