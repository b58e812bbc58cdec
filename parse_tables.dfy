/**
 * MyFunc: the statement driver and the row cursor over ParseTablesState.
 *
 * The parser is not modelled; its outcome for the bound SQL text is an input
 * to every pull. Both ways the fill can fail (the parser throws, or a
 * statement is not a SELECT) are caught and re-thrown as one "Failed to parse
 * SQL" error; the tag records which of the two was wrapped.
 */
module ParseTables {
  import opened Wrappers
  import opened Ast
  import opened Extraction

  datatype Cause = ParserError | UnsupportedStatement

  /** The InvalidInputException "Failed to parse SQL: ..." thrown out of MyFunc. */
  datatype Error = FailedToParse(cause: Cause)

  /** The rows the walk of one statement contributes: nothing unless it is a SELECT with a node. */
  function StatementRows(stmt: Statement): seq<TableRefResult> {
    if stmt.Select? && stmt.node.Some? then NodeRows(stmt.node.value, FROM, None) else []
  }

  /** The rows of the statements, walked in order and concatenated. */
  function StatementsRows(stmts: seq<Statement>): seq<TableRefResult> {
    if stmts == [] then []
    else StatementsRows(stmts[..|stmts| - 1]) + StatementRows(stmts[|stmts| - 1])
  }

  /** The index of the first statement that is not a SELECT, or |stmts| when there is none. */
  function FirstNonSelect(stmts: seq<Statement>): (k: nat)
    ensures k <= |stmts|
    ensures forall i :: 0 <= i < k ==> stmts[i].Select?
    ensures k < |stmts| ==> !stmts[k].Select?
  {
    if stmts == [] || !stmts[0].Select? then 0 else 1 + FirstNonSelect(stmts[1..])
  }

  /** What one fill leaves in `results`, and the error it raises, if any. */
  datatype Fill = Fill(rows: seq<TableRefResult>, error: Option<Error>)

  /**
   * The fill run by MyFunc: a parse failure leaves nothing; otherwise the
   * statements before the first non-SELECT are walked (their rows stay in the
   * vector when the exception leaves), and that statement, if any, raises.
   */
  function RunFill(parsed: ParseOutcome): Fill {
    match parsed
    case ParseError => Fill([], Some(FailedToParse(ParserError)))
    case Parsed(stmts) =>
      var k := FirstNonSelect(stmts);
      Fill(StatementsRows(stmts[..k]), if k < |stmts| then Some(FailedToParse(UnsupportedStatement)) else None)
  }

  /** The cursor state as a value: the two fields of ParseTablesState. */
  datatype Cursor = Cursor(row: nat, results: seq<TableRefResult>)

  /** The initial state that MyInit creates. */
  const INITIAL: Cursor := Cursor(0, [])

  /** What a call gives back: an error, no row (end of output), or one row. */
  type PullResult = Result<Option<TableRefResult>, Error>

  /** Emit `results[row]` and advance, or emit nothing when the cursor is past the end. */
  function Emit(c: Cursor): (Cursor, PullResult) {
    if c.row >= |c.results| then (c, Success(None))
    else (Cursor(c.row + 1, c.results), Success(Some(c.results[c.row])))
  }

  /** One call of MyFunc. The fill is run only while `results` is empty and `row` is 0. */
  function PullStep(c: Cursor, parsed: ParseOutcome): (Cursor, PullResult) {
    if c.results == [] && c.row == 0 then
      var fill := RunFill(parsed);
      if fill.error.Some? then (Cursor(0, fill.rows), Failure(fill.error.value))
      else Emit(Cursor(0, fill.rows))
    else Emit(c)
  }

  /** The results of `n` successive calls from `c`. */
  function Pulls(c: Cursor, parsed: ParseOutcome, n: nat): seq<PullResult>
    decreases n
  {
    if n == 0 then []
    else
      var (next, r) := PullStep(c, parsed);
      [r] + Pulls(next, parsed, n - 1)
  }

  /** Walking statements in order concatenates their rows. */
  lemma {:induction false} StatementsRowsConcat(a: seq<Statement>, b: seq<Statement>)
    ensures StatementsRows(a + b) == StatementsRows(a) + StatementsRows(b)
    decreases |b|
  {
    if b != [] {
      var prefix := b[..|b| - 1];
      assert (a + b)[..|a + b| - 1] == a + prefix;
      StatementsRowsConcat(a, prefix);
    } else {
      assert a + b == a;
    }
  }

  /**
   * A fill succeeds exactly when the parse did and every statement is a
   * SELECT, and then it holds every statement's rows in order. Otherwise it
   * fails: a parse failure leaves nothing, and an unsupported statement leaves
   * the rows of the statements before it.
   */
  lemma FillOutcome(parsed: ParseOutcome)
    ensures RunFill(parsed).error.None? <==> parsed.Parsed? && forall s :: s in parsed.statements ==> s.Select?
    ensures RunFill(parsed).error.None? ==> RunFill(parsed).rows == StatementsRows(parsed.statements)
    ensures parsed.ParseError? ==> RunFill(parsed) == Fill([], Some(FailedToParse(ParserError)))
    ensures parsed.Parsed? && RunFill(parsed).error.Some? ==>
      && RunFill(parsed).error == Some(FailedToParse(UnsupportedStatement))
      && exists k :: 0 <= k < |parsed.statements| && !parsed.statements[k].Select?
           && (forall i :: 0 <= i < k ==> parsed.statements[i].Select?)
           && RunFill(parsed).rows == StatementsRows(parsed.statements[..k])
  {
    if parsed.Parsed? {
      var stmts := parsed.statements;
      var k := FirstNonSelect(stmts);
      if k == |stmts| {
        assert stmts[..k] == stmts;
      } else {
        assert stmts[k] in stmts;
      }
    }
  }

  /**
   * Once a call emits nothing, the state is left as it was and every further
   * call emits nothing again: the end of the output is final.
   */
  lemma ExhaustedStaysExhausted(c: Cursor, parsed: ParseOutcome)
    requires PullStep(c, parsed).1 == Success(None)
    ensures PullStep(c, parsed).0 == c
    ensures PullStep(PullStep(c, parsed).0, parsed) == (c, Success(None))
  {
  }

  /** From a filled, non-empty state at row j, n calls emit rows j, j+1, ... and then nothing. */
  lemma {:induction false} DrainFrom(rows: seq<TableRefResult>, j: nat, parsed: ParseOutcome, n: nat)
    requires rows != [] && j <= |rows|
    ensures |Pulls(Cursor(j, rows), parsed, n)| == n
    ensures forall i :: 0 <= i < n ==>
      Pulls(Cursor(j, rows), parsed, n)[i] == if j + i < |rows| then Success(Some(rows[j + i])) else Success(None)
    decreases n
  {
    if n > 0 {
      var (next, r) := PullStep(Cursor(j, rows), parsed);
      if j < |rows| {
        DrainFrom(rows, j + 1, parsed, n - 1);
      } else {
        DrainFrom(rows, j, parsed, n - 1);
      }
      assert Pulls(Cursor(j, rows), parsed, n) == [r] + Pulls(next, parsed, n - 1);
    }
  }

  lemma {:induction false} DrainEmpty(parsed: ParseOutcome, n: nat)
    requires RunFill(parsed) == Fill([], None)
    ensures Pulls(INITIAL, parsed, n) == seq(n, i => Success(None))
    decreases n
  {
    if n > 0 {
      DrainEmpty(parsed, n - 1);
      assert Pulls(INITIAL, parsed, n) == [Success(None)] + Pulls(INITIAL, parsed, n - 1);
    }
  }

  /**
   * The calls of one invocation, from the state MyInit creates: when the fill
   * succeeds, call i emits row i of the fill and every call past the last row
   * emits nothing; when it fails, the first call raises the fill's error.
   */
  lemma PullsFromInitial(parsed: ParseOutcome, n: nat)
    ensures |Pulls(INITIAL, parsed, n)| == n
    ensures RunFill(parsed).error.None? ==> forall i :: 0 <= i < n ==>
      Pulls(INITIAL, parsed, n)[i] ==
        if i < |RunFill(parsed).rows| then Success(Some(RunFill(parsed).rows[i])) else Success(None)
    ensures RunFill(parsed).error.Some? && n > 0 ==> Pulls(INITIAL, parsed, n)[0] == Failure(RunFill(parsed).error.value)
  {
    var fill := RunFill(parsed);
    if fill.error.None? {
      if fill.rows == [] {
        DrainEmpty(parsed, n);
      } else if n > 0 {
        DrainFrom(fill.rows, 1, parsed, n - 1);
        assert Pulls(INITIAL, parsed, n) == [Success(Some(fill.rows[0]))] + Pulls(Cursor(1, fill.rows), parsed, n - 1);
      }
    } else if n > 0 {
      assert Pulls(INITIAL, parsed, n)[0] == PullStep(INITIAL, parsed).1;
    }
    LengthOfPulls(INITIAL, parsed, n);
  }

  lemma {:induction false} LengthOfPulls(c: Cursor, parsed: ParseOutcome, n: nat)
    ensures |Pulls(c, parsed, n)| == n
    decreases n
  {
    if n > 0 {
      LengthOfPulls(PullStep(c, parsed).0, parsed, n - 1);
    }
  }

  class ParseTablesState {
    var row: nat
    var results: seq<TableRefResult>

    /** MyInit: a fresh state, nothing filled, cursor at 0. */
    constructor ()
      ensures row == 0 && results == []
    {
      row := 0;
      results := [];
    }

    /**
     * MyFunc. `parsed` is what the parser gives for the bound SQL text.
     * Statements are walked in order into `results`; the first non-SELECT
     * statement raises. Afterwards at most one row is emitted and the cursor
     * advances past it.
     */
    method Pull(parsed: ParseOutcome) returns (r: PullResult)
      modifies this
      ensures (Cursor(row, results), r) == PullStep(Cursor(old(row), old(results)), parsed)
    {
      if results == [] && row == 0 {
        match parsed {
          case ParseError =>
            return Failure(FailedToParse(ParserError));
          case Parsed(stmts) =>
            var i := 0;
            while i < |stmts|
              invariant 0 <= i <= |stmts| && row == 0
              invariant forall j :: 0 <= j < i ==> stmts[j].Select?
              invariant results == StatementsRows(stmts[..i])
            {
              var stmt := stmts[i];
              if !stmt.Select? {
                return Failure(FailedToParse(UnsupportedStatement));
              }
              assert stmts[..i + 1][..i] == stmts[..i];
              if stmt.node.Some? {
                results := ExtractTablesFromQueryNode(stmt.node.value, results, FROM, None);
              }
              i := i + 1;
            }
            assert stmts[..i] == stmts;
        }
      }
      if row >= |results| {
        return Success(None);
      }
      r := Success(Some(results[row]));
      row := row + 1;
    }
  }
}
