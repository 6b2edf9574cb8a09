/**
 The filter engine: runs a filter specification over a snapshot of a
 table's rows, producing the per-row mask and the view, i.e. the passing
 rows in table order.
 */
module FilterEngine {
  import opened Base
  import opened Tables
  import opened Coercion
  import opened Predicate
  import opened Combinator
  import opened Selection

  /** The clauses of a view's `filter` plus its `filter_op` mode. */
  datatype FilterSpec = FilterSpec(clauses: seq<Clause>, mode: Mode)

  /** One clause on one row. A column the schema does not know imposes no
      constraint. */
  function ClauseVerdict(schema: Schema, row: Row, c: Clause): Verdict {
    match TypeOf(schema, c.column)
    case None => Unconstrained
    case Some(t) => Evaluate(t, CellOf(row, c.column), c.op, c.operand)
  }

  predicate ClauseHolds(schema: Schema, row: Row, c: Clause) {
    Holds(ClauseVerdict(schema, row, c))
  }

  function ClauseResults(schema: Schema, row: Row, clauses: seq<Clause>): seq<bool> {
    seq(|clauses|, i requires 0 <= i < |clauses| => ClauseHolds(schema, row, clauses[i]))
  }

  /** Whether a row belongs to the view. With no clauses there is no filter
      and every row passes, in either mode. */
  predicate RowPasses(schema: Schema, row: Row, spec: FilterSpec) {
    |spec.clauses| == 0 || Combine(spec.mode, ClauseResults(schema, row, spec.clauses))
  }

  /** A clause constrains nothing exactly when its column is unknown or a
      comparison has no operand; a comparison with an operand on a known
      column rejects a null cell. */
  lemma ClauseVerdictUnconstrained(schema: Schema, row: Row, c: Clause)
    ensures ClauseVerdict(schema, row, c) == Unconstrained
      <==> c.column !in schema || (!IsNullTest(c.op) && c.operand.Absent?)
    ensures c.column in schema && !IsNullTest(c.op) && !c.operand.Absent? && CellOf(row, c.column).None?
      ==> ClauseVerdict(schema, row, c) == NoMatch
  {
  }

  /** In either mode a row on which every clause holds passes, and a row
      on which none of a non-empty list holds fails. */
  lemma RowPassesEitherMode(schema: Schema, row: Row, spec: FilterSpec)
    ensures (forall i :: 0 <= i < |spec.clauses| ==> ClauseHolds(schema, row, spec.clauses[i]))
      ==> RowPasses(schema, row, spec)
    ensures |spec.clauses| > 0 && (forall i :: 0 <= i < |spec.clauses| ==> !ClauseHolds(schema, row, spec.clauses[i]))
      ==> !RowPasses(schema, row, spec)
  {
    var rs := ClauseResults(schema, row, spec.clauses);
    assert forall i :: 0 <= i < |rs| ==> rs[i] == ClauseHolds(schema, row, spec.clauses[i]);
  }

  /** And keeps a row when every clause holds; Or when at least one does
      (or there are no clauses at all). */
  lemma RowPassesCharacterized(schema: Schema, row: Row, spec: FilterSpec)
    ensures spec.mode == And ==>
      (RowPasses(schema, row, spec) <==> forall c :: c in spec.clauses ==> ClauseHolds(schema, row, c))
    ensures spec.mode == Or ==>
      (RowPasses(schema, row, spec) <==>
        |spec.clauses| == 0 || exists c :: c in spec.clauses && ClauseHolds(schema, row, c))
  {
    var cs := spec.clauses;
    var rs := ClauseResults(schema, row, cs);
    assert forall i :: 0 <= i < |rs| ==> rs[i] == ClauseHolds(schema, row, cs[i]);
    assert (forall i :: 0 <= i < |cs| ==> ClauseHolds(schema, row, cs[i]))
      <==> (forall c :: c in cs ==> ClauseHolds(schema, row, c)) by {
      if forall i :: 0 <= i < |cs| ==> ClauseHolds(schema, row, cs[i]) {
        forall c | c in cs ensures ClauseHolds(schema, row, c) {
          var i :| 0 <= i < |cs| && cs[i] == c;
        }
      }
    }
    assert (exists i :: 0 <= i < |cs| && ClauseHolds(schema, row, cs[i]))
      <==> (exists c :: c in cs && ClauseHolds(schema, row, c)) by {
      if exists c :: c in cs && ClauseHolds(schema, row, c) {
        var c :| c in cs && ClauseHolds(schema, row, c);
        var i :| 0 <= i < |cs| && cs[i] == c;
      }
    }
  }

  /** Reordering the clauses (any permutation) never changes which rows pass. */
  lemma ClauseOrderIrrelevant(schema: Schema, row: Row, spec: FilterSpec, spec': FilterSpec)
    requires spec.mode == spec'.mode
    requires multiset(spec.clauses) == multiset(spec'.clauses)
    ensures RowPasses(schema, row, spec) == RowPasses(schema, row, spec')
  {
    RowPassesCharacterized(schema, row, spec);
    RowPassesCharacterized(schema, row, spec');
    assert forall c :: c in spec.clauses <==> c in spec'.clauses by {
      forall c ensures c in spec.clauses <==> c in spec'.clauses {
        assert c in spec.clauses <==> c in multiset(spec.clauses);
        assert c in spec'.clauses <==> c in multiset(spec'.clauses);
      }
    }
    assert |spec.clauses| == |multiset(spec.clauses)| == |spec'.clauses|;
  }

  /** A clause as a caller writes it: column name, operator token, operand. */
  datatype WireClause = WireClause(column: string, token: string, operand: Literal)

  /** A clause is what its wire form says: the same column and operand,
      and the operator the token names. */
  predicate ReadsAs(w: WireClause, c: Clause) {
    c.column == w.column && OpToken(c.op) == w.token && c.operand == w.operand
  }

  /** Reads the clauses of a `filter` list; it fails if any operator token
      is unknown. */
  function ParseClauses(wire: seq<WireClause>): (r: Option<seq<Clause>>)
    ensures r.Some? <==> forall i :: 0 <= i < |wire| ==> ParseOp(wire[i].token).Some?
    ensures r.Some? ==> |r.value| == |wire|
    ensures r.Some? ==> forall i :: 0 <= i < |wire| ==> ReadsAs(wire[i], r.value[i])
  {
    if |wire| == 0 then Some([])
    else
      var rest := ParseClauses(wire[1..]);
      assert forall i :: 1 <= i < |wire| ==> wire[i] == wire[1..][i - 1];
      match ParseOp(wire[0].token)
      case None => None
      case Some(op) =>
        if rest.None? then None
        else Some([Clause(wire[0].column, op, wire[0].operand)] + rest.value)
  }

  /** Reads a view's `filter` list and optional `filter_op` token into a
      filter specification. */
  function ParseSpec(wire: seq<WireClause>, filterOp: Option<string>): (r: Option<FilterSpec>)
    ensures r.Some? <==> ParseClauses(wire).Some? && ParseMode(filterOp).Some?
    ensures r.Some? ==> r.value.clauses == ParseClauses(wire).value && r.value.mode == ParseMode(filterOp).value
  {
    match (ParseClauses(wire), ParseMode(filterOp))
    case (Some(cs), Some(mode)) => Some(FilterSpec(cs, mode))
    case _ => None
  }

  /** The wire form of a clause list. */
  function WireOf(clauses: seq<Clause>): (r: seq<WireClause>)
    ensures |r| == |clauses|
  {
    seq(|clauses|, i requires 0 <= i < |clauses| => WireClause(clauses[i].column, OpToken(clauses[i].op), clauses[i].operand))
  }

  /** Writing clauses out and reading them back gives them unchanged. */
  lemma ParseClausesOfWire(clauses: seq<Clause>)
    ensures ParseClauses(WireOf(clauses)) == Some(clauses)
  {
    var wire := WireOf(clauses);
    forall i | 0 <= i < |wire| ensures ParseOp(wire[i].token) == Some(clauses[i].op) {
      ParseOpToken(clauses[i].op);
    }
    assert ParseClauses(wire).Some?;
    var cs := ParseClauses(wire).value;
    forall i | 0 <= i < |cs| ensures cs[i] == clauses[i] {
      assert OpToken(cs[i].op) == wire[i].token;
      ParseOpToken(cs[i].op);
    }
    assert cs == clauses;
  }

  /** Writing a specification out and reading it back gives it unchanged. */
  lemma ParseSpecOfWire(spec: FilterSpec)
    ensures ParseSpec(WireOf(spec.clauses), Some(ModeToken(spec.mode))) == Some(spec)
  {
    ParseClausesOfWire(spec.clauses);
    ParseModeToken(spec.mode);
  }

  /** The boolean mask of a scan: one entry per row. */
  function Mask(schema: Schema, rows: seq<Row>, spec: FilterSpec): seq<bool> {
    seq(|rows|, i requires 0 <= i < |rows| => RowPasses(schema, rows[i], spec))
  }

  /** The rows of the view, in table order. */
  function FilterRows(schema: Schema, rows: seq<Row>, spec: FilterSpec): (out: seq<Row>)
    ensures |out| <= |rows|
    ensures forall k :: 0 <= k < |out| ==> RowPasses(schema, out[k], spec)
  {
    Select(rows, row => RowPasses(schema, row, spec))
  }

  /** The positions of the passing rows, ascending. */
  function PassingIndices(schema: Schema, rows: seq<Row>, spec: FilterSpec): seq<nat> {
    Positions(rows, row => RowPasses(schema, row, spec))
  }

  /** The view is exactly the passing rows, in their original order: an
      ordered, possibly non-contiguous subsequence of the table that
      contains row i if and only if row i passes. */
  lemma FilterRowsExact(schema: Schema, rows: seq<Row>, spec: FilterSpec)
    ensures SubsequenceAt(FilterRows(schema, rows, spec), rows, PassingIndices(schema, rows, spec))
    ensures forall i :: 0 <= i < |rows| ==>
      (RowPasses(schema, rows[i], spec) <==> i in PassingIndices(schema, rows, spec))
  {
    SelectSubsequence(rows, row => RowPasses(schema, row, spec));
    PositionsExact(rows, row => RowPasses(schema, row, spec));
  }

  /** Filtering a table that grew by appended rows: the view of the old
      rows followed by the view of the new ones, so only the new rows need
      to be scanned. */
  lemma FilterRowsAppend(schema: Schema, old_rows: seq<Row>, new_rows: seq<Row>, spec: FilterSpec)
    ensures FilterRows(schema, old_rows + new_rows, spec)
      == FilterRows(schema, old_rows, spec) + FilterRows(schema, new_rows, spec)
  {
    SelectAppend(old_rows, new_rows, row => RowPasses(schema, row, spec));
  }

  /** When every row passes, the view is the whole table, unchanged. */
  lemma FilterRowsKeepsAll(schema: Schema, rows: seq<Row>, spec: FilterSpec)
    requires forall i :: 0 <= i < |rows| ==> RowPasses(schema, rows[i], spec)
    ensures FilterRows(schema, rows, spec) == rows
  {
    SelectAll(rows, row => RowPasses(schema, row, spec));
  }

  /** When no row passes, the view is empty. */
  lemma FilterRowsKeepsNone(schema: Schema, rows: seq<Row>, spec: FilterSpec)
    requires forall i :: 0 <= i < |rows| ==> !RowPasses(schema, rows[i], spec)
    ensures FilterRows(schema, rows, spec) == []
  {
    SelectNone(rows, row => RowPasses(schema, row, spec));
  }

  /** An empty filter list keeps every row, whatever the mode. */
  lemma NoClausesKeepEveryRow(schema: Schema, rows: seq<Row>, mode: Mode)
    ensures FilterRows(schema, rows, FilterSpec([], mode)) == rows
  {
    FilterRowsKeepsAll(schema, rows, FilterSpec([], mode));
  }

  /** Comparisons against an absent operand (null or undefined) exclude
      nothing: the view is the whole table, in either mode. */
  lemma AbsentOperandsKeepEveryRow(schema: Schema, rows: seq<Row>, spec: FilterSpec)
    requires forall c :: c in spec.clauses ==> !IsNullTest(c.op) && c.operand.Absent?
    ensures FilterRows(schema, rows, spec) == rows
  {
    forall i | 0 <= i < |rows| ensures RowPasses(schema, rows[i], spec) {
      RowPassesCharacterized(schema, rows[i], spec);
      if |spec.clauses| > 0 {
        assert ClauseHolds(schema, rows[i], spec.clauses[0]);
      }
    }
    FilterRowsKeepsAll(schema, rows, spec);
  }

  /** A view over a table snapshot. */
  function View(table: Table, spec: FilterSpec): seq<Row> {
    FilterRows(table.schema, table.rows, spec)
  }

  /** One scan over a snapshot of the rows: computes the mask and
      materialises the view in the same pass. */
  method Scan(table: Table, spec: FilterSpec) returns (mask: seq<bool>, view: seq<Row>)
    ensures mask == Mask(table.schema, table.rows, spec)
    ensures view == View(table, spec)
  {
    var rows := table.rows;
    mask, view := [], [];
    var i := 0;
    while i < |rows|
      invariant 0 <= i <= |rows|
      invariant mask == Mask(table.schema, rows[..i], spec)
      invariant view == FilterRows(table.schema, rows[..i], spec)
    {
      var passes := RowPasses(table.schema, rows[i], spec);
      assert rows[..i + 1][..i] == rows[..i];
      mask := mask + [passes];
      if passes {
        view := view + [rows[i]];
      }
      i := i + 1;
    }
    assert rows[..i] == rows;
  }
}
