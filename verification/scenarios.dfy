/**
 Concrete filter scenarios replayed on the model: each lemma fixes a small
 table and a filter and states the exact view or validity verdict.
 Date and datetime cells are epoch milliseconds in the reference zone (UTC).
 */
module Scenarios {
  import opened Base
  import opened Tables
  import opened Coercion
  import opened Predicate
  import opened Combinator
  import opened FilterEngine
  import opened Validator

  function Where(clauses: seq<Clause>): FilterSpec {
    FilterSpec(clauses, And)
  }

  function Keep(schema: Schema, row: Row, spec: FilterSpec): seq<Row> {
    if RowPasses(schema, row, spec) then [row] else []
  }

  /** A one-clause filter keeps a row exactly when its clause holds. */
  lemma OneClause(schema: Schema, row: Row, c: Clause, mode: Mode)
    ensures RowPasses(schema, row, FilterSpec([c], mode)) == ClauseHolds(schema, row, c)
  {
  }

  /** A two-clause filter needs both clauses under And, one under Or. */
  lemma TwoClauses(schema: Schema, row: Row, c: Clause, d: Clause, mode: Mode)
    ensures RowPasses(schema, row, FilterSpec([c, d], mode))
      == if mode == And then ClauseHolds(schema, row, c) && ClauseHolds(schema, row, d)
         else ClauseHolds(schema, row, c) || ClauseHolds(schema, row, d)
  {
    var rs := ClauseResults(schema, row, [c, d]);
    assert |rs| == 2 && rs[0] == ClauseHolds(schema, row, c) && rs[1] == ClauseHolds(schema, row, d);
    assert (forall i :: 0 <= i < |rs| ==> rs[i]) <==> rs[0] && rs[1];
    assert (exists i :: 0 <= i < |rs| && rs[i]) <==> rs[0] || rs[1];
  }

  /** The view of the first n + 1 rows extends the view of the first n by
      row n, if it passes. */
  lemma FilterRowsStep(schema: Schema, rows: seq<Row>, n: nat, spec: FilterSpec)
    requires n < |rows|
    ensures FilterRows(schema, rows[..n + 1], spec)
      == FilterRows(schema, rows[..n], spec) + Keep(schema, rows[n], spec)
  {
    assert rows[..n + 1][..n] == rows[..n];
  }

  /** The view of a four-row table, row by row. */
  lemma Four(schema: Schema, rows: seq<Row>, spec: FilterSpec)
    requires |rows| == 4
    ensures FilterRows(schema, rows, spec) ==
      Keep(schema, rows[0], spec) + Keep(schema, rows[1], spec)
      + Keep(schema, rows[2], spec) + Keep(schema, rows[3], spec)
  {
    var k0, k1, k2, k3 := Keep(schema, rows[0], spec), Keep(schema, rows[1], spec),
                          Keep(schema, rows[2], spec), Keep(schema, rows[3], spec);
    assert rows[..0] == [] && rows[..4] == rows;
    FilterRowsStep(schema, rows, 0, spec);
    assert FilterRows(schema, rows[..1], spec) == k0;
    FilterRowsStep(schema, rows, 1, spec);
    FilterRowsStep(schema, rows, 2, spec);
    FilterRowsStep(schema, rows, 3, spec);
  }

  /** A one-clause filter over four rows, given whether the clause holds
      on each row. */
  lemma FourOneClause(schema: Schema, rows: seq<Row>, c: Clause, b0: bool, b1: bool, b2: bool, b3: bool)
    requires |rows| == 4
    requires ClauseHolds(schema, rows[0], c) == b0 && ClauseHolds(schema, rows[1], c) == b1
    requires ClauseHolds(schema, rows[2], c) == b2 && ClauseHolds(schema, rows[3], c) == b3
    ensures FilterRows(schema, rows, Where([c]))
      == (if b0 then [rows[0]] else []) + (if b1 then [rows[1]] else [])
       + (if b2 then [rows[2]] else []) + (if b3 then [rows[3]] else [])
  {
    OneClause(schema, rows[0], c, And);
    OneClause(schema, rows[1], c, And);
    OneClause(schema, rows[2], c, And);
    OneClause(schema, rows[3], c, And);
    Four(schema, rows, Where([c]));
  }

  /** What a two-clause filter decides on one row. */
  predicate BothOrEither(schema: Schema, row: Row, c: Clause, d: Clause, mode: Mode) {
    if mode == And then ClauseHolds(schema, row, c) && ClauseHolds(schema, row, d)
    else ClauseHolds(schema, row, c) || ClauseHolds(schema, row, d)
  }

  /** A two-clause filter over four rows, given its decision on each row. */
  lemma FourTwoClauses(schema: Schema, rows: seq<Row>, c: Clause, d: Clause, mode: Mode,
                       b0: bool, b1: bool, b2: bool, b3: bool)
    requires |rows| == 4
    requires BothOrEither(schema, rows[0], c, d, mode) == b0 && BothOrEither(schema, rows[1], c, d, mode) == b1
    requires BothOrEither(schema, rows[2], c, d, mode) == b2 && BothOrEither(schema, rows[3], c, d, mode) == b3
    ensures FilterRows(schema, rows, FilterSpec([c, d], mode))
      == (if b0 then [rows[0]] else []) + (if b1 then [rows[1]] else [])
       + (if b2 then [rows[2]] else []) + (if b3 then [rows[3]] else [])
  {
    TwoClauses(schema, rows[0], c, d, mode);
    TwoClauses(schema, rows[1], c, d, mode);
    TwoClauses(schema, rows[2], c, d, mode);
    TwoClauses(schema, rows[3], c, d, mode);
    Four(schema, rows, FilterSpec([c, d], mode));
  }

  /** The view of a six-row table: the first four rows, then rows 4 and 5. */
  lemma Six(schema: Schema, rows: seq<Row>, spec: FilterSpec)
    requires |rows| == 6
    ensures FilterRows(schema, rows, spec) ==
      FilterRows(schema, rows[..4], spec) + Keep(schema, rows[4], spec) + Keep(schema, rows[5], spec)
  {
    assert rows[..6] == rows;
    FilterRowsStep(schema, rows, 4, spec);
    FilterRowsStep(schema, rows, 5, spec);
  }

  /** The view of a seven-row table: the first four rows, then rows 4 to 6. */
  lemma Seven(schema: Schema, rows: seq<Row>, spec: FilterSpec)
    requires |rows| == 7
    ensures FilterRows(schema, rows, spec) ==
      FilterRows(schema, rows[..4], spec) + Keep(schema, rows[4], spec)
      + Keep(schema, rows[5], spec) + Keep(schema, rows[6], spec)
  {
    assert rows[..7] == rows;
    FilterRowsStep(schema, rows, 4, spec);
    FilterRowsStep(schema, rows, 5, spec);
    FilterRowsStep(schema, rows, 6, spec);
  }

  // ---------------------------------------------------------------------
  // The shared four-row table: w datetime, x integer, y string, z boolean.

  const DataSchema: Schema := map["w" := Datetime, "x" := Integer, "y" := String, "z" := Boolean]

  function DataRow(w: int, x: int, y: string, z: bool): Row {
    map["w" := Some(DatetimeValue(w)), "x" := Some(IntValue(x)),
        "y" := Some(StringValue(y)), "z" := Some(BoolValue(z))]
  }

  /** Rows 0-2 are stamped `now`, row 3 `yesterday`; both are parameters
      because the clock is not part of the model. */
  function DataRows(now: int, yesterday: int): seq<Row> {
    [DataRow(now, 1, "a", true), DataRow(now, 2, "b", false),
     DataRow(now, 3, "c", true), DataRow(yesterday, 4, "d", false)]
  }

  function ViewOf(now: int, yesterday: int, spec: FilterSpec): seq<Row> {
    FilterRows(DataSchema, DataRows(now, yesterday), spec)
  }

  /** A clause on w evaluates the datetime cell. */
  lemma VerdictOnW(w: int, x: int, y: string, z: bool, op: Op, lit: Literal)
    ensures ClauseVerdict(DataSchema, DataRow(w, x, y, z), Clause("w", op, lit))
      == Evaluate(Datetime, Some(DatetimeValue(w)), op, lit)
  {
  }

  /** A clause on x evaluates the integer cell. */
  lemma VerdictOnX(w: int, x: int, y: string, z: bool, op: Op, lit: Literal)
    ensures ClauseVerdict(DataSchema, DataRow(w, x, y, z), Clause("x", op, lit))
      == Evaluate(Integer, Some(IntValue(x)), op, lit)
  {
  }

  /** A clause on y evaluates the string cell. */
  lemma VerdictOnY(w: int, x: int, y: string, z: bool, op: Op, lit: Literal)
    ensures ClauseVerdict(DataSchema, DataRow(w, x, y, z), Clause("y", op, lit))
      == Evaluate(String, Some(StringValue(y)), op, lit)
  {
  }

  /** A clause on z evaluates the boolean cell. */
  lemma VerdictOnZ(w: int, x: int, y: string, z: bool, op: Op, lit: Literal)
    ensures ClauseVerdict(DataSchema, DataRow(w, x, y, z), Clause("z", op, lit))
      == Evaluate(Boolean, Some(BoolValue(z)), op, lit)
  {
  }

  /** Numeric comparison of an integer cell with a number operand. */
  predicate NumericHolds(op: Op, cell: real, operand: real) {
    match op
    case GreaterThan => cell > operand
    case LessThan => cell < operand
    case Equal => cell == operand
    case _ => cell != operand
  }

  /** `x op n` on one row of the shared layout. */
  lemma OnX(w: int, x: int, y: string, z: bool, op: Op, n: real)
    requires op == GreaterThan || op == LessThan || op == Equal || op == NotEqual
    ensures ClauseHolds(DataSchema, DataRow(w, x, y, z), Clause("x", op, Number(n)))
      <==> NumericHolds(op, x as real, n)
  {
    VerdictOnX(w, x, y, z, op, Number(n));
  }

  /** `y == s` on one row. */
  lemma OnYEqual(w: int, x: int, y: string, z: bool, s: string)
    ensures ClauseHolds(DataSchema, DataRow(w, x, y, z), Clause("y", Equal, Text(s))) <==> y == s
  {
    VerdictOnY(w, x, y, z, Equal, Text(s));
  }

  /** `y contains s` on one row. */
  lemma OnYContains(w: int, x: int, y: string, z: bool, s: string)
    ensures ClauseHolds(DataSchema, DataRow(w, x, y, z), Clause("y", Contains, Text(s)))
      <==> HasSubstring(y, s)
  {
    VerdictOnY(w, x, y, z, Contains, Text(s));
  }

  /** The keys of a list of string operands. */
  lemma TextListKeys(items: seq<string>, y: string)
    ensures var lits := seq(|items|, i requires 0 <= i < |items| => Text(items[i]));
      CoerceList(String, lits).Ok? && (Keys.TextKey(y) in CoerceList(String, lits).value <==> y in items)
  {
    var lits := seq(|items|, i requires 0 <= i < |items| => Text(items[i]));
    var ks := CoerceList(String, lits).value;
    assert forall i :: 0 <= i < |ks| ==> ks[i] == Keys.TextKey(items[i]);
    if y in items {
      var i :| 0 <= i < |items| && items[i] == y;
      assert ks[i] == Keys.TextKey(y);
    }
  }

  /** `y in items` and `y not in items` on one row. */
  lemma OnYIn(w: int, x: int, y: string, z: bool, items: seq<string>)
    ensures var lits := seq(|items|, i requires 0 <= i < |items| => Text(items[i]));
      && (ClauseHolds(DataSchema, DataRow(w, x, y, z), Clause("y", In, List(lits))) <==> y in items)
      && (ClauseHolds(DataSchema, DataRow(w, x, y, z), Clause("y", NotIn, List(lits))) <==> y !in items)
  {
    var lits := seq(|items|, i requires 0 <= i < |items| => Text(items[i]));
    TextListKeys(items, y);
    VerdictOnY(w, x, y, z, In, List(lits));
    VerdictOnY(w, x, y, z, NotIn, List(lits));
  }

  /** `z == b` on one row. */
  lemma OnZ(w: int, x: int, y: string, z: bool, b: bool)
    ensures ClauseHolds(DataSchema, DataRow(w, x, y, z), Clause("z", Equal, Bool(b))) <==> z == b
  {
    VerdictOnZ(w, x, y, z, Equal, Bool(b));
  }

  /** `w == d` and `w != d` for a date object d on one row. */
  lemma OnWEquality(w: int, x: int, y: string, z: bool, d: int)
    ensures ClauseHolds(DataSchema, DataRow(w, x, y, z), Clause("w", Equal, DateLike(d))) <==> w == d
    ensures ClauseHolds(DataSchema, DataRow(w, x, y, z), Clause("w", NotEqual, DateLike(d))) <==> w != d
  {
    VerdictOnW(w, x, y, z, Equal, DateLike(d));
    VerdictOnW(w, x, y, z, NotEqual, DateLike(d));
  }

  /** `x op n` over the shared table, given each row's outcome. */
  lemma XView(now: int, yesterday: int, op: Op, n: real)
    requires op == GreaterThan || op == LessThan || op == Equal || op == NotEqual
    ensures var rows := DataRows(now, yesterday);
      var spec := Where([Clause("x", op, Number(n))]);
      FilterRows(DataSchema, rows, spec)
        == (if NumericHolds(op, 1.0, n) then [rows[0]] else [])
         + (if NumericHolds(op, 2.0, n) then [rows[1]] else [])
         + (if NumericHolds(op, 3.0, n) then [rows[2]] else [])
         + (if NumericHolds(op, 4.0, n) then [rows[3]] else [])
  {
    OnX(now, 1, "a", true, op, n);
    OnX(now, 2, "b", false, op, n);
    OnX(now, 3, "c", true, op, n);
    OnX(yesterday, 4, "d", false, op, n);
    FourOneClause(DataSchema, DataRows(now, yesterday), Clause("x", op, Number(n)),
                  NumericHolds(op, 1.0, n), NumericHolds(op, 2.0, n),
                  NumericHolds(op, 3.0, n), NumericHolds(op, 4.0, n));
  }

  /** The three-column table of the long-string scenario: x integer, y
      string, z boolean. */
  const LongSchema: Schema := map["x" := Integer, "y" := String, "z" := Boolean]

  function LongRow(x: int, y: string, z: bool): Row {
    map["x" := Some(IntValue(x)), "y" := Some(StringValue(y)), "z" := Some(BoolValue(z))]
  }

  function LongRows(): seq<Row> {
    [LongRow(1, "123456789012a", true), LongRow(2, "123456789012a", false),
     LongRow(3, "123456789012b", true), LongRow(4, "123456789012b", false)]
  }

  /** `y contains s` on one row of the three-column table. */
  lemma OnLongY(x: int, y: string, z: bool, s: string)
    ensures ClauseHolds(LongSchema, LongRow(x, y, z), Clause("y", Contains, Text(s))) <==> HasSubstring(y, s)
  {
    assert ClauseVerdict(LongSchema, LongRow(x, y, z), Clause("y", Contains, Text(s)))
      == Evaluate(String, Some(StringValue(y)), Contains, Text(s));
  }

  /** `contains` tells apart 13-character strings that differ only in their
      last character: two of the four rows are kept. */
  lemma ContainsLongStrings()
    ensures var view := FilterRows(LongSchema, LongRows(), Where([Clause("y", Contains, Text("123456789012a"))]));
      view == LongRows()[..2] && |view| == 2
  {
    var a, b := "123456789012a", "123456789012b";
    assert HasSubstring(a, a) by {
      assert OccursAt(a, a, 0);
    }
    assert !HasSubstring(b, a) by {
      assert b[0..13][12] != a[12];
      assert !OccursAt(b, a, 0);
      assert forall i :: OccursAt(b, a, i) ==> i == 0;
    }
    OnLongY(1, a, true, a);
    OnLongY(2, a, false, a);
    OnLongY(3, b, true, a);
    OnLongY(4, b, false, a);
    FourOneClause(LongSchema, LongRows(), Clause("y", Contains, Text(a)), true, true, false, false);
  }

  /** `>` is strict and numeric on an integer column compared with a number
      written with a fractional part: `x > 2.0` keeps the last two rows. */
  lemma GreaterThanTwo(now: int, yesterday: int)
    ensures ViewOf(now, yesterday, Where([Clause("x", GreaterThan, Number(2.0))])) == DataRows(now, yesterday)[2..]
  {
    XView(now, yesterday, GreaterThan, 2.0);
  }

  /** `x < 3.0` keeps the first two rows. */
  lemma LessThanThree(now: int, yesterday: int)
    ensures ViewOf(now, yesterday, Where([Clause("x", LessThan, Number(3.0))])) == DataRows(now, yesterday)[..2]
  {
    XView(now, yesterday, LessThan, 3.0);
  }

  /** A bound at the maximum of the data selects nothing. */
  lemma GreaterThanMaximum(now: int, yesterday: int)
    ensures ViewOf(now, yesterday, Where([Clause("x", GreaterThan, Number(4.0))])) == []
  {
    XView(now, yesterday, GreaterThan, 4.0);
  }

  /** Equality on an integer column is exact: `x == 1` keeps row 0 and
      `x == 5` nothing. */
  lemma IntegerEquality(now: int, yesterday: int)
    ensures ViewOf(now, yesterday, Where([Clause("x", Equal, Number(1.0))])) == DataRows(now, yesterday)[..1]
    ensures ViewOf(now, yesterday, Where([Clause("x", Equal, Number(5.0))])) == []
  {
    XView(now, yesterday, Equal, 1.0);
    XView(now, yesterday, Equal, 5.0);
  }

  /** Equality on a string column is exact: `y == "a"` keeps row 0. */
  lemma StringEqualsPresent(now: int, yesterday: int)
    ensures ViewOf(now, yesterday, Where([Clause("y", Equal, Text("a"))])) == DataRows(now, yesterday)[..1]
  {
    OnYEqual(now, 1, "a", true, "a");
    OnYEqual(now, 2, "b", false, "a");
    OnYEqual(now, 3, "c", true, "a");
    OnYEqual(yesterday, 4, "d", false, "a");
    FourOneClause(DataSchema, DataRows(now, yesterday), Clause("y", Equal, Text("a")), true, false, false, false);
  }

  /** `y == "e"`, a value no row holds, keeps nothing. */
  lemma StringEqualsAbsent(now: int, yesterday: int)
    ensures ViewOf(now, yesterday, Where([Clause("y", Equal, Text("e"))])) == []
  {
    OnYEqual(now, 1, "a", true, "e");
    OnYEqual(now, 2, "b", false, "e");
    OnYEqual(now, 3, "c", true, "e");
    OnYEqual(yesterday, 4, "d", false, "e");
    FourOneClause(DataSchema, DataRows(now, yesterday), Clause("y", Equal, Text("e")), false, false, false, false);
  }

  /** Equality on a boolean column: `z == true` keeps rows 0 and 2. */
  lemma BooleanEqualsTrue(now: int, yesterday: int)
    ensures ViewOf(now, yesterday, Where([Clause("z", Equal, Bool(true))]))
      == [DataRows(now, yesterday)[0], DataRows(now, yesterday)[2]]
  {
    OnZ(now, 1, "a", true, true);
    OnZ(now, 2, "b", false, true);
    OnZ(now, 3, "c", true, true);
    OnZ(yesterday, 4, "d", false, true);
    FourOneClause(DataSchema, DataRows(now, yesterday), Clause("z", Equal, Bool(true)), true, false, true, false);
  }

  /** `z == false` keeps rows 1 and 3. */
  lemma BooleanEqualsFalse(now: int, yesterday: int)
    ensures ViewOf(now, yesterday, Where([Clause("z", Equal, Bool(false))]))
      == [DataRows(now, yesterday)[1], DataRows(now, yesterday)[3]]
  {
    OnZ(now, 1, "a", true, false);
    OnZ(now, 2, "b", false, false);
    OnZ(now, 3, "c", true, false);
    OnZ(yesterday, 4, "d", false, false);
    FourOneClause(DataSchema, DataRows(now, yesterday), Clause("z", Equal, Bool(false)), false, true, false, true);
  }

  /** With `now` and `yesterday` distinct instants, `w == yesterday` keeps
      row 3. */
  lemma EqualsYesterday(now: int, yesterday: int)
    requires now != yesterday
    ensures ViewOf(now, yesterday, Where([Clause("w", Equal, DateLike(yesterday))])) == [DataRows(now, yesterday)[3]]
  {
    OnWEquality(now, 1, "a", true, yesterday);
    OnWEquality(now, 2, "b", false, yesterday);
    OnWEquality(now, 3, "c", true, yesterday);
    OnWEquality(yesterday, 4, "d", false, yesterday);
    FourOneClause(DataSchema, DataRows(now, yesterday), Clause("w", Equal, DateLike(yesterday)),
                  false, false, false, true);
  }

  /** `w != yesterday` keeps rows 0-2, the complement of `w == yesterday`. */
  lemma NotEqualsYesterday(now: int, yesterday: int)
    requires now != yesterday
    ensures ViewOf(now, yesterday, Where([Clause("w", NotEqual, DateLike(yesterday))])) == DataRows(now, yesterday)[..3]
  {
    OnWEquality(now, 1, "a", true, yesterday);
    OnWEquality(now, 2, "b", false, yesterday);
    OnWEquality(now, 3, "c", true, yesterday);
    OnWEquality(yesterday, 4, "d", false, yesterday);
    FourOneClause(DataSchema, DataRows(now, yesterday), Clause("w", NotEqual, DateLike(yesterday)),
                  true, true, true, false);
  }

  /** `y in ["a", "b"]` keeps rows 0-1. */
  lemma InList(now: int, yesterday: int)
    ensures ViewOf(now, yesterday, Where([Clause("y", In, List([Text("a"), Text("b")]))])) == DataRows(now, yesterday)[..2]
  {
    var items := ["a", "b"];
    assert seq(|items|, i requires 0 <= i < |items| => Text(items[i])) == [Text("a"), Text("b")];
    OnYIn(now, 1, "a", true, items);
    OnYIn(now, 2, "b", false, items);
    OnYIn(now, 3, "c", true, items);
    OnYIn(yesterday, 4, "d", false, items);
    FourOneClause(DataSchema, DataRows(now, yesterday), Clause("y", In, List([Text("a"), Text("b")])),
                  true, true, false, false);
  }

  /** `y not in ["d"]` keeps rows 0-2. */
  lemma NotInList(now: int, yesterday: int)
    ensures ViewOf(now, yesterday, Where([Clause("y", NotIn, List([Text("d")]))])) == DataRows(now, yesterday)[..3]
  {
    var items := ["d"];
    assert seq(|items|, i requires 0 <= i < |items| => Text(items[i])) == [Text("d")];
    OnYIn(now, 1, "a", true, items);
    OnYIn(now, 2, "b", false, items);
    OnYIn(now, 3, "c", true, items);
    OnYIn(yesterday, 4, "d", false, items);
    FourOneClause(DataSchema, DataRows(now, yesterday), Clause("y", NotIn, List([Text("d")])),
                  true, true, true, false);
  }

  /** Which one-letter strings contain "a" or "b". */
  lemma OneLetterSubstrings()
    ensures HasSubstring("a", "a") && HasSubstring("b", "b")
    ensures !HasSubstring("b", "a") && !HasSubstring("c", "a") && !HasSubstring("d", "a")
    ensures !HasSubstring("a", "b") && !HasSubstring("c", "b") && !HasSubstring("d", "b")
  {
    assert OccursAt("a", "a", 0) && OccursAt("b", "b", 0);
  }

  /** `y contains "a"` keeps only row 0. */
  lemma ContainsLetter(now: int, yesterday: int)
    ensures ViewOf(now, yesterday, Where([Clause("y", Contains, Text("a"))])) == DataRows(now, yesterday)[..1]
  {
    OneLetterSubstrings();
    OnYContains(now, 1, "a", true, "a");
    OnYContains(now, 2, "b", false, "a");
    OnYContains(now, 3, "c", true, "a");
    OnYContains(yesterday, 4, "d", false, "a");
    FourOneClause(DataSchema, DataRows(now, yesterday), Clause("y", Contains, Text("a")), true, false, false, false);
  }

  /** Two clauses are conjoined by default: `x > 1` and `x < 4` keep rows 1-2. */
  lemma ConjunctionByDefault(now: int, yesterday: int)
    ensures ViewOf(now, yesterday, Where([Clause("x", GreaterThan, Number(1.0)), Clause("x", LessThan, Number(4.0))]))
      == DataRows(now, yesterday)[1..3]
  {
    BetweenOneAndFour(now, yesterday);
    FourTwoClauses(DataSchema, DataRows(now, yesterday),
                   Clause("x", GreaterThan, Number(1.0)), Clause("x", LessThan, Number(4.0)), And,
                   false, true, true, false);
  }

  /** Row by row, `x > 1` and `x < 4` both hold on rows 1 and 2 only. */
  lemma BetweenOneAndFour(now: int, yesterday: int)
    ensures var rows, c, d := DataRows(now, yesterday), Clause("x", GreaterThan, Number(1.0)), Clause("x", LessThan, Number(4.0));
      !BothOrEither(DataSchema, rows[0], c, d, And) && BothOrEither(DataSchema, rows[1], c, d, And)
      && BothOrEither(DataSchema, rows[2], c, d, And) && !BothOrEither(DataSchema, rows[3], c, d, And)
  {
    OnX(now, 1, "a", true, GreaterThan, 1.0);
    OnX(now, 2, "b", false, GreaterThan, 1.0);
    OnX(now, 3, "c", true, GreaterThan, 1.0);
    OnX(yesterday, 4, "d", false, GreaterThan, 1.0);
    OnX(now, 1, "a", true, LessThan, 4.0);
    OnX(now, 2, "b", false, LessThan, 4.0);
    OnX(now, 3, "c", true, LessThan, 4.0);
    OnX(yesterday, 4, "d", false, LessThan, 4.0);
  }

  /** Under `filter_op: "or"` the clauses are disjoined: `y contains "a"` or
      `y contains "b"` keep rows 0-1. */
  lemma DisjunctionUnderOr(now: int, yesterday: int)
    ensures ViewOf(now, yesterday, FilterSpec([Clause("y", Contains, Text("a")), Clause("y", Contains, Text("b"))], Or))
      == DataRows(now, yesterday)[..2]
  {
    OneLetterSubstrings();
    OnYContains(now, 1, "a", true, "a");
    OnYContains(now, 2, "b", false, "a");
    OnYContains(now, 3, "c", true, "a");
    OnYContains(yesterday, 4, "d", false, "a");
    OnYContains(now, 1, "a", true, "b");
    OnYContains(now, 2, "b", false, "b");
    OnYContains(now, 3, "c", true, "b");
    OnYContains(yesterday, 4, "d", false, "b");
    FourTwoClauses(DataSchema, DataRows(now, yesterday),
                   Clause("y", Contains, Text("a")), Clause("y", Contains, Text("b")), Or,
                   true, true, false, false);
  }

  // ---------------------------------------------------------------------
  // Date strings against datetime and date columns.

  /** "10/01/2018" is midnight UTC of October 1st 2018. */
  lemma ParseOctober1st()
    ensures DateParse.ParseDateTime("10/01/2018") == Some(DateParse.DateTime(2018, 10, 1, 0, 0, 0, 0))
  {
    October1stText();
    DateParse.ParseFormatMonthDayYear(2018, 10, 1);
  }

  lemma October1stText()
    ensures DateParse.FormatMonthDayYear(2018, 10, 1) == "10/01/2018"
  {
    assert DateParse.Pad(10, 2) == "10";
    assert DateParse.Pad(1, 2) == "01";
    assert DateParse.Pad(2018, 4) == "2018";
  }

  /** "10/02/2018" is midnight UTC of October 2nd 2018. */
  lemma ParseOctober2nd()
    ensures DateParse.ParseDateTime("10/02/2018") == Some(DateParse.DateTime(2018, 10, 2, 0, 0, 0, 0))
  {
    October2ndText();
    DateParse.ParseFormatMonthDayYear(2018, 10, 2);
  }

  lemma October2ndText()
    ensures DateParse.FormatMonthDayYear(2018, 10, 2) == "10/02/2018"
  {
    assert DateParse.Pad(10, 2) == "10";
    assert DateParse.Pad(2, 2) == "02";
    assert DateParse.Pad(2018, 4) == "2018";
  }

  /** Four datetime rows on the first of September, October, November and
      December 2018: 05:01 UTC for the first three, 06:01 UTC for December. */
  function DateRangeRows(): seq<Row> {
    [DataRow(1535778060000, 1, "a", true), DataRow(1538370060000, 2, "b", false),
     DataRow(1541048460000, 3, "c", true), DataRow(1543644060000, 4, "d", false)]
  }

  /** On a datetime column `>` and `<` compare epoch milliseconds with the
      instant the operand coerces to. */
  lemma InstantComparison(ms: int, bound: Literal, b: int)
    requires !bound.List? && CoerceScalar(Datetime, bound) == Ok(Keys.TimeKey(b))
    ensures Holds(Evaluate(Datetime, Some(DatetimeValue(ms)), GreaterThan, bound)) <==> ms > b
    ensures Holds(Evaluate(Datetime, Some(DatetimeValue(ms)), LessThan, bound)) <==> ms < b
  {
  }

  /** `w > bound` and `w < bound` on one row of the shared layout. */
  lemma BoundOnW(w: int, x: int, y: string, z: bool, op: Op, bound: Literal, b: int)
    requires op == GreaterThan || op == LessThan
    requires !bound.List? && CoerceScalar(Datetime, bound) == Ok(Keys.TimeKey(b))
    ensures ClauseHolds(DataSchema, DataRow(w, x, y, z), Clause("w", op, bound))
      <==> if op == GreaterThan then w > b else w < b
  {
    InstantComparison(w, bound, b);
    VerdictOnW(w, x, y, z, op, bound);
  }

  /** The range table under `w > bound` for a bound at midnight UTC of
      October 1st: the last three rows. */
  lemma DateRangeAbove(bound: Literal)
    requires !bound.List? && CoerceScalar(Datetime, bound) == Ok(Keys.TimeKey(1538352000000))
    ensures var rows := DateRangeRows();
      FilterRows(DataSchema, rows, Where([Clause("w", GreaterThan, bound)])) == rows[1..4]
  {
    var b := 1538352000000;
    BoundOnW(1535778060000, 1, "a", true, GreaterThan, bound, b);
    BoundOnW(1538370060000, 2, "b", false, GreaterThan, bound, b);
    BoundOnW(1541048460000, 3, "c", true, GreaterThan, bound, b);
    BoundOnW(1543644060000, 4, "d", false, GreaterThan, bound, b);
    FourOneClause(DataSchema, DateRangeRows(), Clause("w", GreaterThan, bound), false, true, true, true);
  }

  /** The range table under `w < bound` for the same bound: the first row. */
  lemma DateRangeBelow(bound: Literal)
    requires !bound.List? && CoerceScalar(Datetime, bound) == Ok(Keys.TimeKey(1538352000000))
    ensures var rows := DateRangeRows();
      FilterRows(DataSchema, rows, Where([Clause("w", LessThan, bound)])) == [rows[0]]
  {
    var b := 1538352000000;
    BoundOnW(1535778060000, 1, "a", true, LessThan, bound, b);
    BoundOnW(1538370060000, 2, "b", false, LessThan, bound, b);
    BoundOnW(1541048460000, 3, "c", true, LessThan, bound, b);
    BoundOnW(1543644060000, 4, "d", false, LessThan, bound, b);
    FourOneClause(DataSchema, DateRangeRows(), Clause("w", LessThan, bound), true, false, false, false);
  }

  /** On a datetime column `> "10/01/2018"` keeps the October 1st 05:01,
      November and December rows, and `<` keeps only the September row. */
  lemma DatetimeAgainstDateString()
    ensures FilterRows(DataSchema, DateRangeRows(), Where([Clause("w", GreaterThan, Text("10/01/2018"))]))
      == DateRangeRows()[1..4]
    ensures FilterRows(DataSchema, DateRangeRows(), Where([Clause("w", LessThan, Text("10/01/2018"))]))
      == [DateRangeRows()[0]]
  {
    ParseOctober1st();
    DateRangeAbove(Text("10/01/2018"));
    DateRangeBelow(Text("10/01/2018"));
  }

  // ---------------------------------------------------------------------
  // A date column: cells are compared at day granularity.

  const DaySchema: Schema := map["w" := Date]

  function DayRow(ms: int): Row {
    map["w" := Some(DateValue(ms))]
  }

  /** Four date cells: midnight UTC of the first of September, October,
      November and December 2018. */
  function DayRows(): seq<Row> {
    [DayRow(1535760000000), DayRow(1538352000000), DayRow(1541030400000), DayRow(1543622400000)]
  }

  /** The date cells of the table already lie on midnights. */
  lemma DayStartsOfDayRows()
    ensures Calendar.DayStart(1535760000000) == 1535760000000
    ensures Calendar.DayStart(1538352000000) == 1538352000000
    ensures Calendar.DayStart(1541030400000) == 1541030400000
    ensures Calendar.DayStart(1543622400000) == 1543622400000
  {
  }

  /** `w > bound` and `w < bound` on a date cell compare the cell's day
      start with the operand's. */
  lemma OnDay(ms: int, op: Op, bound: Literal, b: int)
    requires op == GreaterThan || op == LessThan
    requires !bound.List? && CoerceScalar(Date, bound) == Ok(Keys.TimeKey(b))
    ensures ClauseHolds(DaySchema, DayRow(ms), Clause("w", op, bound))
      <==> if op == GreaterThan then Calendar.DayStart(ms) > b else Calendar.DayStart(ms) < b
  {
    assert ClauseVerdict(DaySchema, DayRow(ms), Clause("w", op, bound))
      == Evaluate(Date, Some(DateValue(ms)), op, bound);
  }

  /** The date table under `w > bound` for an operand on October 2nd: the
      November and December rows. */
  lemma DayViewAbove(bound: Literal)
    requires !bound.List? && CoerceScalar(Date, bound) == Ok(Keys.TimeKey(1538438400000))
    ensures FilterRows(DaySchema, DayRows(), Where([Clause("w", GreaterThan, bound)])) == DayRows()[2..4]
  {
    var b := 1538438400000;
    DayStartsOfDayRows();
    OnDay(1535760000000, GreaterThan, bound, b);
    OnDay(1538352000000, GreaterThan, bound, b);
    OnDay(1541030400000, GreaterThan, bound, b);
    OnDay(1543622400000, GreaterThan, bound, b);
    FourOneClause(DaySchema, DayRows(), Clause("w", GreaterThan, bound), false, false, true, true);
  }

  /** The date table under `w < bound` for the same operand: the September
      and October rows. */
  lemma DayViewBelow(bound: Literal)
    requires !bound.List? && CoerceScalar(Date, bound) == Ok(Keys.TimeKey(1538438400000))
    ensures FilterRows(DaySchema, DayRows(), Where([Clause("w", LessThan, bound)])) == DayRows()[0..2]
  {
    var b := 1538438400000;
    DayStartsOfDayRows();
    OnDay(1535760000000, LessThan, bound, b);
    OnDay(1538352000000, LessThan, bound, b);
    OnDay(1541030400000, LessThan, bound, b);
    OnDay(1543622400000, LessThan, bound, b);
    FourOneClause(DaySchema, DayRows(), Clause("w", LessThan, bound), true, true, false, false);
  }

  /** On a date column `> "10/02/2018"` keeps the November and December
      rows and `<` keeps the September and October rows. */
  lemma DateColumnAgainstDateString()
    ensures FilterRows(DaySchema, DayRows(), Where([Clause("w", GreaterThan, Text("10/02/2018"))]))
      == DayRows()[2..4]
    ensures FilterRows(DaySchema, DayRows(), Where([Clause("w", LessThan, Text("10/02/2018"))]))
      == DayRows()[0..2]
  {
    ParseOctober2nd();
    DayViewAbove(Text("10/02/2018"));
    DayViewBelow(Text("10/02/2018"));
  }

  // ---------------------------------------------------------------------
  // Two-column tables with null cells.

  function PairSchema(tx: ColumnType, ty: ColumnType): Schema {
    map["x" := tx, "y" := ty]
  }

  function PairRow(x: Cell, y: Cell): Row {
    map["x" := x, "y" := y]
  }

  function Int(i: int): Cell {
    Some(IntValue(i))
  }

  /** A clause on x of a two-column row evaluates the x cell. */
  lemma PairVerdictX(tx: ColumnType, ty: ColumnType, x: Cell, y: Cell, op: Op, lit: Literal)
    ensures ClauseHolds(PairSchema(tx, ty), PairRow(x, y), Clause("x", op, lit))
      <==> Holds(Evaluate(tx, x, op, lit))
  {
  }

  /** A clause on y of a two-column row evaluates the y cell. */
  lemma PairVerdictY(tx: ColumnType, ty: ColumnType, x: Cell, y: Cell, op: Op, lit: Literal)
    ensures ClauseHolds(PairSchema(tx, ty), PairRow(x, y), Clause("y", op, lit))
      <==> Holds(Evaluate(ty, y, op, lit))
  {
  }

  /** `y is null` on one two-column row. */
  lemma OnYNull(tx: ColumnType, ty: ColumnType, x: Cell, y: Cell)
    ensures ClauseHolds(PairSchema(tx, ty), PairRow(x, y), Clause("y", IsNull, Absent)) <==> y.None?
  {
    PairVerdictY(tx, ty, x, y, IsNull, Absent);
    NullTestsSelectNullCells(ty, y, Absent);
  }

  /** `y is null` on a seven-row table whose first two y cells are null
      keeps exactly those two rows, whatever the type and values of the
      other five. */
  lemma IsNullKeepsNullRows(ty: ColumnType, v2: Value, v3: Value, v4: Value, v5: Value, v6: Value)
    ensures var rows := [PairRow(Int(1), None), PairRow(Int(2), None), PairRow(Int(3), Some(v2)),
                         PairRow(Int(4), Some(v3)), PairRow(Int(1), Some(v4)), PairRow(Int(2), Some(v5)),
                         PairRow(Int(3), Some(v6))];
      FilterRows(PairSchema(Integer, ty), rows, Where([Clause("y", IsNull, Absent)])) == rows[..2]
  {
    var rows := [PairRow(Int(1), None), PairRow(Int(2), None), PairRow(Int(3), Some(v2)),
                 PairRow(Int(4), Some(v3)), PairRow(Int(1), Some(v4)), PairRow(Int(2), Some(v5)),
                 PairRow(Int(3), Some(v6))];
    var schema, c := PairSchema(Integer, ty), Clause("y", IsNull, Absent);
    OnYNull(Integer, ty, Int(1), None);
    OnYNull(Integer, ty, Int(2), None);
    OnYNull(Integer, ty, Int(3), Some(v2));
    OnYNull(Integer, ty, Int(4), Some(v3));
    OnYNull(Integer, ty, Int(1), Some(v4));
    OnYNull(Integer, ty, Int(2), Some(v5));
    OnYNull(Integer, ty, Int(3), Some(v6));
    OneClause(schema, rows[0], c, And);
    OneClause(schema, rows[1], c, And);
    OneClause(schema, rows[2], c, And);
    OneClause(schema, rows[3], c, And);
    OneClause(schema, rows[4], c, And);
    OneClause(schema, rows[5], c, And);
    OneClause(schema, rows[6], c, And);
    Seven(schema, rows, Where([c]));
    Four(schema, rows[..4], Where([c]));
  }

  /** `is null` on string, integer and datetime columns. The datetime cells
      hold January 1st 2019, midnight UTC. */
  lemma IsNullOnEachColumnType()
    ensures var rows := [PairRow(Int(1), None), PairRow(Int(2), None),
                         PairRow(Int(3), Some(StringValue("x"))), PairRow(Int(4), Some(StringValue("x"))),
                         PairRow(Int(1), Some(StringValue("y"))), PairRow(Int(2), Some(StringValue("x"))),
                         PairRow(Int(3), Some(StringValue("y")))];
      FilterRows(PairSchema(Integer, String), rows, Where([Clause("y", IsNull, Absent)])) == rows[..2]
    ensures var rows := [PairRow(Int(1), None), PairRow(Int(2), None), PairRow(Int(3), Int(1)),
                         PairRow(Int(4), Int(2)), PairRow(Int(1), Int(3)), PairRow(Int(2), Int(4)),
                         PairRow(Int(3), Int(5))];
      FilterRows(PairSchema(Integer, Integer), rows, Where([Clause("y", IsNull, Absent)])) == rows[..2]
    ensures var d := Some(DatetimeValue(1546300800000));
      var rows := [PairRow(Int(1), None), PairRow(Int(2), None), PairRow(Int(3), d),
                   PairRow(Int(4), d), PairRow(Int(1), d), PairRow(Int(2), d), PairRow(Int(3), d)];
      FilterRows(PairSchema(Integer, Datetime), rows, Where([Clause("y", IsNull, Absent)])) == rows[..2]
  {
    IsNullKeepsNullRows(String, StringValue("x"), StringValue("x"), StringValue("y"),
                        StringValue("x"), StringValue("y"));
    IsNullKeepsNullRows(Integer, IntValue(1), IntValue(2), IntValue(3), IntValue(4), IntValue(5));
    var d := DatetimeValue(1546300800000);
    IsNullKeepsNullRows(Datetime, d, d, d, d, d);
  }

  /** The six-row table with null x cells, its non-null x cells a, b, c. */
  function NullRows(a: Value, b: Value, c: Value): seq<Row> {
    [PairRow(Some(a), Int(1)), PairRow(Some(b), Int(1)), PairRow(None, Int(1)),
     PairRow(None, Int(1)), PairRow(Some(c), Int(2)), PairRow(None, Int(2))]
  }

  /** A comparison on x drops every row whose x is null; the other rows
      stay exactly when their cell matches. */
  lemma NullRowsView(tx: ColumnType, a: Value, b: Value, c: Value, op: Op, n: real)
    requires op == GreaterThan || op == LessThan
    ensures var rows := NullRows(a, b, c);
      FilterRows(PairSchema(tx, Integer), rows, Where([Clause("x", op, Number(n))]))
        == (if Holds(Evaluate(tx, Some(a), op, Number(n))) then [rows[0]] else [])
         + (if Holds(Evaluate(tx, Some(b), op, Number(n))) then [rows[1]] else [])
         + (if Holds(Evaluate(tx, Some(c), op, Number(n))) then [rows[4]] else [])
  {
    var rows := NullRows(a, b, c);
    var schema, k := PairSchema(tx, Integer), Clause("x", op, Number(n));
    NullCellNeverMatches(tx, op, Number(n));
    PairVerdictX(tx, Integer, Some(a), Int(1), op, Number(n));
    PairVerdictX(tx, Integer, Some(b), Int(1), op, Number(n));
    PairVerdictX(tx, Integer, None, Int(1), op, Number(n));
    PairVerdictX(tx, Integer, Some(c), Int(2), op, Number(n));
    PairVerdictX(tx, Integer, None, Int(2), op, Number(n));
    OneClause(schema, rows[0], k, And);
    OneClause(schema, rows[1], k, And);
    OneClause(schema, rows[2], k, And);
    OneClause(schema, rows[3], k, And);
    OneClause(schema, rows[4], k, And);
    OneClause(schema, rows[5], k, And);
    Six(schema, rows, Where([k]));
    Four(schema, rows[..4], Where([k]));
  }

  /** A number operand against a non-null integer or float cell. */
  lemma NumberCell(v: Value, op: Op, n: real)
    requires op == GreaterThan || op == LessThan || op == Equal || op == NotEqual
    ensures v.IntValue? ==> (Holds(Evaluate(Integer, Some(v), op, Number(n))) <==> NumericHolds(op, v.i as real, n))
    ensures v.FloatValue? ==> (Holds(Evaluate(Float, Some(v), op, Number(n))) <==> NumericHolds(op, v.f, n))
  {
  }

  /** `x > 2` on an integer column with nulls keeps the rows holding 3 and 4. */
  lemma IntegerGreaterSkipsNulls()
    ensures var rows := NullRows(IntValue(3), IntValue(2), IntValue(4));
      FilterRows(PairSchema(Integer, Integer), rows, Where([Clause("x", GreaterThan, Number(2.0))]))
        == [rows[0], rows[4]]
  {
    NumberCell(IntValue(3), GreaterThan, 2.0);
    NumberCell(IntValue(2), GreaterThan, 2.0);
    NumberCell(IntValue(4), GreaterThan, 2.0);
    NullRowsView(Integer, IntValue(3), IntValue(2), IntValue(4), GreaterThan, 2.0);
  }

  /** `x < 3` on the same table keeps only the row holding 2. */
  lemma IntegerLessSkipsNulls()
    ensures var rows := NullRows(IntValue(3), IntValue(2), IntValue(4));
      FilterRows(PairSchema(Integer, Integer), rows, Where([Clause("x", LessThan, Number(3.0))]))
        == [rows[1]]
  {
    NumberCell(IntValue(3), LessThan, 3.0);
    NumberCell(IntValue(2), LessThan, 3.0);
    NumberCell(IntValue(4), LessThan, 3.0);
    NullRowsView(Integer, IntValue(3), IntValue(2), IntValue(4), LessThan, 3.0);
  }

  /** `x > 2.5` on a float column with nulls keeps the rows holding 3.5 and
      4.5: 2.5 itself is excluded. */
  lemma FloatGreaterSkipsNulls()
    ensures var rows := NullRows(FloatValue(3.5), FloatValue(2.5), FloatValue(4.5));
      FilterRows(PairSchema(Float, Integer), rows, Where([Clause("x", GreaterThan, Number(2.5))]))
        == [rows[0], rows[4]]
  {
    NumberCell(FloatValue(3.5), GreaterThan, 2.5);
    NumberCell(FloatValue(2.5), GreaterThan, 2.5);
    NumberCell(FloatValue(4.5), GreaterThan, 2.5);
    NullRowsView(Float, FloatValue(3.5), FloatValue(2.5), FloatValue(4.5), GreaterThan, 2.5);
  }

  /** `x > null` executes as no constraint: the whole float table, null
      cells included, is in the view. */
  lemma NullOperandKeepsEveryRow()
    ensures var rows := NullRows(FloatValue(3.5), FloatValue(2.5), FloatValue(4.5));
      FilterRows(PairSchema(Float, Integer), rows, Where([Clause("x", GreaterThan, Absent)])) == rows
  {
    var rows := NullRows(FloatValue(3.5), FloatValue(2.5), FloatValue(4.5));
    AbsentOperandsKeepEveryRow(PairSchema(Float, Integer), rows, Where([Clause("x", GreaterThan, Absent)]));
  }

  // ---------------------------------------------------------------------
  // Validity of single clauses.

  /** On the shared table: a number against an integer column is valid, so
      is an empty string; null and undefined operands (both absent) are
      not; a column the table does not have is. */
  lemma ValidityOnSharedTable()
    ensures IsValidFilter(DataSchema, Clause("x", Equal, Number(2.0)))
    ensures !IsValidFilter(DataSchema, Clause("x", LessThan, Absent))
    ensures !IsValidFilter(DataSchema, Clause("x", GreaterThan, Absent))
    ensures IsValidFilter(DataSchema, Clause("x", Equal, Text("")))
    ensures IsValidFilter(DataSchema, Clause("not a valid column", Equal, Number(2.0)))
  {
  }

  /** On a date column "01-01-1970" (MM-DD-YYYY) is a valid operand. */
  lemma ValidityOfDashDate()
    ensures IsValidFilter(map["x" := String, "y" := Date], Clause("y", Equal, Text("01-01-1970")))
  {
    var t := DateParse.DateTime(1970, 1, 1, 0, 0, 0, 0);
    assert DateParse.Pad(1, 2) == "01";
    assert DateParse.Pad(1970, 4) == "1970";
    assert DateParse.Format(t, DateParse.MonthDayYear('-'), DateParse.NoTime) == "01-01-1970";
    DateParse.ParseFormat(t, DateParse.MonthDayYear('-'), DateParse.NoTime);
  }

  /** On a date column "1234", too short for any format, is not a valid
      operand. */
  lemma InvalidityOfShortDate()
    ensures !IsValidFilter(map["x" := String, "y" := Date], Clause("y", LessThan, Text("1234")))
  {
  }

  /** The date part of "2019-11-02 11:11:11.111". */
  lemma IsoDateText()
    ensures DateParse.DatePart(DateParse.DateTime(2019, 11, 2, 11, 11, 11, 111), DateParse.YearMonthDay('-'))
      == "2019-11-02"
  {
    assert DateParse.Pad(2019, 4) == "2019";
    assert DateParse.Pad(11, 2) == "11";
    assert DateParse.Pad(2, 2) == "02";
  }

  /** The time part of "2019-11-02 11:11:11.111". */
  lemma MillisTimeText()
    ensures DateParse.TimePart(DateParse.DateTime(2019, 11, 2, 11, 11, 11, 111), DateParse.Millis)
      == " 11:11:11.111"
  {
    assert DateParse.Pad(11, 2) == "11";
    assert DateParse.Pad(111, 3) == "111";
  }

  /** "2019-11-02 11:11:11.111" is that instant written YYYY-MM-DD with
      seconds and milliseconds. */
  lemma IsoMillisText()
    ensures DateParse.Format(DateParse.DateTime(2019, 11, 2, 11, 11, 11, 111), DateParse.YearMonthDay('-'),
                             DateParse.Millis) == "2019-11-02 11:11:11.111"
  {
    IsoDateText();
    MillisTimeText();
  }

  /** On a datetime column "2019-11-02 11:11:11.111" is a valid operand. */
  lemma ValidityOfDatetimeString()
    ensures IsValidFilter(map["x" := String, "y" := Datetime],
                          Clause("y", Equal, Text("2019-11-02 11:11:11.111")))
  {
    IsoMillisText();
    DateParse.ParseFormat(DateParse.DateTime(2019, 11, 2, 11, 11, 11, 111), DateParse.YearMonthDay('-'),
                          DateParse.Millis);
  }

  /** A time part with ':' where the '.' before the milliseconds belongs
      does not parse. */
  lemma ColonBeforeMillisRejected()
    ensures DateParse.ParseTimePart(" 11:11:11:111").None?
  {
    assert " 11:11:11:111"[9] == ':';
  }

  /** "2019-11-02 11:11:11:111" is not a valid operand on a datetime column. */
  lemma InvalidityOfMisseparatedDatetime()
    ensures !IsValidFilter(map["x" := String, "y" := Datetime],
                           Clause("y", GreaterThan, Text("2019-11-02 11:11:11:111")))
  {
    var bad := "2019-11-02 11:11:11:111";
    assert bad[10..] == " 11:11:11:111";
    ColonBeforeMillisRejected();
  }

  /** The date part of "2020/12/01 23:30:55". */
  lemma SlashDateText()
    ensures DateParse.DatePart(DateParse.DateTime(2020, 12, 1, 23, 30, 55, 0), DateParse.YearMonthDay('/'))
      == "2020/12/01"
  {
    assert DateParse.Pad(2020, 4) == "2020";
    assert DateParse.Pad(12, 2) == "12";
    assert DateParse.Pad(1, 2) == "01";
  }

  /** The time part of "2020/12/01 23:30:55". */
  lemma SecondsTimeText()
    ensures DateParse.TimePart(DateParse.DateTime(2020, 12, 1, 23, 30, 55, 0), DateParse.Seconds) == " 23:30:55"
  {
    assert DateParse.Pad(23, 2) == "23";
    assert DateParse.Pad(30, 2) == "30";
    assert DateParse.Pad(55, 2) == "55";
  }

  /** "2020/12/01 23:30:55" is that instant written YYYY/MM/DD with seconds. */
  lemma SlashSecondsText()
    ensures DateParse.Format(DateParse.DateTime(2020, 12, 1, 23, 30, 55, 0), DateParse.YearMonthDay('/'),
                             DateParse.Seconds) == "2020/12/01 23:30:55"
  {
    SlashDateText();
    SecondsTimeText();
  }

  /** "2020/12/01 23:30:55" (YYYY/MM/DD HH:mm:ss) is a valid operand on a
      datetime column. */
  lemma ValidityOfSlashDatetime()
    ensures IsValidFilter(DataSchema, Clause("w", Equal, Text("2020/12/01 23:30:55")))
  {
    SlashSecondsText();
    DateParse.ParseFormat(DateParse.DateTime(2020, 12, 1, 23, 30, 55, 0), DateParse.YearMonthDay('/'),
                          DateParse.Seconds);
  }
}
