/**
 The predicate evaluator: decides one filter clause on one cell. The
 null policy is applied first (null tests, then an absent operand, then a
 null cell), and only then the operator's semantics on keys.
 */
module Predicate {
  import opened Base
  import opened Tables
  import opened Keys
  import opened Coercion
  import Calendar
  import DateParse

  datatype Op =
    | GreaterThan | LessThan | Equal | NotEqual
    | In | NotIn | Contains | IsNull | IsNotNull

  /** A clause `[column, op, operand]`; for the two null tests the operand
      is ignored and usually Absent. */
  datatype Clause = Clause(column: string, op: Op, operand: Literal)

  /** The outcome of a clause on one row. `Unconstrained` is a clause that
      imposes nothing (its operand is absent, or its column is unknown); it
      lets the row through like a match. */
  datatype Verdict = Match | NoMatch | Unconstrained

  predicate Holds(v: Verdict) {
    v != NoMatch
  }

  predicate IsNullTest(op: Op) {
    op == IsNull || op == IsNotNull
  }

  /** The wire token of each operator. */
  function OpToken(op: Op): string {
    match op
    case GreaterThan => ">"
    case LessThan => "<"
    case Equal => "=="
    case NotEqual => "!="
    case In => "in"
    case NotIn => "not in"
    case Contains => "contains"
    case IsNull => "is null"
    case IsNotNull => "is not null"
  }

  /** Reads an operator token; any other string is not an operator. */
  function ParseOp(token: string): (r: Option<Op>)
    ensures r.Some? ==> OpToken(r.value) == token
  {
    if token == ">" then Some(GreaterThan)
    else if token == "<" then Some(LessThan)
    else if token == "==" then Some(Equal)
    else if token == "!=" then Some(NotEqual)
    else if token == "in" then Some(In)
    else if token == "not in" then Some(NotIn)
    else if token == "contains" then Some(Contains)
    else if token == "is null" then Some(IsNull)
    else if token == "is not null" then Some(IsNotNull)
    else None
  }

  /** Every operator is read back from its own token. */
  lemma ParseOpToken(op: Op)
    ensures ParseOp(OpToken(op)) == Some(op)
  {
  }

  /** `needle` occurs in `s` starting at position i. */
  predicate OccursAt(s: string, needle: string, i: int) {
    0 <= i <= |s| - |needle| && s[i..i + |needle|] == needle
  }

  /** Whether `needle` occurs anywhere in `s`. */
  function HasSubstring(s: string, needle: string): (r: bool)
    ensures r <==> exists i :: OccursAt(s, needle, i)
    decreases |s|
  {
    if |needle| <= |s| && s[..|needle|] == needle then
      assert OccursAt(s, needle, 0);
      true
    else if |s| <= |needle| then
      assert forall i :: !OccursAt(s, needle, i) by {
        forall i | OccursAt(s, needle, i) ensures false {
        }
      }
      false
    else
      var rest := HasSubstring(s[1..], needle);
      assert rest ==> exists i :: OccursAt(s, needle, i) by {
        if rest {
          var j :| OccursAt(s[1..], needle, j);
          assert s[1..][j..j + |needle|] == s[j + 1..j + 1 + |needle|];
          assert OccursAt(s, needle, j + 1);
        }
      }
      assert (exists i :: OccursAt(s, needle, i)) ==> rest by {
        if exists i :: OccursAt(s, needle, i) {
          var i :| OccursAt(s, needle, i);
          assert i != 0;
          assert s[1..][i - 1..i - 1 + |needle|] == s[i..i + |needle|];
          assert OccursAt(s[1..], needle, i - 1);
        }
      }
      rest
  }

  /** The operator on a non-null cell key and a coerced operand. `>` and `<`
      are strict; `contains` is defined on strings only; `in` and `not in`
      need a list operand, every other comparison a single one. */
  function Apply(op: Op, k: Key, operand: Operand): (r: bool)
    ensures r ==> !IsNullTest(op)
    ensures r ==> (operand.Many? <==> op == In || op == NotIn)
    ensures r && op == Contains ==> k.TextKey?
  {
    match (op, operand)
    case (GreaterThan, One(x)) => KeyLess(x, k)
    case (LessThan, One(x)) => KeyLess(k, x)
    case (Equal, One(x)) => k == x
    case (NotEqual, One(x)) => k != x
    case (In, Many(xs)) => k in xs
    case (NotIn, Many(xs)) => k !in xs
    case (Contains, One(x)) => k.TextKey? && x.TextKey? && HasSubstring(k.s, x.s)
    case _ => false
  }

  /** Decides a clause with operator op and operand lit on a cell of a
      column of type t. A coercion failure, a cell of the wrong kind and an
      operator that does not apply all degrade to NoMatch. */
  function Evaluate(t: ColumnType, cell: Cell, op: Op, lit: Literal): (v: Verdict)
    ensures v == Unconstrained <==> !IsNullTest(op) && lit.Absent?
  {
    if op == IsNull then (if cell.None? then Match else NoMatch)
    else if op == IsNotNull then (if cell.Some? then Match else NoMatch)
    else if lit.Absent? then Unconstrained
    else if cell.None? then NoMatch
    else
      match (CellKey(t, cell.value), Coerce(t, lit))
      case (Some(k), Ok(operand)) => if Apply(op, k, operand) then Match else NoMatch
      case _ => NoMatch
  }

  /** `is null` matches exactly the null cells and `is not null` exactly the
      others, whatever the column type and operand. */
  lemma NullTestsSelectNullCells(t: ColumnType, cell: Cell, lit: Literal)
    ensures Holds(Evaluate(t, cell, IsNull, lit)) <==> cell.None?
    ensures Holds(Evaluate(t, cell, IsNotNull, lit)) <==> cell.Some?
  {
  }

  /** A comparison against an absent operand excludes no cell, null or not. */
  lemma AbsentOperandPassesEveryCell(t: ColumnType, cell: Cell, op: Op)
    requires !IsNullTest(op)
    ensures Holds(Evaluate(t, cell, op, Absent))
  {
  }

  /** A null cell never satisfies a comparison with a present operand. */
  lemma NullCellNeverMatches(t: ColumnType, op: Op, lit: Literal)
    requires !IsNullTest(op) && !lit.Absent?
    ensures !Holds(Evaluate(t, None, op, lit))
  {
  }

  /** `>`, `<` and `==` with one operand split the well-typed non-null cells
      three ways: exactly one of them matches. In particular `>` and `<`
      are strict. */
  lemma ComparisonTrichotomy(t: ColumnType, v: Value, lit: Literal)
    requires KindOf(v) == t && !lit.List? && CoerceScalar(t, lit).Ok?
    ensures var gt := Holds(Evaluate(t, Some(v), GreaterThan, lit));
            var lt := Holds(Evaluate(t, Some(v), LessThan, lit));
            var eq := Holds(Evaluate(t, Some(v), Equal, lit));
            (gt || lt || eq) && !(gt && lt) && !(gt && eq) && !(lt && eq)
  {
    var k := CellKey(t, v).value;
    var x := CoerceScalar(t, lit).value;
    KeyTrichotomy(t, k, x);
  }

  /** `==` and `!=` with the same operand partition the well-typed non-null
      cells. */
  lemma EqualNotEqualPartition(t: ColumnType, v: Value, lit: Literal)
    requires KindOf(v) == t && !lit.List? && CoerceScalar(t, lit).Ok?
    ensures Holds(Evaluate(t, Some(v), Equal, lit)) != Holds(Evaluate(t, Some(v), NotEqual, lit))
  {
  }

  /** `in` is membership of the cell in the coerced list, and `not in` is
      its negation on well-typed non-null cells. */
  lemma InNotInComplement(t: ColumnType, v: Value, items: seq<Literal>)
    requires KindOf(v) == t && CoerceList(t, items).Ok?
    ensures Holds(Evaluate(t, Some(v), In, List(items)))
      <==> exists i :: 0 <= i < |items| && CoerceScalar(t, items[i]) == Ok(CellKey(t, v).value)
    ensures Holds(Evaluate(t, Some(v), NotIn, List(items))) != Holds(Evaluate(t, Some(v), In, List(items)))
  {
    var k := CellKey(t, v).value;
    var ks := CoerceList(t, items).value;
    if k in ks {
      var i :| 0 <= i < |ks| && ks[i] == k;
      assert CoerceScalar(t, items[i]) == Ok(k);
    }
  }

  /** On a string column, `contains` with a string operand is a
      case-sensitive substring test. */
  lemma ContainsIsSubstring(s: string, needle: string)
    ensures Holds(Evaluate(String, Some(StringValue(s)), Contains, Text(needle)))
      <==> exists i :: OccursAt(s, needle, i)
  {
  }

  /** `contains` with a present operand never matches a cell of a
      non-string column. */
  lemma ContainsOnlyOnStrings(t: ColumnType, v: Value, lit: Literal)
    requires t != String && !lit.Absent?
    ensures !Holds(Evaluate(t, Some(v), Contains, lit))
  {
    var k := CellKey(t, v);
    if k.Some? {
      assert Fits(t, k.value);
    }
  }

  /** Equality is day-granular on a date column and exact to the
      millisecond on a datetime column. */
  lemma DateEqualityGranularity(cellMs: int, operandMs: int)
    ensures Holds(Evaluate(Date, Some(DateValue(cellMs)), Equal, DateLike(operandMs)))
      <==> Calendar.DayStart(cellMs) == Calendar.DayStart(operandMs)
    ensures Holds(Evaluate(Datetime, Some(DatetimeValue(cellMs)), Equal, DateLike(operandMs)))
      <==> cellMs == operandMs
  {
  }

  /** A date string operand stands for the midnight starting its day: on a
      datetime column `>` keeps the instants after it and `<` those before;
      on a date column the cell's own day is compared with that day. */
  lemma DateStringBounds(y: nat, m: nat, d: nat, cellMs: int)
    requires y < 10000 && Calendar.ValidDate(y, m, d)
    ensures var midnight := Calendar.DayToMs(Calendar.DaysFromCivil(y, m, d));
      var lit := Text(DateParse.FormatMonthDayYear(y, m, d));
      && (Holds(Evaluate(Datetime, Some(DatetimeValue(cellMs)), GreaterThan, lit)) <==> cellMs > midnight)
      && (Holds(Evaluate(Datetime, Some(DatetimeValue(cellMs)), LessThan, lit)) <==> cellMs < midnight)
      && (Holds(Evaluate(Date, Some(DateValue(cellMs)), GreaterThan, lit)) <==> Calendar.DayStart(cellMs) > midnight)
      && (Holds(Evaluate(Date, Some(DateValue(cellMs)), LessThan, lit)) <==> Calendar.DayStart(cellMs) < midnight)
  {
    DateParse.ParseFormatMonthDayYear(y, m, d);
  }

  /** Which way `>` and `<` point: `>` keeps the cells whose key lies above
      the operand's, `<` those below, in the key order of the column type. */
  lemma ComparisonDirection(t: ColumnType, v: Value, lit: Literal, x: Key)
    requires KindOf(v) == t && !lit.List? && CoerceScalar(t, lit) == Ok(x)
    ensures Holds(Evaluate(t, Some(v), GreaterThan, lit)) <==> KeyLess(x, CellKey(t, v).value)
    ensures Holds(Evaluate(t, Some(v), LessThan, lit)) <==> KeyLess(CellKey(t, v).value, x)
  {
  }

  /** On number columns `>` and `<` are the numeric order of the values. */
  lemma NumericDirection(i: int, f: real, n: real)
    ensures Holds(Evaluate(Integer, Some(IntValue(i)), GreaterThan, Number(n))) <==> i as real > n
    ensures Holds(Evaluate(Integer, Some(IntValue(i)), LessThan, Number(n))) <==> (i as real) < n
    ensures Holds(Evaluate(Float, Some(FloatValue(f)), GreaterThan, Number(n))) <==> f > n
    ensures Holds(Evaluate(Float, Some(FloatValue(f)), LessThan, Number(n))) <==> f < n
  {
  }

  /** On a string column `>` keeps the strings after the operand in
      lexicographic order and `<` those before it. */
  lemma StringDirection(s: string, u: string)
    ensures Holds(Evaluate(String, Some(StringValue(s)), GreaterThan, Text(u))) <==> StringLess(u, s)
    ensures Holds(Evaluate(String, Some(StringValue(s)), LessThan, Text(u))) <==> StringLess(s, u)
  {
  }

  /** On a boolean column false comes before true. */
  lemma BooleanDirection(b: bool, c: bool)
    ensures Holds(Evaluate(Boolean, Some(BoolValue(b)), GreaterThan, Bool(c))) <==> b && !c
    ensures Holds(Evaluate(Boolean, Some(BoolValue(b)), LessThan, Bool(c))) <==> !b && c
  {
  }

  /** A one-element list operand behaves like the element itself: `in [x]`
      is `== x` and `not in [x]` is `!= x`, on every cell. */
  lemma InSingletonIsEqual(t: ColumnType, cell: Cell, lit: Literal)
    requires !lit.Absent?
    ensures Holds(Evaluate(t, cell, In, List([lit]))) <==> Holds(Evaluate(t, cell, Equal, lit))
    ensures Holds(Evaluate(t, cell, NotIn, List([lit]))) <==> Holds(Evaluate(t, cell, NotEqual, lit))
  {
  }
}
