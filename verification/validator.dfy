/**
 The pre-flight validity check of a single clause against a schema. It is
 data-independent and deliberately stricter than execution: an absent
 operand, which execution treats as "no constraint", makes a clause invalid.
 */
module Validator {
  import opened Base
  import opened Tables
  import opened Coercion
  import opened Predicate

  /** Whether a clause is well formed for the schema: unknown columns and
      the null tests are always valid; otherwise the operand must be
      present, and on date and datetime columns it must coerce. Any other
      operand is accepted, even one execution cannot coerce. */
  function IsValidFilter(schema: Schema, c: Clause): (r: bool)
    ensures c.column !in schema || IsNullTest(c.op) ==> r
    ensures r && c.column in schema && !IsNullTest(c.op) ==>
      !c.operand.Absent? && Evaluate(schema[c.column], None, c.op, c.operand) == NoMatch
    ensures r && c.column in schema && !IsNullTest(c.op) && (schema[c.column] == Date || schema[c.column] == Datetime)
      ==> Coerce(schema[c.column], c.operand).Ok?
  {
    match TypeOf(schema, c.column)
    case None => true
    case Some(t) =>
      if IsNullTest(c.op) then true
      else if c.operand.Absent? then false
      else if t == Date || t == Datetime then Coerce(t, c.operand).Ok?
      else true
  }

  /** A column the schema does not know never invalidates a clause. */
  lemma UnknownColumnIsValid(schema: Schema, c: Clause)
    requires c.column !in schema
    ensures IsValidFilter(schema, c)
  {
  }

  /** The two null tests need no operand and are always valid. */
  lemma NullTestsAreValid(schema: Schema, column: string, op: Op, operand: Literal)
    requires IsNullTest(op)
    ensures IsValidFilter(schema, Clause(column, op, operand))
  {
  }

  /** The asymmetry between validation and execution: on a known column a
      comparison with an absent operand is reported invalid, yet executing
      it constrains no cell. */
  lemma AbsentOperandInvalidButUnconstrained(schema: Schema, column: string, op: Op, cell: Cell)
    requires column in schema && !IsNullTest(op)
    ensures !IsValidFilter(schema, Clause(column, op, Absent))
    ensures Evaluate(schema[column], cell, op, Absent) == Unconstrained
  {
  }

  /** On date and datetime columns a present operand is valid exactly when
      it coerces, so a valid clause never meets a coercion failure there. */
  lemma DateClauseValidIffCoerces(schema: Schema, c: Clause)
    requires c.column in schema && (schema[c.column] == Date || schema[c.column] == Datetime)
    requires !IsNullTest(c.op) && !c.operand.Absent?
    ensures IsValidFilter(schema, c) <==> Coerce(schema[c.column], c.operand).Ok?
  {
  }

  /** On the other column types every present operand is valid, including
      an empty string against a numeric column. */
  lemma NonDateOperandsAreValid(schema: Schema, c: Clause)
    requires c.column in schema && schema[c.column] != Date && schema[c.column] != Datetime
    requires !c.operand.Absent?
    ensures IsValidFilter(schema, c)
  {
  }
}
