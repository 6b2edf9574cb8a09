/**
 Literal coercion: turning the raw operand of a filter clause into the key
 family of the column it is compared against. Operands arrive as a closed
 sum of the kinds a caller can pass (number, string, boolean, date object,
 list, or nothing at all for null and undefined).
 */
module Coercion {
  import opened Base
  import opened Tables
  import opened Keys
  import Calendar
  import DateParse

  /** A raw clause operand. Numbers are exact reals; a date object is its
      epoch milliseconds; `Absent` stands for both null and undefined. */
  datatype Literal =
    | Number(n: real)
    | Text(s: string)
    | Bool(b: bool)
    | DateLike(ms: int)
    | List(items: seq<Literal>)
    | Absent

  datatype CoercionError =
    | TypeMismatch      // operand kind cannot stand for a value of the column type
    | BadDateString     // a string that is in none of the accepted date formats
    | MissingOperand    // null or undefined: nothing to coerce

  /** A coerced operand: one key, or the keys of a list for `in` / `not in`. */
  datatype Operand = One(key: Key) | Many(keys: seq<Key>)

  /** The instant, in epoch milliseconds, a date-like operand denotes:
      a number is read as epoch milliseconds (a fractional part is dropped),
      a date object is taken as is, and a string must be in one of the
      accepted formats, a string without a time denoting midnight. */
  function DateInstant(lit: Literal): (r: Result<int, CoercionError>)
    ensures lit.DateLike? ==> r == Ok(lit.ms)
    ensures lit.Number? ==> r.Ok? && r.value as real <= lit.n < r.value as real + 1.0
    ensures lit.Text? ==> (r.Ok? <==> DateParse.ParseDateTime(lit.s).Some?)
    ensures lit.Text? && r.Ok? ==> r.value == DateParse.ToEpochMs(DateParse.ParseDateTime(lit.s).value)
    ensures !(lit.DateLike? || lit.Number? || lit.Text?) ==> r.Err?
  {
    match lit
    case Number(n) => Ok(n.Floor)
    case DateLike(ms) => Ok(ms)
    case Text(s) =>
      (match DateParse.ParseDateTime(s)
       case Some(t) => Ok(DateParse.ToEpochMs(t))
       case None => Err(BadDateString))
    case Absent => Err(MissingOperand)
    case _ => Err(TypeMismatch)
  }

  /** Coerces a single (non-list) operand to the key family of type t. */
  function CoerceScalar(t: ColumnType, lit: Literal): (r: Result<Key, CoercionError>)
    ensures r.Ok? ==> Fits(t, r.value)
    ensures lit.Absent? ==> r == Err(MissingOperand)
    ensures lit.List? ==> r.Err?
  {
    if lit.Absent? then Err(MissingOperand)
    else match t
      case Integer => if lit.Number? then Ok(NumKey(lit.n)) else Err(TypeMismatch)
      case Float => if lit.Number? then Ok(NumKey(lit.n)) else Err(TypeMismatch)
      case String => if lit.Text? then Ok(TextKey(lit.s)) else Err(TypeMismatch)
      case Boolean => if lit.Bool? then Ok(BoolKey(lit.b)) else Err(TypeMismatch)
      case Date =>
        (match DateInstant(lit)
         case Ok(ms) => Ok(TimeKey(Calendar.DayStart(ms)))
         case Err(e) => Err(e))
      case Datetime =>
        (match DateInstant(lit)
         case Ok(ms) => Ok(TimeKey(ms))
         case Err(e) => Err(e))
  }

  /** Which operand kinds coerce on which column types, and to which key:
      numbers on number columns, strings on string columns, booleans on
      boolean columns, any present operand of another kind being a type
      mismatch; on date and datetime columns whatever denotes an instant,
      truncated to its day on a date column. */
  lemma CoerceScalarByKind(t: ColumnType, lit: Literal)
    ensures var r := CoerceScalar(t, lit);
      && (t == Integer || t == Float ==> (r.Ok? <==> lit.Number?) && (r.Ok? ==> r.value == NumKey(lit.n)))
      && (t == String ==> (r.Ok? <==> lit.Text?) && (r.Ok? ==> r.value == TextKey(lit.s)))
      && (t == Boolean ==> (r.Ok? <==> lit.Bool?) && (r.Ok? ==> r.value == BoolKey(lit.b)))
      && (!lit.Absent? && r.Err? && !(t == Date || t == Datetime) ==> r.error == TypeMismatch)
      && (t == Date || t == Datetime ==> (r.Ok? <==> DateInstant(lit).Ok?))
      && (t == Date && r.Ok? ==> r.value == TimeKey(Calendar.DayStart(DateInstant(lit).value)))
      && (t == Datetime && r.Ok? ==> r.value == TimeKey(DateInstant(lit).value))
  {
  }

  /** Coerces every element of a list operand; the list fails as a whole as
      soon as one element fails. */
  function CoerceList(t: ColumnType, items: seq<Literal>): (r: Result<seq<Key>, CoercionError>)
    ensures r.Ok? <==> forall i :: 0 <= i < |items| ==> CoerceScalar(t, items[i]).Ok?
    ensures r.Ok? ==> |r.value| == |items|
    ensures r.Ok? ==> forall i :: 0 <= i < |items| ==> r.value[i] == CoerceScalar(t, items[i]).value
  {
    if |items| == 0 then Ok([])
    else
      match (CoerceScalar(t, items[0]), CoerceList(t, items[1..]))
      case (Ok(k), Ok(ks)) => Ok([k] + ks)
      case (Err(e), _) => Err(e)
      case (_, Err(e)) => Err(e)
  }

  /** Coerces a clause operand against a column of type t. */
  function Coerce(t: ColumnType, lit: Literal): (r: Result<Operand, CoercionError>)
    ensures lit.Absent? ==> r == Err(MissingOperand)
    ensures r.Ok? ==> (r.value.Many? <==> lit.List?)
    ensures lit.List? ==> (r.Ok? <==> CoerceList(t, lit.items).Ok?)
    ensures r.Ok? && lit.List? ==> r.value == Many(CoerceList(t, lit.items).value)
    ensures !lit.List? ==> (r.Ok? <==> CoerceScalar(t, lit).Ok?)
    ensures r.Ok? && !lit.List? ==> r.value == One(CoerceScalar(t, lit).value)
  {
    match lit
    case List(items) =>
      (match CoerceList(t, items)
       case Ok(ks) => Ok(Many(ks))
       case Err(e) => Err(e))
    case _ =>
      (match CoerceScalar(t, lit)
       case Ok(k) => Ok(One(k))
       case Err(e) => Err(e))
  }

  /** A date string denotes the start of its calendar day: on a datetime
      column, MM/DD/YYYY coerces to that day's midnight in the reference zone. */
  lemma DateStringIsMidnight(y: nat, m: nat, d: nat)
    requires y < 10000 && Calendar.ValidDate(y, m, d)
    ensures CoerceScalar(Datetime, Text(DateParse.FormatMonthDayYear(y, m, d)))
      == Ok(TimeKey(Calendar.DayToMs(Calendar.DaysFromCivil(y, m, d))))
  {
    DateParse.ParseFormatMonthDayYear(y, m, d);
  }

  /** The three representations of one calendar day (epoch number, date
      object, MM/DD/YYYY string) coerce to the same key on a date column. */
  lemma DateRepresentationsAgree(y: nat, m: nat, d: nat)
    requires y < 10000 && Calendar.ValidDate(y, m, d)
    ensures var ms := Calendar.DayToMs(Calendar.DaysFromCivil(y, m, d));
      && CoerceScalar(Date, Number(ms as real)) == Ok(TimeKey(ms))
      && CoerceScalar(Date, DateLike(ms)) == Ok(TimeKey(ms))
      && CoerceScalar(Date, Text(DateParse.FormatMonthDayYear(y, m, d))) == Ok(TimeKey(ms))
  {
    DateParse.ParseFormatMonthDayYear(y, m, d);
  }

  /** On a date column the time of day is discarded: every instant inside a
      day coerces to that day's midnight. */
  lemma DateOperandDayGranular(days: int, tod: int)
    requires 0 <= tod < Calendar.MsPerDay
    ensures CoerceScalar(Date, DateLike(Calendar.DayToMs(days) + tod)) == Ok(TimeKey(Calendar.DayToMs(days)))
  {
    Calendar.DayStartOfTimeInDay(days, tod);
  }

  /** A string in any of the accepted formats denotes the instant it
      writes. */
  lemma DateInstantOfFormat(t: DateParse.DateTime, dl: DateParse.DateLayout, tl: DateParse.TimeLayout)
    requires DateParse.Writable(t, dl, tl)
    ensures DateInstant(Text(DateParse.Format(t, dl, tl))) == Ok(DateParse.ToEpochMs(t))
  {
    DateParse.ParseFormat(t, dl, tl);
  }

  /** A date-like operand coerces to its instant on a datetime column and
      to the start of the instant's day on a date column. */
  lemma CoerceInstant(lit: Literal, ms: int)
    requires DateInstant(lit) == Ok(ms)
    ensures CoerceScalar(Datetime, lit) == Ok(TimeKey(ms))
    ensures CoerceScalar(Date, lit) == Ok(TimeKey(Calendar.DayStart(ms)))
  {
  }

  /** On a datetime column a string in any accepted format coerces to the
      instant it writes, to the millisecond. */
  lemma DateStringDenotesInstant(t: DateParse.DateTime, dl: DateParse.DateLayout, tl: DateParse.TimeLayout)
    requires DateParse.Writable(t, dl, tl)
    ensures CoerceScalar(Datetime, Text(DateParse.Format(t, dl, tl))) == Ok(TimeKey(DateParse.ToEpochMs(t)))
  {
    DateInstantOfFormat(t, dl, tl);
    CoerceInstant(Text(DateParse.Format(t, dl, tl)), DateParse.ToEpochMs(t));
  }

  /** On a date column the time written after the date is dropped: a
      string in any accepted format coerces to the midnight of its day. */
  lemma DateStringDropsTime(t: DateParse.DateTime, dl: DateParse.DateLayout, tl: DateParse.TimeLayout)
    requires DateParse.Writable(t, dl, tl)
    ensures CoerceScalar(Date, Text(DateParse.Format(t, dl, tl)))
      == Ok(TimeKey(Calendar.DayToMs(Calendar.DaysFromCivil(t.year, t.month, t.day))))
  {
    var days := Calendar.DaysFromCivil(t.year, t.month, t.day);
    var tod := Calendar.TimeOfDayMs(t.hour, t.minute, t.second, t.milli);
    DateInstantOfFormat(t, dl, tl);
    CoerceInstant(Text(DateParse.Format(t, dl, tl)), DateParse.ToEpochMs(t));
    assert DateParse.ToEpochMs(t) == Calendar.DayToMs(days) + tod;
    Calendar.DayStartOfTimeInDay(days, tod);
  }
}
