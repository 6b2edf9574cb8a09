/**
 The comparison domain shared by cells and filter operands. A cell of a
 column and an operand coerced to that column's type are both turned into
 a Key of the same family, and operators are decided on keys:
 numbers (integer and float columns alike) by their real value, strings
 lexicographically by character code, booleans with false before true,
 and dates and datetimes by epoch milliseconds.
 */
module Keys {
  import opened Base
  import opened Tables
  import Calendar

  datatype Key = NumKey(n: real) | TextKey(s: string) | BoolKey(b: bool) | TimeKey(ms: int)

  /** The key family a column type compares in. */
  predicate Fits(t: ColumnType, k: Key) {
    match t
    case Integer => k.NumKey?
    case Float => k.NumKey?
    case String => k.TextKey?
    case Boolean => k.BoolKey?
    case Date => k.TimeKey? && Calendar.DayStart(k.ms) == k.ms
    case Datetime => k.TimeKey?
  }

  /** The key of a cell value read from a column of type t; None when the
      value does not have the column's kind. A date value is truncated to the
      start of its day, so date columns compare at day granularity. */
  function CellKey(t: ColumnType, v: Value): (r: Option<Key>)
    ensures r.Some? <==> KindOf(v) == t
    ensures r.Some? ==> Fits(t, r.value)
  {
    match (t, v)
    case (Integer, IntValue(i)) => Some(NumKey(i as real))
    case (Float, FloatValue(f)) => Some(NumKey(f))
    case (String, StringValue(s)) => Some(TextKey(s))
    case (Boolean, BoolValue(b)) => Some(BoolKey(b))
    case (Date, DateValue(ms)) => Some(TimeKey(Calendar.DayStart(ms)))
    case (Datetime, DatetimeValue(ms)) => Some(TimeKey(ms))
    case _ => None
  }

  /** Lexicographic order on strings by character code; a proper prefix
      comes first. */
  predicate StringLess(a: string, b: string) {
    if |a| == 0 then |b| > 0
    else if |b| == 0 then false
    else if a[0] < b[0] then true
    else if a[0] == b[0] then StringLess(a[1..], b[1..])
    else false
  }

  lemma {:induction false} StringLessTrichotomy(a: string, b: string)
    ensures StringLess(a, b) || a == b || StringLess(b, a)
    ensures !(StringLess(a, b) && StringLess(b, a))
    ensures !StringLess(a, a)
  {
    if |a| > 0 && |b| > 0 && a[0] == b[0] {
      StringLessTrichotomy(a[1..], b[1..]);
      if a[1..] == b[1..] {
        assert a == [a[0]] + a[1..] && b == [b[0]] + b[1..];
      }
    }
    if |a| > 0 {
      StringLessTrichotomy(a[1..], a[1..]);
    }
  }

  lemma {:induction false} StringLessTransitive(a: string, b: string, c: string)
    requires StringLess(a, b) && StringLess(b, c)
    ensures StringLess(a, c)
  {
    if |a| > 0 && a[0] == b[0] && b[0] == c[0] {
      StringLessTransitive(a[1..], b[1..], c[1..]);
    }
  }

  /** The strict order the `>` and `<` operators use. Keys of different
      families are unordered. */
  predicate KeyLess(a: Key, b: Key) {
    match (a, b)
    case (NumKey(x), NumKey(y)) => x < y
    case (TextKey(x), TextKey(y)) => StringLess(x, y)
    case (BoolKey(x), BoolKey(y)) => !x && y
    case (TimeKey(x), TimeKey(y)) => x < y
    case _ => false
  }

  /** Keys that fit one column type are totally ordered: exactly one of
      a < b, a == b, b < a holds. */
  lemma KeyTrichotomy(t: ColumnType, a: Key, b: Key)
    requires Fits(t, a) && Fits(t, b)
    ensures KeyLess(a, b) || a == b || KeyLess(b, a)
    ensures !(KeyLess(a, b) && KeyLess(b, a))
    ensures !KeyLess(a, a)
  {
    if a.TextKey? {
      StringLessTrichotomy(a.s, b.s);
    }
  }

  lemma KeyLessTransitive(a: Key, b: Key, c: Key)
    requires KeyLess(a, b) && KeyLess(b, c)
    ensures KeyLess(a, c)
  {
    if a.TextKey? {
      StringLessTransitive(a.s, b.s, c.s);
    }
  }
}
