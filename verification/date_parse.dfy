/**
 The fixed, locale-independent list of date and datetime string formats a
 filter operand may use. A string is read as a date part of exactly ten
 characters, optionally followed by a time of day:

   date part:  MM/DD/YYYY   MM-DD-YYYY   YYYY-MM-DD   YYYY/MM/DD
   time part:  (none)   " HH:mm:ss"   " HH:mm:ss.SSS"

 Every field is a fixed number of decimal digits and the whole string must
 be consumed; the fields must then form a real calendar date and time.
 */
module DateParse {
  import opened Base
  import Calendar

  /** A civil date and time of day in the reference zone. */
  datatype DateTime = DateTime(year: int, month: int, day: int,
                               hour: int, minute: int, second: int, milli: int)

  predicate ValidDateTime(t: DateTime) {
    && Calendar.ValidDate(t.year, t.month, t.day)
    && 0 <= t.hour < 24 && 0 <= t.minute < 60 && 0 <= t.second < 60
    && 0 <= t.milli < 1000
  }

  /** Epoch milliseconds of a valid civil date and time in the reference zone. */
  function ToEpochMs(t: DateTime): int
    requires ValidDateTime(t)
  {
    Calendar.DayToMs(Calendar.DaysFromCivil(t.year, t.month, t.day))
      + Calendar.TimeOfDayMs(t.hour, t.minute, t.second, t.milli)
  }

  /** Lexicographic order on date-times, field by field from the year down
      to the millisecond. */
  predicate DateTimeBefore(t: DateTime, u: DateTime) {
    || Calendar.DateBefore(t.year, t.month, t.day, u.year, u.month, u.day)
    || ((t.year, t.month, t.day) == (u.year, u.month, u.day)
        && Calendar.TimeBefore(t.hour, t.minute, t.second, t.milli, u.hour, u.minute, u.second, u.milli))
  }

  /** Epoch milliseconds embed the order of valid date-times: an earlier
      date-time is an earlier instant, and two date-times denote the same
      instant only when they are equal. */
  lemma ToEpochMsOrderEmbedding(t: DateTime, u: DateTime)
    requires ValidDateTime(t) && ValidDateTime(u)
    ensures DateTimeBefore(t, u) <==> ToEpochMs(t) < ToEpochMs(u)
    ensures t == u <==> ToEpochMs(t) == ToEpochMs(u)
  {
    Calendar.DaysFromCivilOrderEmbedding(t.year, t.month, t.day, u.year, u.month, u.day);
    Calendar.TimeOfDayOrderEmbedding(t.hour, t.minute, t.second, t.milli, u.hour, u.minute, u.second, u.milli);
    Calendar.InstantOrder(Calendar.DaysFromCivil(t.year, t.month, t.day),
                          Calendar.TimeOfDayMs(t.hour, t.minute, t.second, t.milli),
                          Calendar.DaysFromCivil(u.year, u.month, u.day),
                          Calendar.TimeOfDayMs(u.hour, u.minute, u.second, u.milli));
  }

  predicate IsDigit(c: char) {
    '0' <= c <= '9'
  }

  predicate AllDigits(s: string) {
    forall i :: 0 <= i < |s| ==> IsDigit(s[i])
  }

  function DigitValue(c: char): nat
    requires IsDigit(c)
  {
    c as int - '0' as int
  }

  function DigitChar(n: nat): char
    requires n < 10
  {
    ('0' as int + n) as char
  }

  /** The number written by a string of decimal digits, most significant first. */
  function NatOf(s: string): nat
    requires AllDigits(s)
  {
    if |s| == 0 then 0 else NatOf(s[..|s| - 1]) * 10 + DigitValue(s[|s| - 1])
  }

  function Pow10(w: nat): nat {
    if w == 0 then 1 else 10 * Pow10(w - 1)
  }

  /** The lowest w decimal digits of n, zero-padded on the left. */
  function Pad(n: nat, w: nat): (r: string)
    ensures |r| == w
  {
    if w == 0 then [] else Pad(n / 10, w - 1) + [DigitChar(n % 10)]
  }

  /** A padded numeral consists of digits only. */
  lemma {:induction false} PadDigits(n: nat, w: nat)
    ensures AllDigits(Pad(n, w))
  {
    if w > 0 {
      PadDigits(n / 10, w - 1);
    }
  }

  /** Reading back a zero-padded numeral gives the number, when it fits. */
  lemma {:induction false} NatOfPad(n: nat, w: nat)
    requires n < Pow10(w)
    ensures AllDigits(Pad(n, w))
    ensures NatOf(Pad(n, w)) == n
  {
    PadDigits(n, w);
    if w > 0 {
      var p := Pad(n, w);
      assert p[..w - 1] == Pad(n / 10, w - 1);
      NatOfPad(n / 10, w - 1);
    }
  }

  /** Writing back the number a digit string reads as, at the string's
      width, gives the string: reading loses nothing. */
  lemma {:induction false} PadNatOf(s: string)
    requires AllDigits(s)
    ensures Pad(NatOf(s), |s|) == s
  {
    if |s| > 0 {
      var n := |s| - 1;
      var front, d := s[..n], DigitValue(s[n]);
      PadNatOf(front);
      assert NatOf(s) == NatOf(front) * 10 + d;
      assert NatOf(s) / 10 == NatOf(front) && NatOf(s) % 10 == d;
      assert DigitChar(d) == s[n];
      assert s == front + [s[n]];
    }
  }

  /** A field of `width` digits starting at `start`, if it is all digits. */
  function Field(s: string, start: nat, width: nat): Option<nat>
    requires start + width <= |s|
  {
    var f := s[start..start + width];
    if AllDigits(f) then Some(NatOf(f)) else None
  }

  /** Year, month and day of a ten-character date part, in one of the four layouts. */
  function ParseDatePart(s: string): Option<(int, int, int)>
    requires |s| == 10
  {
    if (s[2] == '/' || s[2] == '-') && s[5] == s[2] then
      // MM/DD/YYYY or MM-DD-YYYY
      match (Field(s, 0, 2), Field(s, 3, 2), Field(s, 6, 4))
      case (Some(m), Some(d), Some(y)) => Some((y, m, d))
      case _ => None
    else if (s[4] == '-' || s[4] == '/') && s[7] == s[4] then
      // YYYY-MM-DD or YYYY/MM/DD
      match (Field(s, 0, 4), Field(s, 5, 2), Field(s, 8, 2))
      case (Some(y), Some(m), Some(d)) => Some((y, m, d))
      case _ => None
    else None
  }

  /** Hour, minute, second and millisecond of what follows the date part. */
  function ParseTimePart(s: string): Option<(int, int, int, int)> {
    if |s| == 0 then Some((0, 0, 0, 0))
    else if (|s| == 9 || |s| == 13) && s[0] == ' ' && s[3] == ':' && s[6] == ':' then
      match (Field(s, 1, 2), Field(s, 4, 2), Field(s, 7, 2))
      case (Some(h), Some(mi), Some(sec)) =>
        if |s| == 9 then Some((h, mi, sec, 0))
        else if s[9] == '.' then
          match Field(s, 10, 3)
          case Some(ms) => Some((h, mi, sec, ms))
          case None => None
        else None
      case _ => None
    else None
  }

  /** Parses a date or datetime string in one of the accepted formats. */
  function ParseDateTime(s: string): (r: Option<DateTime>)
    ensures r.Some? ==> ValidDateTime(r.value)
    ensures r.Some? ==> |s| == 10 || |s| == 19 || |s| == 23
  {
    if |s| < 10 then None
    else
      match (ParseDatePart(s[..10]), ParseTimePart(s[10..]))
      case (Some((y, m, d)), Some((h, mi, sec, ms))) =>
        var t := DateTime(y, m, d, h, mi, sec, ms);
        if ValidDateTime(t) then Some(t) else None
      case _ => None
  }

  /** The four layouts of the date part; the separator is '/' or '-'. */
  datatype DateLayout = MonthDayYear(sep: char) | YearMonthDay(sep: char)

  /** The three accepted lengths of the time part. */
  datatype TimeLayout = NoTime | Seconds | Millis

  predicate ValidSeparator(c: char) {
    c == '/' || c == '-'
  }

  /** A date-time that a layout can write without losing information: a
      four-digit year, and no time fields beyond what the layout shows. */
  predicate Writable(t: DateTime, dl: DateLayout, tl: TimeLayout) {
    && ValidDateTime(t) && 0 <= t.year < 10000
    && ValidSeparator(dl.sep)
    && (tl == NoTime ==> t.hour == 0 && t.minute == 0 && t.second == 0)
    && (tl != Millis ==> t.milli == 0)
  }

  function DatePart(t: DateTime, dl: DateLayout): (r: string)
    requires Writable(t, dl, NoTime) || Writable(t, dl, Seconds) || Writable(t, dl, Millis)
    ensures |r| == 10
  {
    match dl
    case MonthDayYear(c) => Pad(t.month, 2) + [c] + Pad(t.day, 2) + [c] + Pad(t.year, 4)
    case YearMonthDay(c) => Pad(t.year, 4) + [c] + Pad(t.month, 2) + [c] + Pad(t.day, 2)
  }

  function TimePart(t: DateTime, tl: TimeLayout): (r: string)
    requires ValidDateTime(t)
    ensures |r| == 0 || |r| == 9 || |r| == 13
  {
    match tl
    case NoTime => ""
    case Seconds => " " + Pad(t.hour, 2) + ":" + Pad(t.minute, 2) + ":" + Pad(t.second, 2)
    case Millis => " " + Pad(t.hour, 2) + ":" + Pad(t.minute, 2) + ":" + Pad(t.second, 2)
                     + "." + Pad(t.milli, 3)
  }

  /** A date-time written in one of the accepted formats. */
  function Format(t: DateTime, dl: DateLayout, tl: TimeLayout): string
    requires Writable(t, dl, tl)
  {
    DatePart(t, dl) + TimePart(t, tl)
  }

  /** A date written as MM/DD/YYYY. */
  function FormatMonthDayYear(y: nat, m: nat, d: nat): string
    requires y < 10000 && Calendar.ValidDate(y, m, d)
  {
    Format(DateTime(y, m, d, 0, 0, 0, 0), MonthDayYear('/'), NoTime)
  }

  lemma FieldOfPad(s: string, start: nat, n: nat, w: nat)
    requires start + w <= |s| && n < Pow10(w)
    requires s[start..start + w] == Pad(n, w)
    ensures Field(s, start, w) == Some(n)
  {
    NatOfPad(n, w);
  }

  /** The three fields of `a c b c d` sit where the separators leave them. */
  lemma FieldSlices(a: string, b: string, d: string, c: char)
    ensures var s := a + [c] + b + [c] + d;
      && s[..|a|] == a
      && s[|a| + 1..|a| + 1 + |b|] == b
      && s[|a| + |b| + 2..] == d
  {
    var s := a + [c] + b + [c] + d;
    assert s[..|a|] == a;
    assert s[|a| + 1..|a| + 1 + |b|] == b;
    assert s[|a| + |b| + 2..] == d;
  }

  lemma ParseDatePartOfFormat(t: DateTime, dl: DateLayout, tl: TimeLayout)
    requires Writable(t, dl, tl)
    ensures ParseDatePart(DatePart(t, dl)) == Some((t.year, t.month, t.day))
  {
    var s := DatePart(t, dl);
    var c := dl.sep;
    if dl.MonthDayYear? {
      FieldSlices(Pad(t.month, 2), Pad(t.day, 2), Pad(t.year, 4), c);
      FieldOfPad(s, 0, t.month, 2);
      FieldOfPad(s, 3, t.day, 2);
      FieldOfPad(s, 6, t.year, 4);
    } else {
      FieldSlices(Pad(t.year, 4), Pad(t.month, 2), Pad(t.day, 2), c);
      PadDigits(t.year, 4);
      assert IsDigit(s[2]);
      FieldOfPad(s, 0, t.year, 4);
      FieldOfPad(s, 5, t.month, 2);
      FieldOfPad(s, 8, t.day, 2);
    }
  }

  lemma ParseTimePartOfFormat(t: DateTime, dl: DateLayout, tl: TimeLayout)
    requires Writable(t, dl, tl)
    ensures ParseTimePart(TimePart(t, tl)) == Some((t.hour, t.minute, t.second, t.milli))
  {
    var s := TimePart(t, tl);
    if tl != NoTime {
      assert s[1..3] == Pad(t.hour, 2);
      assert s[4..6] == Pad(t.minute, 2);
      assert s[7..9] == Pad(t.second, 2);
      FieldOfPad(s, 1, t.hour, 2);
      FieldOfPad(s, 4, t.minute, 2);
      FieldOfPad(s, 7, t.second, 2);
      if tl == Millis {
        assert s[10..13] == Pad(t.milli, 3);
        FieldOfPad(s, 10, t.milli, 3);
      }
    }
  }

  /** Parsing is a left inverse of formatting: a date-time written in any
      of the twelve accepted formats reads back as itself. */
  lemma ParseFormat(t: DateTime, dl: DateLayout, tl: TimeLayout)
    requires Writable(t, dl, tl)
    ensures ParseDateTime(Format(t, dl, tl)) == Some(t)
  {
    var s := Format(t, dl, tl);
    assert s[..10] == DatePart(t, dl);
    assert s[10..] == TimePart(t, tl);
    ParseDatePartOfFormat(t, dl, tl);
    ParseTimePartOfFormat(t, dl, tl);
  }

  /** A string of w digits reads as a number below 10^w. */
  lemma {:induction false} NatOfBound(s: string)
    requires AllDigits(s)
    ensures NatOf(s) < Pow10(|s|)
  {
    if |s| > 0 {
      var front := s[..|s| - 1];
      NatOfBound(front);
      assert NatOf(s) <= (Pow10(|front|) - 1) * 10 + 9;
    }
  }

  /** A field that reads as n is n written back at the field's width. */
  lemma PadOfField(s: string, start: nat, w: nat, n: nat)
    requires start + w <= |s| && Field(s, start, w) == Some(n)
    ensures n < Pow10(w) && Pad(n, w) == s[start..start + w]
  {
    var f := s[start..start + w];
    NatOfBound(f);
    PadNatOf(f);
  }

  /** The date layout a date part is written in, read off its separators. */
  function DateLayoutOf(s: string): DateLayout
    requires |s| >= 10
  {
    if (s[2] == '/' || s[2] == '-') && s[5] == s[2] then MonthDayYear(s[2]) else YearMonthDay(s[4])
  }

  /** The time layout of what follows the date part, read off its length. */
  function TimeLayoutOf(s: string): TimeLayout {
    if |s| == 0 then NoTime else if |s| == 9 then Seconds else Millis
  }

  /** A date part the parser accepts is the date written in its own layout. */
  lemma DatePartOfParse(s: string, t: DateTime, tl: TimeLayout)
    requires |s| == 10 && ParseDatePart(s) == Some((t.year, t.month, t.day)) && ValidDateTime(t)
    requires tl == NoTime ==> t.hour == 0 && t.minute == 0 && t.second == 0
    requires tl != Millis ==> t.milli == 0
    ensures Writable(t, DateLayoutOf(s), tl) && DatePart(t, DateLayoutOf(s)) == s
  {
    assert Pow10(4) == 10000;
    var c := DateLayoutOf(s).sep;
    if DateLayoutOf(s).MonthDayYear? {
      PadOfField(s, 0, 2, t.month);
      PadOfField(s, 3, 2, t.day);
      PadOfField(s, 6, 4, t.year);
      assert s == s[0..2] + [c] + s[3..5] + [c] + s[6..10];
    } else {
      PadOfField(s, 0, 4, t.year);
      PadOfField(s, 5, 2, t.month);
      PadOfField(s, 8, 2, t.day);
      assert s == s[0..4] + [c] + s[5..7] + [c] + s[8..10];
    }
  }

  /** A time part the parser accepts is the time written in its own layout,
      and that layout shows every time field that is not zero. */
  lemma TimePartOfParse(s: string, t: DateTime)
    requires ParseTimePart(s) == Some((t.hour, t.minute, t.second, t.milli)) && ValidDateTime(t)
    ensures TimeLayoutOf(s) == NoTime ==> t.hour == 0 && t.minute == 0 && t.second == 0
    ensures TimeLayoutOf(s) != Millis ==> t.milli == 0
    ensures TimePart(t, TimeLayoutOf(s)) == s
  {
    if |s| > 0 {
      PadOfField(s, 1, 2, t.hour);
      PadOfField(s, 4, 2, t.minute);
      PadOfField(s, 7, 2, t.second);
      if |s| == 9 {
        assert s == " " + s[1..3] + ":" + s[4..6] + ":" + s[7..9];
      } else {
        PadOfField(s, 10, 3, t.milli);
        assert s == " " + s[1..3] + ":" + s[4..6] + ":" + s[7..9] + "." + s[10..13];
      }
    }
  }

  /** Parsing accepts nothing but the twelve formats: a string that parses
      is its date-time written in the layout read off the string. */
  lemma FormatOfParse(s: string)
    requires ParseDateTime(s).Some?
    ensures var t := ParseDateTime(s).value;
      var dl, tl := DateLayoutOf(s), TimeLayoutOf(s[10..]);
      Writable(t, dl, tl) && Format(t, dl, tl) == s
  {
    var t := ParseDateTime(s).value;
    TimePartOfParse(s[10..], t);
    DatePartOfParse(s[..10], t, TimeLayoutOf(s[10..]));
    assert DateLayoutOf(s[..10]) == DateLayoutOf(s);
    assert s == s[..10] + s[10..];
  }

  /** A string parses to t exactly when it is t written in one of the
      accepted formats. */
  lemma AcceptedIffFormatted(s: string, t: DateTime)
    ensures ParseDateTime(s) == Some(t)
      <==> exists dl, tl :: Writable(t, dl, tl) && Format(t, dl, tl) == s
  {
    if ParseDateTime(s) == Some(t) {
      FormatOfParse(s);
      assert Writable(t, DateLayoutOf(s), TimeLayoutOf(s[10..]));
    }
    if exists dl, tl :: Writable(t, dl, tl) && Format(t, dl, tl) == s {
      var dl, tl :| Writable(t, dl, tl) && Format(t, dl, tl) == s;
      ParseFormat(t, dl, tl);
    }
  }

  /** A four-digit-year date written as MM/DD/YYYY parses back to its own
      midnight. */
  lemma ParseFormatMonthDayYear(y: nat, m: nat, d: nat)
    requires y < 10000 && Calendar.ValidDate(y, m, d)
    ensures ParseDateTime(FormatMonthDayYear(y, m, d)) == Some(DateTime(y, m, d, 0, 0, 0, 0))
  {
    ParseFormat(DateTime(y, m, d, 0, 0, 0, 0), MonthDayYear('/'), NoTime);
  }
}
