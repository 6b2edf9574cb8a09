# Perspective view filters, modelled in Dafny

This project models the filter layer of a Perspective table. A view filter
is a list of `[column, op, operand]` clauses with one global combinator,
`filter_op`, which is "and" by default or "or". Each row is decided pass or
fail, and the view is the passing rows in table order. Next to execution
there is a separate pre-flight check, `is_valid_filter(clause)`. It is
stricter than execution for null operands.

The engine itself is not part of this model. Its observable contract is
pinned scenario by scenario in `packages/perspective/test/js/filters.js`.
The model is therefore an executable specification:

- pure functions for the semantics;
- general lemmas for the properties those scenarios illustrate;
- one lemma per scenario that replays its table and filter and states the
  exact view or validity verdict.

Modules, in dependency order:

| file | module | contents |
|---|---|---|
| base.dfy | Base | `Option`, `Result` |
| calendar.dfy | Calendar | proleptic Gregorian days-from-civil, day start in the reference zone |
| date_parse.dfy | DateParse | the fixed-width date/datetime string parser and its formatter |
| tables.dfy | Tables | column types, typed cells (`Option<Value>`, `None` is null), rows, schemas |
| keys.dfy | Keys | the comparison key of a cell per column type, and its total order |
| coercion.dfy | Coercion | the operand literal (`Literal`) and its coercion to keys |
| predicate.dfy | Predicate | the nine operators, and evaluation of one clause on one cell |
| combinator.dfy | Combinator | `and` / `or` folding of clause results |
| selection.dfy | Selection | order-preserving selection from a list and the positions it keeps |
| filter_engine.dfy | FilterEngine | reading the wire form of `filter` and `filter_op`, row decision, the view as an ordered subsequence, a mask-and-view scan |
| validator.dfy | Validator | `is_valid_filter` |
| scenarios.dfy | Scenarios | the test scenarios replayed as lemmas |

Semantics the model fixes:

- **Reference zone.** Dates are interpreted in UTC.
- **Date and datetime columns.** A date cell is compared by the midnight
  starting its day. A datetime cell is compared to the millisecond.
- **Operand forms.** A date operand may be an epoch number (floored to a
  millisecond), a date object (epoch milliseconds) or a string.
- **Accepted date strings.** The string formats are MM/DD/YYYY,
  MM-DD-YYYY, YYYY-MM-DD and YYYY/MM/DD. Each may be followed by
  ` HH:mm:ss`, which may in turn be followed by `.SSS`. A string without a
  time denotes midnight.
- **Numbers.** JavaScript numbers are exact reals. An integer cell compares
  numerically with a real operand.
- **Null policy.**
  - `is null` and `is not null` look only at whether the cell is null.
  - Any other operator with an absent operand (null or undefined) yields
    the verdict `Unconstrained`, which passes the row.
  - Otherwise a null cell never matches.
- **Combining clauses.** An empty clause list passes every row under both
  modes. A clause on a column the schema does not have is `Unconstrained`
  at execution and valid at validation.

## Model

| member | source | states |
|---|---|---|
| Calendar.DaysFromCivil | packages/perspective/test/js/filters.js:116-136 | 1970-01-01 is day 0, and a valid date's day number lies within its year's range of day numbers |
| Calendar.DayStart | packages/perspective/test/js/filters.js:265-300 | the day start lies in (ms − one day, ms] and is a whole number of days |
| Calendar.DaysBeforeYearMonotone | packages/perspective/test/js/filters.js:116-136 | days before a year never decrease as the year grows (proved by induction on the gap) |
| Calendar.DayOfYearBound | packages/perspective/test/js/filters.js:116-136 | a valid date's offset inside its year is in [0, year length), and below the next month's start |
| Calendar.DaysFromCivilStrictlyIncreasing | packages/perspective/test/js/filters.js:116-136 | an earlier calendar date has a strictly smaller day number |
| Calendar.DaysFromCivilOrderEmbedding | packages/perspective/test/js/filters.js:265-300 | dates are totally ordered: calendar order iff day-number order, and equal dates iff equal day numbers |
| Calendar.DaysFromCivilNextDay | packages/perspective/test/js/filters.js:265-300 | the next calendar day, across month and year ends, is a valid date with the next day number |
| Calendar.DayToMs | packages/perspective/test/js/filters.js:265-300 | a day's midnight is its own day start and divides back to the day number |
| Calendar.TimeOfDayMs | packages/perspective/test/js/filters.js:138-150 | a valid time of day is within [0, one day) |
| Calendar.TimeOfDayOrderEmbedding | packages/perspective/test/js/filters.js:138-150 | times of day are ordered by hour, then minute, then second, then millisecond exactly when their millisecond offsets are, and two times are equal exactly when their offsets are |
| Calendar.InstantOrder | packages/perspective/test/js/filters.js:138-150 | an instant built from a day and an offset within that day orders first by day and then by offset, and two such instants coincide only when day and offset both agree |
| Calendar.DayStartOfTimeInDay | packages/perspective/test/js/filters.js:265-300 | any instant within a day has that day's midnight as its day start |
| DateParse.ParseDateTime | packages/perspective/test/js/filters.js:647-685 | a successful parse is a valid date-time, from a string of length 10, 19 or 23 |
| DateParse.PadDigits | packages/perspective/test/js/filters.js:647-665 | a zero-padded decimal field consists of digits only |
| DateParse.NatOfPad | packages/perspective/test/js/filters.js:647-665 | reading back a zero-padded decimal field gives the number written |
| DateParse.PadNatOf | packages/perspective/test/js/filters.js:647-665 | rewriting a digit field at its own width gives the field back, leading zeros included |
| DateParse.ParseFormat | packages/perspective/test/js/filters.js:647-685 | parsing is a left inverse of formatting in each of the twelve accepted layouts |
| DateParse.NatOfBound | packages/perspective/test/js/filters.js:647-685 | a field of w digits reads as a number below 10^w |
| DateParse.PadOfField | packages/perspective/test/js/filters.js:647-685 | a field that reads as n is n written back at the field's width |
| DateParse.DatePartOfParse | packages/perspective/test/js/filters.js:647-685 | an accepted date part is its date written in the layout its separators name, with a four-digit year |
| DateParse.TimePartOfParse | packages/perspective/test/js/filters.js:667-685 | an accepted time part is its time written in the layout its length names |
| DateParse.FormatOfParse | packages/perspective/test/js/filters.js:647-685 | every accepted string is its date-time written in one of the twelve layouts: the parser accepts nothing else |
| DateParse.AcceptedIffFormatted | packages/perspective/test/js/filters.js:647-685 | a string parses to t exactly when it is t written in some accepted layout |
| DateParse.ToEpochMsOrderEmbedding | packages/perspective/test/js/filters.js:138-150 | datetimes compare to the millisecond: an earlier valid date-time is a smaller instant and vice versa, and distinct valid date-times are distinct instants |
| DateParse.ParseFormatMonthDayYear | packages/perspective/test/js/filters.js:116-136 | an MM/DD/YYYY string parses to its own day at midnight |
| Keys.CellKey | packages/perspective/test/js/filters.js:304-368 | a cell has a key exactly when its value matches the column type, and the key belongs to that type's key family |
| Keys.StringLessTrichotomy | packages/perspective/test/js/filters.js:71-113 | the order `>` and `<` use on string cells (lexicographic by character code, a modelling choice) is total, asymmetric and irreflexive |
| Keys.StringLessTransitive | packages/perspective/test/js/filters.js:71-113 | the order `>` and `<` use on string cells (a modelling choice) is transitive |
| Keys.KeyTrichotomy | packages/perspective/test/js/filters.js:71-113 | two keys of one column type are ordered exactly one way: less, equal or greater |
| Keys.KeyLessTransitive | packages/perspective/test/js/filters.js:71-113 | the key order is transitive |
| Coercion.DateInstant | packages/perspective/test/js/filters.js:116-136 | a date object passes unchanged, a number floors to within one millisecond, a string succeeds iff it parses and then denotes the epoch milliseconds of the parsed date-time |
| Coercion.CoerceScalar | packages/perspective/test/js/filters.js:600-640 | an absent operand fails as missing, a list fails, and a success fits the column type |
| Coercion.CoerceScalarByKind | packages/perspective/test/js/filters.js:600-646 | on number columns only numbers coerce, on string columns only strings and on boolean columns only booleans, any other present kind being a type mismatch; date and datetime columns take numbers, date strings and date objects, keyed by the instant's day start on date columns and by the instant itself on datetime columns |
| Coercion.CoerceList | packages/perspective/test/js/filters.js:393-416 | a list coerces iff every element does, element by element and of the same length |
| Predicate.InSingletonIsEqual | packages/perspective/test/js/filters.js:393-417 | for a present element x, a one-element list behaves like its element: `in [x]` is `== x` and `not in [x]` is `!= x` on every cell |
| Coercion.DateStringIsMidnight | packages/perspective/test/js/filters.js:116-136 | on a datetime column a date string coerces to midnight of its day |
| Coercion.DateRepresentationsAgree | packages/perspective/test/js/filters.js:265-300 | an epoch number, a date object and a date string for one day coerce to the same key on a date column |
| Coercion.DateOperandDayGranular | packages/perspective/test/js/filters.js:265-300 | on a date column every instant within a day coerces to that day's midnight |
| Coercion.DateInstantOfFormat | packages/perspective/test/js/filters.js:647-685 | a string in any accepted layout denotes the epoch milliseconds of the date-time it writes |
| Coercion.CoerceInstant | packages/perspective/test/js/filters.js:265-300 | an operand denoting an instant coerces to it on a datetime column and to its day start on a date column |
| Coercion.DateStringDenotesInstant | packages/perspective/test/js/filters.js:138-150 | on a datetime column a string in any accepted layout coerces to its instant, to the millisecond |
| Coercion.DateStringDropsTime | packages/perspective/test/js/filters.js:265-300 | on a date column a string in any accepted layout coerces to the midnight of its day, whatever time it writes |
| Predicate.ParseOp | packages/perspective/test/js/filters.js:71-461 | a recognised token is the printed form of the operator it parses to |
| Predicate.ParseOpToken | packages/perspective/test/js/filters.js:71-461 | each of the nine operators' tokens parses back to that operator |
| Predicate.HasSubstring | packages/perspective/test/js/filters.js:419-430 | the substring test holds iff the needle occurs at some offset |
| Predicate.Apply | packages/perspective/test/js/filters.js:71-461 | an operator that holds is not a null test, takes a list exactly when it is `in`/`not in`, and `contains` holds only on string keys |
| Predicate.Evaluate | packages/perspective/test/js/filters.js:600-619 | a clause is unconstrained exactly when a non-null-test operator meets an absent operand |
| Predicate.NullTestsSelectNullCells | packages/perspective/test/js/filters.js:464-532 | `is null` holds iff the cell is null, `is not null` iff it is not |
| Predicate.AbsentOperandPassesEveryCell | packages/perspective/test/js/filters.js:600-619 | an absent operand excludes no cell, null or not |
| Predicate.NullCellNeverMatches | packages/perspective/test/js/filters.js:535-598 | with a present operand no comparison matches a null cell |
| Predicate.ComparisonTrichotomy | packages/perspective/test/js/filters.js:71-113 | exactly one of `>`, `<`, `==` matches a well-typed cell, so `>` and `<` are strict |
| Predicate.ComparisonDirection | packages/perspective/test/js/filters.js:71-113 | `>` keeps the cells whose key lies above the operand's key and `<` those below |
| Predicate.NumericDirection | packages/perspective/test/js/filters.js:71-113 | on integer and float columns `>` and `<` are the numeric order of cell and operand |
| Predicate.StringDirection | packages/perspective/test/js/filters.js:71-91 | on string columns `>` and `<` follow lexicographic order (direction chosen by the model, no scenario pins it) |
| Predicate.BooleanDirection | packages/perspective/test/js/filters.js:71-91 | on boolean columns false comes before true (direction chosen by the model, no scenario pins it) |
| Predicate.EqualNotEqualPartition | packages/perspective/test/js/filters.js:370-391 | `==` and `!=` with one operand partition the non-null well-typed cells |
| Predicate.InNotInComplement | packages/perspective/test/js/filters.js:393-417 | `in` is membership of the cell's key among the coerced elements, `not in` its negation |
| Predicate.ContainsIsSubstring | packages/perspective/test/js/filters.js:419-430 | on a string column `contains` holds iff the operand occurs in the cell |
| Predicate.ContainsOnlyOnStrings | packages/perspective/test/js/filters.js:419-430 | with a present operand `contains` never matches a non-string cell |
| Predicate.DateEqualityGranularity | packages/perspective/test/js/filters.js:370-391 | equality is per day on a date column and per millisecond on a datetime column |
| Predicate.DateStringBounds | packages/perspective/test/js/filters.js:116-136 | a date string bounds datetime cells at its midnight and date cells by their day start |
| Combinator.ParseMode | packages/perspective/test/js/filters.js:447-461 | no `filter_op` means and, "or" is or, any other token is rejected, and an accepted token is the printed form of its mode |
| Combinator.ParseModeToken | packages/perspective/test/js/filters.js:447-461 | each mode's token parses back to that mode |
| Combinator.Combine | packages/perspective/test/js/filters.js:432-461 | and is "every result true", or is "some result true" |
| Combinator.CombineOrderIndependent | packages/perspective/test/js/filters.js:432-461 | permuting the clause results does not change the decision |
| FilterEngine.ClauseVerdictUnconstrained | packages/perspective/test/js/filters.js:600-619 | a clause is unconstrained exactly when its column is unknown or a comparison has no operand; otherwise a null cell fails it |
| FilterEngine.RowPassesEitherMode | packages/perspective/test/js/filters.js:432-461 | in either mode a row on which every clause holds passes and a row on which no clause of a non-empty list holds fails |
| FilterEngine.RowPassesCharacterized | packages/perspective/test/js/filters.js:432-461 | a row passes under and iff every clause holds, under or iff the list is empty or some clause holds |
| FilterEngine.ClauseOrderIrrelevant | packages/perspective/test/js/filters.js:432-461 | reordering the clauses does not change any row's decision |
| Selection.Select | packages/perspective/test/js/filters.js:348-368 | the selection is no longer than the list and holds only kept elements |
| Selection.SelectSubsequence | packages/perspective/test/js/filters.js:348-368 | the selection is the list at strictly increasing positions, exactly those whose element is kept |
| Selection.PositionsExact | packages/perspective/test/js/filters.js:348-368 | the kept positions are strictly increasing, and a position is listed iff its element is kept |
| Selection.SelectAppend | packages/perspective/test/js/filters.js:348-368 | selecting from a concatenation concatenates the selections |
| FilterEngine.FilterRows | packages/perspective/test/js/filters.js:348-368 | the view is no longer than the table and holds only passing rows |
| FilterEngine.FilterRowsExact | packages/perspective/test/js/filters.js:348-368 | the view is the passing rows at strictly increasing indices, and a row's index is listed iff it passes |
| FilterEngine.FilterRowsAppend | packages/perspective/test/js/filters.js:348-368 | the view of a concatenation is the concatenation of the views |
| FilterEngine.FilterRowsKeepsAll | packages/perspective/test/js/filters.js:600-619 | if every row passes, the view is the whole table |
| FilterEngine.FilterRowsKeepsNone | packages/perspective/test/js/filters.js:93-113 | if no row passes, the view is empty |
| FilterEngine.NoClausesKeepEveryRow | packages/perspective/test/js/filters.js:432-461 | an empty clause list keeps every row in either mode |
| FilterEngine.AbsentOperandsKeepEveryRow | packages/perspective/test/js/filters.js:600-619 | clauses whose operands are all absent keep the whole table |
| FilterEngine.Scan | packages/perspective/test/js/filters.js:348-368 | one pass over the rows yields the pass/fail mask and the view |
| FilterEngine.ParseClauses | packages/perspective/test/js/filters.js:432-461 | a `filter` list reads iff every operator token is known, into clauses with the same columns, operands and named operators |
| FilterEngine.ParseSpec | packages/perspective/test/js/filters.js:447-461 | a view's `filter` and `filter_op` read iff both do, into their clauses and mode |
| FilterEngine.ParseClausesOfWire | packages/perspective/test/js/filters.js:432-461 | writing clauses out and reading them back gives them unchanged |
| FilterEngine.ParseSpecOfWire | packages/perspective/test/js/filters.js:447-461 | writing a filter specification out and reading it back gives it unchanged |
| Validator.IsValidFilter | packages/perspective/test/js/filters.js:623-692 | unknown columns and null tests are valid; a valid comparison on a known column has an operand and rejects null cells, and on date columns its operand coerces |
| Validator.UnknownColumnIsValid | packages/perspective/test/js/filters.js:687-692 | a clause on a column outside the schema is valid |
| Validator.NullTestsAreValid | packages/perspective/test/js/filters.js:621-692 | the null tests are valid with any operand (a modelling choice: the validity tests use no null test) |
| Validator.AbsentOperandInvalidButUnconstrained | packages/perspective/test/js/filters.js:600-640 | an absent operand on a known column is invalid, yet execution leaves every cell unconstrained |
| Validator.DateClauseValidIffCoerces | packages/perspective/test/js/filters.js:647-685 | on date and datetime columns a present operand is valid iff it coerces |
| Validator.NonDateOperandsAreValid | packages/perspective/test/js/filters.js:641-646 | on other column types every present operand is valid, even one that cannot coerce |
| Scenarios.ContainsLongStrings | packages/perspective/test/js/filters.js:55-69 | `contains` on 13-character strings that differ in the last character keeps two rows |
| Scenarios.XView | packages/perspective/test/js/filters.js:71-113 | a numeric comparison on x keeps exactly the rows whose x satisfies it, in order |
| Scenarios.GreaterThanTwo | packages/perspective/test/js/filters.js:71-80 | `x > 2.0` keeps rows 2-3 |
| Scenarios.LessThanThree | packages/perspective/test/js/filters.js:82-91 | `x < 3.0` keeps rows 0-1 |
| Scenarios.GreaterThanMaximum | packages/perspective/test/js/filters.js:93-113 | `x > 4` on a maximum of 4 gives the empty view |
| Scenarios.IntegerEquality | packages/perspective/test/js/filters.js:304-324 | `x == 1` keeps row 0, `x == 5` keeps nothing |
| Scenarios.StringEqualsPresent | packages/perspective/test/js/filters.js:326-335 | `y == "a"` keeps row 0 |
| Scenarios.StringEqualsAbsent | packages/perspective/test/js/filters.js:337-346 | `y == "e"` keeps nothing |
| Scenarios.BooleanEqualsTrue | packages/perspective/test/js/filters.js:348-357 | `z == true` keeps rows 0 and 2 |
| Scenarios.BooleanEqualsFalse | packages/perspective/test/js/filters.js:359-368 | `z == false` keeps rows 1 and 3 |
| Scenarios.EqualsYesterday | packages/perspective/test/js/filters.js:370-379 | `w == yesterday` keeps row 3 |
| Scenarios.NotEqualsYesterday | packages/perspective/test/js/filters.js:381-390 | `w != yesterday` keeps rows 0-2 |
| Scenarios.InList | packages/perspective/test/js/filters.js:393-404 | `y in ["a", "b"]` keeps rows 0-1 |
| Scenarios.NotInList | packages/perspective/test/js/filters.js:406-417 | `y not in ["d"]` keeps rows 0-2 |
| Scenarios.ContainsLetter | packages/perspective/test/js/filters.js:419-430 | `y contains "a"` keeps row 0 |
| Scenarios.BetweenOneAndFour | packages/perspective/test/js/filters.js:432-445 | on the shared table both `x > 1` and `x < 4` hold on rows 1 and 2 and not on rows 0 and 3 |
| Scenarios.ConjunctionByDefault | packages/perspective/test/js/filters.js:432-445 | `x > 1` and `x < 4` with no mode keeps rows 1-2 |
| Scenarios.DisjunctionUnderOr | packages/perspective/test/js/filters.js:447-461 | `contains "a"` or `contains "b"` keeps rows 0-1 |
| Scenarios.DatetimeAgainstDateString | packages/perspective/test/js/filters.js:115-136 | on a datetime column `> "10/01/2018"` keeps the last three rows and `<` the first |
| Scenarios.DateColumnAgainstDateString | packages/perspective/test/js/filters.js:265-300 | on a date column `> "10/02/2018"` keeps November and December, `<` September and October |
| Scenarios.IsNullKeepsNullRows | packages/perspective/test/js/filters.js:464-532 | `is null` keeps exactly the two null rows, whatever the other cells hold |
| Scenarios.IsNullOnEachColumnType | packages/perspective/test/js/filters.js:464-532 | the string, integer and datetime `is null` tables each yield their first two rows |
| Scenarios.NullRowsView | packages/perspective/test/js/filters.js:535-598 | a comparison drops all null rows and keeps the others exactly when their cell matches |
| Scenarios.NumberCell | packages/perspective/test/js/filters.js:535-598 | on integer and float cells `>`, `<`, `==` and `!=` against a number are the numeric comparisons |
| Scenarios.IntegerGreaterSkipsNulls | packages/perspective/test/js/filters.js:536-556 | `x > 2` with null cells keeps the rows holding 3 and 4 |
| Scenarios.IntegerLessSkipsNulls | packages/perspective/test/js/filters.js:558-575 | `x < 3` with null cells keeps only the row holding 2 |
| Scenarios.FloatGreaterSkipsNulls | packages/perspective/test/js/filters.js:577-598 | `x > 2.5` on floats with nulls keeps the rows holding 3.5 and 4.5 |
| Scenarios.NullOperandKeepsEveryRow | packages/perspective/test/js/filters.js:600-619 | `x > null` yields the whole table, null cells included |
| Scenarios.ValidityOnSharedTable | packages/perspective/test/js/filters.js:623-646 | `x == 2` and `x == ""` are valid, `x < null` and `x > undefined` are not, an unknown column is valid |
| Scenarios.ValidityOfDashDate | packages/perspective/test/js/filters.js:647-656 | "01-01-1970" is a valid date operand |
| Scenarios.InvalidityOfShortDate | packages/perspective/test/js/filters.js:657-666 | "1234" is not a valid date operand |
| Scenarios.ValidityOfDatetimeString | packages/perspective/test/js/filters.js:667-675 | "2019-11-02 11:11:11.111" is a valid datetime operand |
| Scenarios.InvalidityOfMisseparatedDatetime | packages/perspective/test/js/filters.js:677-685 | "2019-11-02 11:11:11:111" is not a valid datetime operand |
| Scenarios.ValidityOfSlashDatetime | packages/perspective/test/js/filters.js:138-150 | "2020/12/01 23:30:55" is a valid datetime operand |

## Left out

- `rust/perspective/arrow_accessor/src/accessor_fast.rs`: it marshals Arrow
  columns into JavaScript values. It has no filter logic and depends on
  libraries outside this model.
- Evaluation in the "datetime with time" scenarios
  (`packages/perspective/test/js/filters.js:138-262`) is not modelled. They compare JSON output
  with raw `Date` objects. Some expect the same row for both `>` and `<`
  against one instant. The `toLocaleString` cases depend on the host locale
  and zone. Only the validity verdict of `2020/12/01 23:30:55` is taken
  from them.
- Table construction, `update`, schema inference from data, the
  `view`/`to_json`/`delete` lifecycle and the asynchronous API: rows are a
  given sequence of typed cells. In particular the one-digit `1/1/2019`
  cells of the datetime `is null` table are taken as already ingested
  (January 1st 2019, midnight UTC). The string parser accepts only
  two-digit months and days.
- Host-local time zones: one reference zone (UTC) is fixed. The comments in
  the test data give New York local times. The asserted outcomes, including
  the date-column epochs, which are midnights UTC, hold in UTC.
- The clock: `now` and `yesterday` are parameters of the shared-table
  scenarios, and the `w == yesterday` scenario assumes they differ.
- IEEE floating point: numbers are exact reals, so rounding and `NaN` are
  not modelled.
- Null and undefined operands are both `Absent`; the scenarios treat them
  alike.
- Scenarios.EqualsYesterday: requires `now != yesterday`, which the
  clock guarantees but the model cannot see.
- Scenarios.NotEqualsYesterday: requires `now != yesterday`, for the same
  reason.
- Behaviour the scenarios do not pin down is a modelling choice. This
  covers a clause on an unknown column at execution (no constraint), an
  empty clause list under "or" (every row passes), `in`/`not in` with a
  scalar operand (no match), `contains` on a non-string column (no
  match), and the direction of `>` and `<` on strings (lexicographic by
  character code) and booleans (false before true), the validity of the
  null tests with any operand, and an unknown `filter_op` token or
  operator token, which makes the whole filter specification invalid
  (`None`) rather than skipping the clause.
