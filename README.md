# Expense tracker core in Dafny

A model of the logic of a single-user expense tracker, a small web service
over one table of expenses. Each expense has an id, an amount, a category, an
optional description and a calendar date. The service offers three operations
on the collection and one read-only aggregation:

- list every expense, newest date first;
- add an expense from a JSON request body, validating and converting its fields;
- delete an expense by id, or report that there is none;
- report statistics: the grand total, per-category totals, per-month totals
  keyed `YYYY-MM`, today's total, this month's total and the record count.

Modules, one per concern:

- `Wrappers` (wrappers.dfy): `Option` and `Result`.
- `Dates` (dates.dfy): the date type and its validity, the ISO text form, and
  the parser for the `%Y-%m-%d` format applied to the `date` field. It also
  holds the `YYYY-MM` month key.
- `Expenses` (expenses.dfy): the record, its JSON form, JSON request bodies,
  the conversion of the amount, and the conversion of a whole add request
  with its errors.
- `Statistics` (statistics.dfy): sums over the records as specification
  functions. The loop that builds a table of totals by key is used twice, for
  categories and for months. The statistics method proves every result
  against those sums.
- `Store` (store.dfy): the `ExpenseStore` class holding the records. It has
  methods for list, add and delete, with the functions and lemmas they are
  proved against.

Amounts are exact `real` numbers, so the sum identities hold exactly. The
current date is a parameter of the statistics. The store's records are a
`seq<Expense>` field that the add and delete methods reassign.

Where the code and the record's declared defaults differ, the model follows
the code. The `date` column has a default of today (app.py:17), but the add
handler reads `data['date']` unconditionally. A request without a date is
therefore refused with `MissingField("date")`.

Ids are only promised to be fresh. The store picks one more than the largest
id in use, as the database does for an integer primary key. So the id of a
deleted newest record can be handed out again.

## Model

| member | source | states |
|---|---|---|
| `Dates.DaysInMonth` | app.py:62 | a month has 28 to 31 days, and 29 exactly for February of a Gregorian leap year; the parsed date must fit it |
| `Dates.ParseDate` | app.py:62 | a date string is accepted only if it starts with four digits and a dash; the result is always a real calendar date whose year is those four digits |
| `Dates.ParseIsoFormat` | app.py:26 | the ISO form `YYYY-MM-DD` of every valid date parses back to that same date |
| `Dates.ParsedIsCanonical` | app.py:62 | an accepted string equals the ISO form of its date exactly when it has ten characters and no space |
| `Dates.ParseDateTokens` | app.py:62 | four year digits, a month token (`1`–`9`, `01`–`09`, `10`–`12`) and a day token (`1`–`9`, `01`–`09`, `10`–`31`, or a space then `1`–`9`) joined by dashes are read as that year, month and day, so `2024-6-1` gives 2024-06-01; the string is accepted exactly when that is a real date |
| `Dates.ParsedDateTokens` | app.py:62 | every accepted string is four year digits, a month token and a day token joined by dashes, and its date is read from those tokens |
| `Dates.IsoFormat` | app.py:26 | the ISO form is ten characters with dashes at positions 4 and 7 |
| `Dates.MonthKey` | app.py:96 | the month key is the first seven characters of the ISO form |
| `Dates.MonthKeyInjective` | app.py:94-99 | two dates share a month key if and only if they have the same year and month |
| `Dates.PadDigitsValue` | app.py:26 | reading back a zero-padded field of the ISO form gives its number |
| `Expenses.ParseDecimal` | app.py:59 | a string amount converts only if non-empty and made of digits, signs and points; the value is negative only with a leading minus |
| `Expenses.ParseDecimalOfDigits` | app.py:59 | a string of digits converts to the number it denotes, unchanged after a leading plus and negated after a leading minus |
| `Expenses.NumeralValueScaled` | app.py:59 | a numeral with a point is worth all its digits read as one whole number, divided by ten once for each digit after the point |
| `Expenses.ParseDecimalOfPointed` | app.py:59 | digits, a point and digits (at least one digit in all) convert to the numeral's value, unchanged after a leading plus and negated after a leading minus |
| `Expenses.ParseDecimalShape` | app.py:59 | every string that converts is an optional sign then digits, or digits, a point and digits; its value is that numeral's value, negated after a minus |
| `Expenses.ParseAmount` | app.py:59 | the amount field converts unless it is null, an array, an object or a string that is not a numeral; a number is kept, a boolean becomes 1 or 0, a string gets the numeral's value |
| `Expenses.ParseExpenseRequest` | app.py:56-68 | the first failing check decides the error, in the source's order: not an object; no `amount`; an amount that does not convert; no `category`; no `date`; a date that is not a string; a date that does not parse; then, at the commit, a category and then a description that cannot be bound to a column (an array or an object), and after those a null category; a request is accepted exactly when it passes all of these with a text category and a text or null description; on success the draft holds the converted amount, the category, the description (`""` when absent) and the parsed date |
| `Expenses.AcceptedWithoutDescription` | app.py:58-63 | a body with a numeric amount, a text category and an ISO date but no description is accepted, with description `""` |
| `Expenses.ToJson` | app.py:20-28 | an expense serializes to an object with exactly the fields id, amount, category, description and date; they hold the record's id, amount, category, description (null when it has none) and the ISO form `YYYY-MM-DD` of its date |
| `Expenses.ResubmitSerialized` | app.py:20-28 | posting an expense's own serialized form as an add request is accepted and reproduces its amount, category, description and date |
| `Statistics.KeyTotalAbsent` | app.py:107 | a key that occurs in no record has total 0, so the month lookup's default agrees with the month's sum |
| `Statistics.GroupTotalsSum` | app.py:85-99 | the values of a totals table holding exactly the occurring keys with their sums add up to the grand total |
| `Statistics.SumAmountsRemove` | app.py:73-74 | removing one record lowers the grand total by its amount |
| `Statistics.KeyTotalRemove` | app.py:73-74 | removing one record lowers its own key's total by its amount and leaves other keys' totals alone |
| `Statistics.SumAmountsPermutation` | app.py:83-85 | the grand total does not depend on the order the records are read in |
| `Statistics.KeyTotalPermutation` | app.py:83-99 | no per-key total depends on the order the records are read in |
| `Statistics.TodayWithinMonth` | app.py:101-107 | with no negative amounts, today's total is between 0 and this month's total |
| `Statistics.TotalsBy` | app.py:86-99 | the loop builds a table whose keys are exactly the keys occurring in the records, each mapped to the sum of the amounts of its records |
| `Statistics.GetStatistics` | app.py:81-116 | the total is the sum of all amounts; the count is the number of records; category and month tables have exactly the occurring keys with their sums, and each table's values sum to the total; today's total sums the records dated today; this month's total is the month table's entry or 0, and equals the sum over this month's records |
| `Store.MaxId` | app.py:13 | the largest id in use bounds every id and is 0 or an id in use, so one more than it is fresh |
| `Store.IndexOfId` | app.py:72 | the lookup by primary key finds a record with that id exactly when the id is in use |
| `Store.WithoutId` | app.py:72-74 | an unknown id leaves the records as they are; a known id removes exactly one record with that id, keeps all others in order, and leaves the id unused |
| `Store.AddThenDelete` | app.py:54-75 | adding a record with a fresh id and then deleting that id restores the previous records |
| `Store.DeleteUpdatesTotals` | app.py:70-99 | after a delete there is one record fewer; the record's amount is taken off the grand total and off its category's and month's totals, and no other total changes |
| `Store.InsertByDate` | app.py:51 | inserting into a newest-first list keeps it newest first and adds exactly that record |
| `Store.ByDateDesc` | app.py:51 | the listing order is a permutation of the records with dates never increasing |
| `Store.ExpenseStore.constructor` | app.py:119-120 | a new store is empty and satisfies the store invariant |
| `Store.ExpenseStore.GetExpenses` | app.py:49-52 | the listing is a permutation of the stored records, newest date first |
| `Store.ExpenseStore.AddExpense` | app.py:54-68 | a refused request returns its error and stores nothing; an accepted one returns and appends exactly one record with a fresh positive id and the converted fields; ids stay unique |
| `Store.ExpenseStore.DeleteExpense` | app.py:70-75 | not-found is reported exactly when the id is unused, and then nothing changes; otherwise exactly that record is removed; afterwards the id is unused and ids stay unique |

## Left out

- HTTP routing, `request.json`, `jsonify` and status codes are left out. Errors are `AddError` values and the delete outcome is `DeleteOutcome`. A body sent without a JSON content type, which the framework rejects before the handler's `try`, is not modelled.
- Database persistence, commits, atomicity and concurrent requests are left out. The table is the store's `records` sequence. The statistics take one snapshot of it as their argument.
- The `created_at` timestamp and the clock reads are left out. The current date is a parameter of `Statistics.GetStatistics`.
- Binary floating point is left out. Amounts, including JSON numbers, are exact reals, so the sums carry no rounding.
- Expenses.ParseDecimal: covers an optional sign, ASCII digits and one decimal point only. The number conversion of a string also accepts surrounding whitespace, exponents, digit-group underscores, `inf`, `nan` and decimal digits of other scripts; the model refuses these.
- Dates.ParseDate: covers ASCII digits only. The date parser's `\d` also matches other Unicode decimal digits.
- Expenses.ParseExpenseRequest: a number or boolean `category` or `description` is passed to the database as it is and stored. The model refuses it with `CategoryNotText` or `DescriptionNotText`, after every check the source makes, the null category included. An array or object in either field is refused as the database's parameter binding refuses it, before the NOT NULL check. A null description is stored as `None`. A null category is refused as the NOT NULL column does at commit.
- Dates.MonthKey: always pads the year to four digits. The C library behind `strftime` may print years below 1000 unpadded; the grouping is the same either way.
- Store.ByDateDesc: the database sorts by the stored ISO text, which is calendar order for four-digit years. It does not promise an order among records with the same date; the model keeps their stored order, and its contract promises only newest first and a permutation.
- Store.ExpenseStore.AddExpense: the contract promises only a fresh id, although the body picks one more than the largest id in use. The 64-bit bound on ids is not modelled.
- The declared lengths of the category and description columns are not modelled; the database does not enforce them.
- The fixed category list and its endpoint, the index page, the startup banner and the port-in-use handling are left out. These are static data and console or UI output; the category list is never checked against.
