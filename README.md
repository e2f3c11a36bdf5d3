# discord-expense, modelled in Dafny

discord-expense is a Discord bot that records expenses in a Google Sheet.
Its `/expense` command appends a row of date, category, amount and
description to the sheet. The sheet keeps the expense rows in columns A:D
under a fixed header row. After every append the bot re-sorts the rows by
date and rebuilds two summary tables: yearly totals in F:G and monthly
totals of the current year in I:J. The bot also keeps a registry of
category names. The registry is seeded with ten predefined names, grown
from the sheet's Category column and from every recorded expense, and
offered through a case-insensitive autocomplete capped at 25 choices.

This project models the rules inside that plumbing, module by module:

- `Header` is the header-row check.
- `Aggregate` holds the yearly and monthly aggregation: a scan loop over the rows into a map, then a sort of its entries.
- `Sorting` is the in-place sort both the aggregation and the date sort rely on. It is an insertion sort on an array by an integer key.
- `Dates` covers the date texts: the year key, the month label, the date order and the default date.
- `Categories` is the category registry: a class whose `items` is the set in iteration order, plus the autocomplete filter.
- `AppendRange` reads the appended row number out of the A1 range the store reports and computes the un-bold span for that row.
- `Sync` is the sheet itself. `Sheet` is a class holding the header, the expense rows and the two tables, with the operations `checkAndAddHeaders`, `sortExpensesByDate`, `updateYearlyTotals`, `updateMonthlyTotals` and `addExpenseToSheet`.
- `Text` and `Seqs` are the string and sequence helpers these modules share.

Parameters stand in for the store and the clock:

- A read of a range is a parameter, or a field of `Sheet`.
- The range an append reports is a parameter, and None means the append failed.
- The current year, month and day are parameters.

Amounts are `real` numbers.

Some orderings are left open by the JavaScript engine. The model fixes each one as follows:

- A year key that is not a number compares as `NaN` in the yearly sort (index.js:104). That comparator is then inconsistent, and the engine may leave the table in any order, even among the numeric years. The model chooses to sort such keys before every numeric year and to keep the numeric years ascending.
- The date sort orders only dates written `YYYY-MM-DD` with a month of 1..12 and a day of 1..31. A first cell that `new Date` cannot parse makes the comparator (index.js:239-243) return `NaN` for every pair it takes part in, so it is inconsistent, and the engine may then leave even the parsed dates unsorted. The model chooses to sort rows without such a date before every dated row and to keep the dated rows in chronological order.
- A month label that is not a month name ("Invalid Date") has `indexOf` -1. It therefore sorts before January, as the comparator in index.js:180-184 makes it.

## Model

| member | source | states |
|---|---|---|
| Header.NeedsHeaderWrite | index.js:367-375 | row 1 is rewritten exactly when it is absent, has no row, or its first row is not exactly Date, Category, Amount, Description |
| Header.HeaderAfterCheck | index.js:367-388 | after the check, row 1 holds the canonical header, and a canonical header is left as it was |
| Header.HeaderCheckIdempotent | index.js:367-388 | running the check twice writes nothing the second time and changes nothing |
| Sync.Sheet.CheckAndAddHeaders | index.js:354-405 | reports a write exactly when row 1 needs one, and leaves the canonical header in row 1 and every other region untouched |
| Text.ParseAmount | index.js:93 | `parseFloat` gives a number exactly when, after an optional sign, the text starts with a digit or with a point and a digit; without a '-' sign the number is not negative |
| Text.Fraction | index.js:93 | the digits after the point add a fraction of at least 0 and below 1 |
| Text.ParseAmountDecimal | index.js:93 | whole digits, a point and fraction digits read back as the value of the whole digits plus the fraction of the others, whatever non-digit text follows |
| Text.ParseAmountTwelveAndAHalf | index.js:93 | "12.5" reads back as 12.5 |
| Text.ParseAmountShow | index.js:93 | `parseFloat` reads a written whole number back as that number, whatever non-numeric text follows |
| Text.ParseAmountRejects | index.js:93 | text that starts with neither a digit, a sign nor a point is not a number |
| Text.ParseIntPrefix | index.js:171 | `parseInt` of decimal text succeeds exactly when an optional sign is followed by a digit (hexadecimal prefixes are left out) |
| Text.Field | index.js:96 | a field of `split(sep)` never contains the separator, and field 0 is the text before the first separator |
| Text.BeforeFirst | index.js:96 | `split(sep)[0]`: the text before the first separator, and the whole text when there is none |
| Aggregate.Counted | index.js:91-95 | definition of the guard `row.length >= 3`, a non-empty date and a numeric amount; its meaning for the scans is given by Bucket |
| Aggregate.Bucket | index.js:90-99 | a row is counted exactly when it has at least 3 cells, a non-empty date and a numeric amount (and, monthly, the current year as its year key); it carries that amount under its year key or month label |
| Aggregate.GroupSum | index.js:87-100 | the scan loop yields each key once, in the order the Map first receives it, and maps every key some counted row has to the sum of those rows' amounts |
| Aggregate.FirstKeysMember | index.js:97 | a key is in the Map's key list exactly when some row's label carries it |
| Aggregate.FirstKeysOrder | index.js:97 | the Map's keys are in first-seen order: wherever a later key occurs, every earlier key has already occurred before it |
| Aggregate.Entries | index.js:103 | `Array.from(map.entries())`: one entry per key, in key order, each carrying that key's total |
| Aggregate.EntryOrder | index.js:104 | the position the entry sorts at is at least -1, and below 12 in the monthly table; YearOrder and MonthOrder give its meaning for each comparator |
| Aggregate.EntriesTabulate | index.js:103-105 | the Map's entries, before sorting, are one line per key with that key's total |
| Aggregate.Accumulate | index.js:97 | one `set(key, (get(key) \|\| 0) + amount)` step adds the row's amount to its key only, adding the key if it is new |
| Aggregate.TotalOutsideKeySet | index.js:97 | a key no counted row has gets a total of zero |
| Aggregate.Tabulate | index.js:103-105 | the sorted table has one line per key with that key's total, in the scan's order |
| Aggregate.YearlyTotals | index.js:87-105 | the yearly table has exactly one line per year key with the sum of that year's amounts, sorted by numeric year |
| Aggregate.YearOrder | index.js:104 | an all-digit year key sorts by its numeric value; any other key sorts at -1, before every numeric year |
| Aggregate.MonthlyTotals | index.js:160-185 | the monthly table has one line per month present among the current year's rows with the sum of its amounts, in calendar order |
| Aggregate.MonthlyCoversYear | index.js:163-172 | the monthly scan of a year counts exactly the amounts the yearly scan files under that year |
| Aggregate.TableSumsAllAmounts | index.js:90-105 | a table's totals column adds up to the sum of every amount the scan counts |
| Aggregate.TotalPermutation | index.js:239-243 | reordering the rows, as the date sort does, leaves every total unchanged |
| Aggregate.KeySetPermutation | index.js:239-243 | reordering the rows leaves the set of keys unchanged |
| Aggregate.TabulatesPermutation | index.js:103-105 | any reordering of a correct table is still a correct table, which covers the entry sort |
| Dates.MonthOfField | index.js:169-171 | `parseInt(month)` turned into a month name: a month name, or "Invalid Date" when the field is missing or not a number |
| Dates.MonthLabel | index.js:171 | the month label is a month name or "Invalid Date" |
| Dates.YearKey | index.js:96 | the year key is the longest prefix of the date without '-', and it ends at the first '-' |
| Dates.MonthName | index.js:171 | a month number out of 1..12 still names a month, counted round the year |
| Dates.MonthNameOfIndex | index.js:171 | month number i+1 is named by the i-th month name |
| Dates.IndexOf | index.js:183 | `indexOf` is the first position of the name, and -1 exactly when the name is absent |
| Dates.MonthOrder | index.js:181-183 | a label's position is -1..11; a non-negative position is where the label stands among the month names; -1 exactly when the label is not a month name |
| Dates.MonthOrderOfName | index.js:181-183 | each month name sorts at its own calendar position, so the order is January to December and not alphabetical |
| Dates.MonthOrderOfInvalid | index.js:183 | the "Invalid Date" label has position -1 |
| Dates.ParseDate | index.js:240-241 | a parsed date has a month of 1..12, a day of 1..31 and a four-digit year |
| Dates.DateKey | index.js:239-243 | a row has a non-negative date key exactly when its first cell parses as a date |
| Dates.DateKeyChronological | index.js:239-243 | for dates that parse, the key order is chronological order, both ways |
| Dates.DefaultDateParses | index.js:474-480 | a default date in a four-digit year is valid `YYYY-MM-DD` text that parses back to the clock's date |
| Dates.DefaultDate | index.js:474-480 | the date built from the clock is filed under the clock's year and the clock's month |
| Text.Show | index.js:476-479 | `String(n)` is non-empty decimal digits, a single digit exactly below 10 |
| Text.DigitsValueShow | index.js:476-479 | `String(n)` reads back as n |
| Text.Pad2 | index.js:477-478 | `padStart(2, "0")` left-pads with zeros to at least two characters |
| Text.DigitsValuePad2 | index.js:477-478 | a padded number below 100 is two digits that read back as that number |
| Sorting.SortByKey | index.js:239-243 | the array is rearranged into non-decreasing key order and keeps exactly its elements |
| Sorting.Insert | index.js:239 | one insertion step extends the sorted prefix by one element and keeps the elements |
| Sync.Sheet.SortExpensesByDate | index.js:226-267 | the expense rows become a permutation of themselves in date-key order, and nothing else changes |
| Sync.SortedIsChronological | index.js:239-243 | when every date parses, the sorted rows are in chronological order; when some date does not parse, the chronological order of the parsed dates is the model's chosen order |
| Sync.Overwrite | index.js:127-134 | writing a table from its first data row keeps the written lines first and leaves older lines below them as they were |
| Sync.OverwriteIdempotent | index.js:127-134 | writing the same table twice leaves what writing it once leaves |
| Sync.Sheet.UpdateYearlyTotals | index.js:74-144 | F:G receives the yearly table of the current rows, written over the old one |
| Sync.Sheet.UpdateMonthlyTotals | index.js:146-224 | I:J receives the monthly table of the current rows for the given year, written over the old one |
| Categories.AddName | index.js:286 | adding an existing name changes nothing; adding a new one appends it and grows the set by one |
| Categories.Registry.constructor | index.js:36 | the registry starts as the ten predefined names |
| Categories.Registry.Add | index.js:286 | `categories.add` keeps the names distinct and adds exactly that name |
| Categories.CategoryCell | index.js:341-342 | definition of `row[0]` taken only when it is non-empty; its meaning for loading is given by AdmitColumnAdmits |
| Categories.AdmitColumnAdmits | index.js:340-345 | loading only adds, keeps the old names first and keeps names distinct; a name is known afterwards exactly when it was known or is a non-empty category cell |
| Categories.Registry.Load | index.js:330-346 | `loadExistingCategories` admits the category of every row in turn, and nothing when the read has no values |
| Text.ToLower | index.js:515-518 | lower-casing keeps the length, leaves no upper-case letter A-Z, turns each of A-Z into its lower-case letter and keeps every other character |
| Text.ToLowerIdempotent | index.js:515-518 | lower-casing twice is lower-casing once |
| Categories.Matches | index.js:518 | definition of `choice.toLowerCase().includes(input)`; its meaning is given by ContainsIff and MatchesIgnoresInputCase |
| Categories.MatchesIgnoresInputCase | index.js:515-518 | whether a category matches does not depend on the case of the input |
| Text.ContainsIff | index.js:518 | `includes` holds exactly when the input occurs at some position |
| Categories.Autocomplete | index.js:515-519 | at most 25 choices, each a known category that matches the input; when fewer than 25 are returned, every match is returned |
| Categories.FilterMembers | index.js:518 | a name passes the filter exactly when it is a known category that matches |
| Categories.FilterConcat | index.js:518 | the filter keeps the registry's iteration order |
| Categories.AutocompleteIsLeadingMatches | index.js:519 | the answer is the leading part of the ordered list of matches |
| Categories.AutocompleteEmptyInput | index.js:515-519 | an empty input matches every category, so the first 25 categories are offered |
| Text.FirstDigitRun | index.js:296 | `match(/\d+/)` finds a non-empty run of digits exactly when the text has a digit |
| AppendRange.StartCell | index.js:296 | the start cell exists exactly when the range has a '!', and it contains neither ':' nor '!' |
| AppendRange.AppendedRow | index.js:296-297 | the row number fails (the TypeError) exactly when there is no '!' or no digit in the start cell |
| AppendRange.UnboldSpan | index.js:296-297 | the span is one row wide, and its zero-based start is the appended row number minus one |
| AppendRange.AppendedRowOfRange | index.js:296-297 | for a range `sheet!<col><row>:<col><row>`, the row number read back is the start cell's row |
| AppendRange.UnboldSpanOfRange | index.js:296-297 | for the range of a one-row append, the un-bold span covers exactly that row |
| Sync.ExpenseRow | index.js:280 | the appended row is counted exactly when its date is non-empty and its amount is a number; then the yearly scan files its amount under the date's year key, and the monthly scan of that year, and only of that year, under the date's month label; its category cell is the category |
| Sync.ExpenseDate | index.js:474-480 | the given date is kept; a missing or empty one becomes today's default date |
| Sync.UndatedExpenseIsToday | index.js:474-480 | an undated expense parses as today and is filed under this year and this month |
| Sync.UndatedExpenseCounts | index.js:474-480 | an undated expense with a whole amount adds that amount to this year's total and to this month's monthly total |
| Sync.AppendThenSortTotals | index.js:284-321 | appending a row and then sorting changes each total by that row's contribution alone |
| Sync.Sheet.AddExpense | index.js:269-328 | a failed append changes nothing; otherwise the row is appended and its category registered; if the row number cannot be read the call fails there; on success the rows are re-sorted, each yearly total grows by the row's share, and both tables are rebuilt as correct tables, in year order and in calendar order, written over the old ones |

## Left out

- The Google Sheets and Discord calls, authentication, bold and un-bold formatting, and replies are left out; reads and reported ranges are parameters, and the issued un-bold spans are only recorded.
- A failure of any call other than the append is not modelled: such a call either stops `addExpenseToSheet`, or is caught inside the sort and table updates.
- The table headings ("Year", "Total Expenses", "Month", "Total Expenses (year)") are not modelled; the tables hold only their data lines.
- Concurrent commands and the read-clear-write window of the date sort are left out.
- The clock is a parameter: the current year, and today's year, 0-based month and day.
- Text.ParseAmount: models `parseFloat` as optional sign, digits, optional point and digits, read as a prefix. Leading white space, exponents, "Infinity" and floating-point rounding are not modelled.
- Text.ParseIntPrefix: leading white space is not skipped, and a "0x" or "0X" prefix is read as the decimal digit 0: JavaScript reads "0x5" as hexadecimal 5 and "0x" alone as `NaN`, where the model gives 0 for both.
- Text.ToLower: only the ASCII letters A-Z are lower-cased. JavaScript's `toLowerCase` maps every Unicode letter and can change the length of the text ("İ" becomes two characters).
- Dates.MonthName: a month number that carries the date outside the range a JavaScript Date can hold (about 3.3 million months either side of 1970) gives "Invalid Date" in JavaScript; the model still names a month.
- Dates.ParseDate: `new Date` accepts many more formats than `YYYY-MM-DD`, and rolls a day past the month's end into the next month. Rows the model does not parse sort first. One date JavaScript cannot parse makes the comparator return `NaN`, which leaves the order of the whole array to the engine, so even the parsed dates may stay unsorted there; the model always sorts them.
- Sorting.SortByKey: the sort is an insertion sort. It is not proved stable, and `Array.prototype.sort`'s own algorithm is not modelled.
- Aggregate.YearOrder: `Number(key)` also accepts white space, signs, decimals, exponents ("2e3") and hexadecimal ("0x7E8") in a key, and other numeric forms. Those keys are ordered here as non-numbers.
- Sync.Sheet.AddExpense: the amount is the cell text the sheet stores for the number. How the sheet formats a number, and how it re-reads a `USER_ENTERED` date, are not modelled.
- Sync.Sheet.SortExpensesByDate: the clear and rewrite through `USER_ENTERED` could reformat cells. Cells are kept as they are.
- Dates.MonthLabel: the month name is the English long name; other locales are not modelled.
- The read of A2:D drops trailing empty cells of a row. Rows are taken as the read returns them.
