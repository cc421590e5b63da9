# BM-finance profit calculator — Dafny model

BM-finance is a single-page profit calculator for a small online shop. The
user either types the month's figures (orders, net sales with VAT, shipping,
total collected, marketing spend, daily fixed expenses, number of days) or
imports a tab-separated daily sales export. The imported days are sorted,
a date range is chosen, the days in the range are summed into the inputs,
and seven metrics are derived: net value without VAT, product cost, gross
profit, VAT, margin, average order value and total fixed costs.

This project models that import → aggregate → derive pipeline:

- `Types` (types.dfy) mirrors the three records `DailyRecord`, `InputState`
  and `CalculationMetrics`. Money is `real`.
- `Strings` (strings.dfy) gives the JavaScript string operations the parser
  uses: `trim`, `split` on one character, deleting every `"`, replacing the
  first `,`, and the `<=` order of strings.
- `Numbers` (numbers.dfy) gives `parseInt` and `parseFloat` as decimal
  prefix parsers that return `None` where JavaScript returns NaN.
- `CsvParser` (csv_parser.dfy) is `parseCSV`: trim and split the text into
  lines, drop the header, unwrap one pair of outer quotes per line, split on
  tabs, delete quotes, skip lines with fewer than five fields, and map the
  first five fields by position with unparsable numbers read as 0.
- `Dates` (dates.dfy) reads `YYYY-MM-DD` text as a proleptic Gregorian date
  at UTC midnight and gives the inclusive day count of a range.
- `Aggregate` (aggregate.dfy) is the filter and fold of the recompute
  effect: the records whose date lies between the bounds as strings, and
  the four sums over them.
- `Metrics` (metrics.dfy) is the metrics derivation with VAT fixed at 21%.
- `App` (app.dfy) is the component's state as a class `AppState` with the
  fields `inputs`, `importedData` and `dateRange`. Each action is a method.
  The effect is the explicit method `Recompute`, and `ImportFile` is an
  import followed by that recompute. The records are sorted in place in an
  array by an insertion sort.

Facts about the code that the model keeps:

- `InputField` maps an unparsable entry to 0 but does not clamp negative
  values; its `min="0"` is only an HTML hint.
- The VAT rate is the module constant `VAT_RATE` (0.21), not an input.
- The parser trims only the date field. Numeric fields keep their
  surrounding spaces, which `parseInt` and `parseFloat` skip themselves.

## Model

| member | source | states |
|---|---|---|
| Strings.Trim | utils/csvParser.ts:4 | the result is the slice of the text between the leading and trailing whitespace; the removed ends are all whitespace and the result neither starts nor ends with it |
| Strings.TrimIdempotent | utils/csvParser.ts:16 | trimming an already trimmed line changes nothing |
| Strings.Split | utils/csvParser.ts:29 | splitting gives one more piece than there are separators, no piece holds the separator, and joining the pieces gives the text back |
| Strings.SplitJoin | utils/csvParser.ts:4 | splitting the join of separator-free pieces gives those pieces back |
| Strings.SplitAtFirstSep | utils/csvParser.ts:4-8 | the first line of a text is the first piece and the rest are the pieces of what follows the first newline |
| Strings.DeleteAll | utils/csvParser.ts:33 | deleting a character leaves none of it and keeps every other character with its count |
| Strings.DeleteAllAppend | utils/csvParser.ts:33 | deleting a character from a concatenation deletes it from each part |
| Strings.ReplaceFirst | utils/csvParser.ts:41-43 | only the first occurrence of the character is replaced; length and every other position are kept |
| Strings.ReplaceFirstAt | utils/csvParser.ts:41 | replacing in a text whose first comma is at a known place rewrites exactly that place |
| Strings.ReplaceFirstAbsent | utils/csvParser.ts:41-43 | a text without a comma is left as it is |
| Strings.ReplaceFirstAfter | utils/csvParser.ts:41-43 | a prefix without a comma is kept and the replacement happens in what follows it |
| Strings.TrimStartSpaces | utils/csvParser.ts:41-43 | all whitespace in front of a text is skipped, whatever the text is |
| Strings.LexLe | App.tsx:108 | JavaScript's `<=` on strings: character by character, with a proper prefix before its extensions; its order properties are the lemmas below |
| Strings.LexLeReflexive | App.tsx:108 | every date string lies between itself and itself |
| Strings.LexLeAntisymmetric | App.tsx:108 | two strings each `<=` the other are equal |
| Strings.LexLeTransitive | App.tsx:108 | string `<=` is transitive |
| Strings.LexLeTotal | App.tsx:72 | any two strings are ordered one way or the other |
| Strings.LexLeConcat | App.tsx:108 | comparing two strings with equally long prefixes compares the prefixes first and the rest only on a tie |
| Numbers.LeadingDigits | utils/csvParser.ts:40 | the longest prefix of decimal digits |
| Numbers.ParseInt | utils/csvParser.ts:40 | `parseInt` fails exactly when, after leading whitespace and an optional sign, no digit follows |
| Numbers.ParseIntOfDigits | utils/csvParser.ts:40 | a run of digits followed by a non-digit reads as the number the digits denote |
| Numbers.ParseIntOfNegatedDigits | utils/csvParser.ts:40 | a minus sign and digits read as the negated number |
| Numbers.ParseIntShowInt | utils/csvParser.ts:40 | every integer written in decimal, followed by anything but a digit, reads back as itself |
| Numbers.UnsignedDecimal | utils/csvParser.ts:41-43 | an unsigned decimal prefix is found exactly when the text starts with a digit, or with a point and a digit |
| Numbers.UnsignedDecimalOfNumeral | utils/csvParser.ts:41-43 | digits, a point and fraction digits read as integer part plus fraction over the power of ten |
| Numbers.ParseFloat | utils/csvParser.ts:41-43 | `parseFloat` fails exactly when, after leading whitespace and an optional sign, no decimal literal starts |
| Numbers.ParseFloatSkipsSpaces | utils/csvParser.ts:41-43 | whitespace in front of a number does not change what `parseFloat` reads |
| Numbers.ParseFloatUnsigned | utils/csvParser.ts:41-43 | text starting with neither whitespace nor a sign reads as the unsigned decimal literal at its start |
| Numbers.ParseFloatNegated | utils/csvParser.ts:41-43 | a leading minus negates the literal after it, and with no literal after it the result is NaN |
| Numbers.UnsignedDecimalOfDigits | utils/csvParser.ts:41-43 | digits followed by neither a digit nor a point read as a whole number |
| Numbers.ParseFloatOfDigits | utils/csvParser.ts:41-43 | `parseFloat` of digits followed by neither a digit nor a point is the whole number they denote |
| Numbers.ParseFloatOfNumeral | utils/csvParser.ts:41-43 | digits, a point and fraction digits followed by a non-digit read back as the value they denote |
| Numbers.ShowNat | utils/csvParser.ts:40 | the decimal numeral of a natural number is non-empty, all digits and denotes that number |
| CsvParser.StripOuterQuotes | utils/csvParser.ts:16-19 | one character is removed from each end exactly when the line has at least two characters and starts and ends with a quote; a lone quote is kept |
| CsvParser.StripOuterQuotesOfWrapped | utils/csvParser.ts:17-18 | a line wrapped in quotes loses exactly that pair |
| CsvParser.StripDoubledQuotes | utils/csvParser.ts:33 | the pass that removes a doubled quote at either end never lengthens a field and leaves the field's characters other than quotes as they were |
| CsvParser.CleanField | utils/csvParser.ts:33 | a cleaned field holds no quote |
| CsvParser.CleanFieldDeletesQuotes | utils/csvParser.ts:33 | removing a leading and trailing doubled quote and then every quote is the same as removing every quote |
| CsvParser.CleanFieldKeepsTabs | utils/csvParser.ts:33 | cleaning keeps tabs: a cleaned field holds a tab exactly when the piece did |
| CsvParser.JoinCleanedFields | utils/csvParser.ts:29-34 | cleaning each piece and joining with tabs is deleting the quotes from the joined pieces |
| CsvParser.Fields | utils/csvParser.ts:16-34 | a line has one more field than it has tabs after trimming and unwrapping; no field holds a quote or a tab; joined with tabs the fields are the unwrapped line with its quotes deleted |
| CsvParser.FieldsBySplit | utils/csvParser.ts:16-34 | the fields are exactly the tab-separated pieces of the unwrapped line with every quote deleted |
| CsvParser.ParseAmount | utils/csvParser.ts:41-43 | `parseFloat` of the field with its first comma read as the decimal point, NaN read as 0; its values are the lemmas below |
| CsvParser.ParseAmountOfDigits | utils/csvParser.ts:41-43 | a whole amount such as `50` or `0` reads as its digits |
| CsvParser.ParseAmountNegativeDecimalComma | utils/csvParser.ts:41-43 | a negative amount with a decimal comma reads as the negated number |
| CsvParser.ParseAmountSkipsSpaces | utils/csvParser.ts:41-43 | spaces in front of an amount change nothing |
| CsvParser.ParseAmountDecimalComma | utils/csvParser.ts:41-43 | an amount written with a decimal comma reads as the number it denotes |
| CsvParser.Present | utils/csvParser.ts:52 | the kept records are at most as many as the lines and each is the record of some line |
| CsvParser.MapSeqAppend | utils/csvParser.ts:10 | mapping a concatenation maps each part |
| CsvParser.ParseCsv | utils/csvParser.ts:3-53 | text with no newline after trimming, including empty text, gives no record; there are never more records than newlines |
| CsvParser.ParseLineFieldCount | utils/csvParser.ts:29-36 | a line gives a record exactly when it has at least four tabs after trimming and unwrapping, so a blank line gives none |
| CsvParser.ToRecord | utils/csvParser.ts:39-51 | the record of the first five fields: the trimmed date, `parseInt` of the orders or 0, and the three amounts |
| CsvParser.ParseLine | utils/csvParser.ts:16-51 | the record of one data line, or none when it has fewer than five fields |
| CsvParser.ParseLines | utils/csvParser.ts:10-52 | the `map` over the data lines followed by the `filter` of skipped lines |
| CsvParser.ExtraFieldsIgnored | utils/csvParser.ts:36-43 | fields after the fifth do not change the record |
| CsvParser.PresentAppend | utils/csvParser.ts:52 | dropping the skipped lines of a concatenation drops them from each part |
| CsvParser.ParseLinesAppend | utils/csvParser.ts:10-52 | the records of a concatenation of lines are the records of the first part followed by those of the second, so line order is kept |
| CsvParser.ParseLinesFromLines | utils/csvParser.ts:10-52 | at most one record per line, and each record comes from some line |
| CsvParser.ParseOneLine | utils/csvParser.ts:36-51 | one line gives exactly the record of its first five fields when it has five fields, none otherwise |
| CsvParser.HeaderIgnored | utils/csvParser.ts:4-8 | for any text whose trimmed form is a first line, a newline and the rest, the records are exactly those of the lines of the rest, whatever the first line says |
| Dates.DivisorChain | App.tsx:102-103 | a multiple of 400 is a multiple of 100, and a multiple of 100 is a multiple of 4, as the leap-year rule needs |
| Dates.YearStep | App.tsx:102-103 | the days before a year grow by that year's length |
| Dates.MonthStep | App.tsx:102-103 | the days before a month grow by that month's length, and twelve months make the year |
| Dates.DaysBeforeYearMonotone | App.tsx:102-103 | later years start on later day numbers |
| Dates.DayNumber | App.tsx:102-104 | the day counted from 1 January of year 0 falls within its own year: at least the days before the year, and less than those plus the year's length |
| Dates.FirstDayNumber | App.tsx:102-103 | day numbers count from 1 January of year 0 |
| Dates.NextDayNumber | App.tsx:102-105 | the next calendar day is a valid date whose day number is one more |
| Dates.DayNumberIncreasing | App.tsx:72 | a strictly later date has a strictly larger day number |
| Dates.DayNumberOrder | App.tsx:72 | calendar order and day-number order agree |
| Dates.ParseDate | App.tsx:102-103 | text is a date exactly when it has the form `YYYY-MM-DD` and names a real calendar day |
| Dates.TimeValue | App.tsx:102-104 | `getTime()` of a date at midnight UTC: whole days since 1 January 1970 in milliseconds |
| Dates.CeilDiv | App.tsx:105 | `Math.ceil(a / k)`: the least number of `k`s that reach `a` |
| Dates.DayCount | App.tsx:102-105 | the day count exists exactly when both bounds are dates; it is at least 1, and 1 when the bounds are equal |
| Dates.WholeDays | App.tsx:105 | dividing a whole number of days in milliseconds by a day and rounding up gives that number of days |
| Dates.DayCountInDays | App.tsx:102-105 | the day count is the absolute difference of the day numbers plus one |
| Dates.DayCountSymmetric | App.tsx:104 | swapping the bounds does not change the day count |
| Dates.DigitsOrderStep | App.tsx:108 | appending one digit to each of two equally long digit strings keeps string order equal to numeric order |
| Dates.DigitsOrder | App.tsx:108 | equally long digit strings compare as strings as their values compare |
| Dates.TextOrderIsDateOrder | App.tsx:108 | for `YYYY-MM-DD` text, string order is calendar order |
| Dates.StringOrderIsTimeOrder | App.tsx:72 | for valid dates, string order is the order of their time values, so the sort comparator and string order agree |
| Aggregate.InRange | App.tsx:108 | `record.date >= start && record.date <= end`, both bounds included |
| Aggregate.AddRecord | App.tsx:112-115 | one step of the `reduce`: the record's four figures added to the running sums |
| Aggregate.SumRecords | App.tsx:111-121 | the `reduce` from zero sums, the last record added last; its properties are `SumAppend` and `SumPermutation` |
| Aggregate.RangeTotals | App.tsx:107-121 | the four sums over the records in the range |
| Aggregate.FilterRange | App.tsx:107-109 | the kept records are records of the input, each between the bounds as strings, and every record between the bounds is kept |
| Aggregate.SumAppend | App.tsx:111-121 | the sums of a concatenation are the sums of the parts added together |
| Aggregate.SumWithout | App.tsx:111-121 | the sums with one record removed are the sums less that record |
| Aggregate.SumPermutation | App.tsx:111-121 | the sums do not depend on the order of the records |
| Aggregate.FilterAppend | App.tsx:107-109 | filtering a concatenation filters each part |
| Aggregate.FilterKeepsAll | App.tsx:107-109 | when every record is in range, the filter keeps them all |
| Aggregate.ReversedRangeIsEmpty | App.tsx:107-121 | when the start comes after the end as strings, no record is kept and all four sums are 0 |
| Aggregate.FullRangeSumsAll | App.tsx:107-121 | over sorted records, the range from the first to the last date sums every record |
| Metrics.Derive | App.tsx:133-167 | net without VAT times 1.21 is net with VAT; VAT plus net without VAT is net with VAT; product cost is half of net without VAT; gross profit is half of net without VAT less marketing and fixed costs; with positive net sales the divisor is positive and margin times it is 100 times gross profit, otherwise margin is 0; with positive orders AOV times orders is the total, otherwise AOV is 0 |
| Metrics.FixedCostsAndVat | App.tsx:141-146 | fixed costs are the daily rate times the days, and VAT is 21% of the net without VAT |
| Metrics.LossWhenCostsExceedHalf | App.tsx:144 | gross profit is negative exactly when marketing and fixed costs exceed half of the net without VAT |
| Metrics.GrossProfitFallsWithMarketing | App.tsx:144 | changing the marketing cost by any amount changes gross profit by exactly minus that amount |
| Metrics.GrossProfitFallsWithFixedExpenses | App.tsx:141-144 | raising the daily expense lowers gross profit when the day count is positive |
| Metrics.WorkedExample | App.tsx:133-167 | 1210 with VAT, 100 marketing, 50 a day for 2 days, 5 orders totalling 1300 give 1000, 500, 300, 210, 30, 260 and 100 |
| App.Set | App.tsx:58-60 | the chosen field takes the new value and every other field keeps its own |
| App.MergeTotals | App.tsx:123-127 | merging sums into the inputs keeps the marketing cost and the daily expense |
| App.SortByDate | App.tsx:72 | afterwards the array is sorted by date and holds the same records as before |
| App.InsertLast | App.tsx:72 | one insertion step extends the sorted prefix by one record and keeps the same records |
| App.AppState.constructor | App.tsx:45-56 | the inputs start at zero over one day, with no records and empty bounds |
| App.AppState.HandleInputChange | App.tsx:58-60 | only the chosen input changes; records and range are kept |
| App.AppState.LoadRecords | App.tsx:72-80 | the records become a date-sorted reordering of the parsed ones and the range spans the first to the last date; the inputs are kept |
| App.AppState.LoadText | App.tsx:68-81 | an empty parse changes nothing; otherwise the records are a sorted reordering of the parse and the range runs from the first to the last date |
| App.AppState.ClearImport | App.tsx:88-92 | no records, both bounds empty, one day, every other input kept |
| App.AppState.SetStart | App.tsx:263 | only the start bound changes |
| App.AppState.SetEnd | App.tsx:274 | only the end bound changes |
| App.AppState.Recompute | App.tsx:95-129 | without records or with an empty bound the inputs are kept; otherwise the four sums over the records in range and the day count replace their inputs; marketing cost and daily expense are always kept; records stay sorted |
| App.AppState.ImportFile | App.tsx:68-129 | after an import and its recompute, the inputs hold the sums of every parsed record and the day count of the whole span, unless the parse is empty or its earliest date is empty text |
| App.WholeImportSums | App.tsx:77-121 | over sorted records, the range from the first to the last date sums every record, in whatever order they were parsed |

## Left out

- The page itself: JSX, icons, the bar and pie charts and their data, including the `Math.max(0, grossProfit)` chart slice and the percentage label.
- Browser I/O: `FileReader`, the file input and resetting it. `LoadText` takes the file's text as a parameter.
- React's hook machinery. The state is the fields of `AppState`. `Recompute` and `Metrics.Derive` are called explicitly instead of being run by `useEffect` and `useMemo`.
- components/InputField.tsx and ResultCard.tsx are presentation. The only logic in the input field maps an unparsable entry to 0. `HandleInputChange` accepts any real, negatives included, because the field's `min="0"` does not clamp.
- `utils/formatters` is not part of this model. Currency and number formatting only affect display.
- Numbers.ParseFloat: reads only an optional sign and a decimal prefix. Exponents, `Infinity` and IEEE-754 rounding are not modelled, and all arithmetic is exact `real`.
- Numbers.ParseInt: reads only decimal digits. Radix prefixes and the 2^53 precision limit are not modelled.
- Strings.LexLe: compares whole characters. JavaScript compares UTF-16 code units, which differs only for characters outside the Basic Multilingual Plane.
- Dates.ParseDate: accepts only `YYYY-MM-DD` with a four-digit year of a real calendar day. `Date` also accepts other forms, extended years and, in some engines, out-of-range days. Those are all read here as not a date.
- App.AppState.Recompute: for a non-empty bound that is not `YYYY-MM-DD`, the source uses whatever `Date` makes of it. Text it cannot read gives NaN as the day count. A form such as `12/13/2025` or `2025-1-5` is read as a local-time instant, and the source stores the finite day count from that. Across a daylight-saving change that count can be one day more. In all these cases the model keeps the previous day count. The sums are still updated.
- App.SortByDate: orders by the date string. For `YYYY-MM-DD` dates this is the comparator's order (`Dates.StringOrderIsTimeOrder`). For other text the source's comparator uses whatever `Date` makes of it: NaN for text it cannot read, with an engine-dependent order, and a local-time instant for forms such as `12/13/2025`, ordered by time. The model still orders such text by string, so `01/05/2026` sorts before `12/13/2025`, and the range then gets different first and last dates than in the source. That the sort is stable is not stated.
- App.AppState.ImportFile: states nothing about the inputs when the earliest imported date is empty text. The recompute then returns early in the source too, because an empty start bound counts as no range.
- Time zones: `YYYY-MM-DD` text is read as UTC midnight, so such a range always spans a whole number of days. Other forms `Date` reads as local-time instants, whose differences depend on the time zone and on daylight-saving changes. They are not modelled (see `App.AppState.Recompute` and `App.SortByDate`).
