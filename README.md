# Ledger core in Dafny

A model of the core of a small personal-finance ledger. The ledger keeps its
transactions in one append-only text file, `transactions.csv`, one
transaction per line:

```
date|time|description|vendor|amount
```

Amounts are negative for expenses and positive for income. The model covers
four parts:

- **The record codec.** This is how `readTransactions` decodes the lines of
  the file and how `addTransaction` encodes a new one.
- **The store.** The file is held by a class whose state is either absent or
  a sequence of lines. `ensureCsvExists` creates it with its header line.
  Adding an entry writes one line and its terminator. The file then holds
  the physical lines `BufferedReader.readLine` finds in that text: one line,
  or two or more when the description or the vendor holds a line break.
- **The query engine.** Every listing is an order-preserving filter over the
  loaded transactions:
  - the expense / income / all listing of `showFiltered`;
  - `filterByDate`, with the four calendar windows of `showReports`;
  - `searchByVendor`;
  - the AND of optional criteria in `runCustomSearch`.
- **The aggregator.** These are the income, expense and net totals of
  `displayBalance`.

Each Java loop is a Dafny `method` whose `while` loop carries its
invariants. Each method is proved equal to one specification function:

| method | specification function |
|---|---|
| read loop | `Loaded` / `Rejected` |
| filter loops | `Select` |
| balance loop | `IncomeTotal` / `ExpenseTotal` / `AmountTotal` |

The properties that matter are then proved as lemmas about those functions.
They include:

- encoding then decoding a line round-trips;
- only the first line can be a header;
- an append never changes what the earlier lines load as;
- every listing is a subsequence of its input with exactly the rows its test keeps;
- expense, income and zero rows partition the input;
- each calendar window holds exactly the days it names;
- the balance totals agree with the listings.

Files, in dependency order:

| file | holds |
|---|---|
| `text.dfy` | `Option` and the `java.lang.String` operations used: trim, isBlank, toLowerCase, startsWith, contains, replace, split with limit -1 |
| `decimal.dfy` | digit strings, the decimal reader behind `Double.parseDouble`, and `String.format("%.2f")` with HALF_UP rounding |
| `calendar.dfy` | `LocalDate` and `LocalTime` values, month lengths with the Gregorian leap rule, date order, and `ISO_LOCAL_DATE` / `ISO_LOCAL_TIME` in both directions |
| `lines.dfy` | the physical lines `BufferedReader.readLine` returns from a text |
| `codec.dfy` | `Transaction`, line decoding and the read loop, and line encoding |
| `query.dfy` | filters, `Select` and the filter loops |
| `balance.dfy` | the balance totals and their loop |
| `reports.dfy` | the report windows of `showReports` |
| `store.dfy` | the file as a class and the operations that read or write it |

Modelling choices:

- **Amounts are exact decimals (`real`).** Reading `4.567` from the file gives
  exactly 4.567. `%.2f` is the rounding of the magnitude to cents, HALF_UP.
  An expense's amount is `-Math.abs(a)`, a double whose sign bit is always
  set, so the writer always prints a `-` for it, even for `-0.00`. The model
  therefore passes the writer a sign flag and a magnitude.
- **The clock is a parameter.** `LocalDate.now()` and `LocalTime.now()` become
  the `today` and `now` parameters. The add operations require a valid date
  whose year lies in 0000..9999 and a valid time of day.
- **Times are written to the second.** `addTransaction` clears the
  nano-of-second before writing. The fraction branch of the time formatter
  and its round-trip lemmas are still modelled. They matter because the read
  side accepts a fraction in a hand-edited line, and `Calendar.ParseFormatTime`
  states the round trip for every valid time.
- **The header check follows the code.** Only the first physical line is
  checked for a header. A blank first line is skipped as a blank line, and
  the line after it is decoded as data (`Codec.BlankFirstLine`).
- **Written lines are never headers.** A data line written by the ledger
  starts with a digit of the year, so it can never be taken for a header
  (`Codec.EncodedLineIsData`).

## Model

| member | source | states |
|---|---|---|
| Text.Trim | src/main/java/org/example/Ledger.java:61 | the trimmed text neither starts nor ends with a character at or below U+0020 |
| Text.TrimInfix | src/main/java/org/example/Ledger.java:73-77 | trimming only removes characters from the two ends: the result is an infix of the input |
| Text.TrimClean | src/main/java/org/example/Ledger.java:73-77 | a text already starting and ending with a visible character is its own trim |
| Text.TrimIdempotent | src/main/java/org/example/Ledger.java:268-276 | trimming twice is trimming once |
| Text.ToLowerNoCapitals | src/main/java/org/example/Ledger.java:61 | lower-casing leaves no capital letter and keeps every character that was not a capital |
| Text.ToLowerIdempotent | src/main/java/org/example/Ledger.java:232 | lower-casing twice is lower-casing once, so the answer lower-cased at line 232 is already in the form of the lower-cased vendor it is compared with at line 259 |
| Text.Replace | src/main/java/org/example/Ledger.java:160 | same length, every `from` replaced by `to`, the rest kept, and no `from` left when the two differ |
| Text.MissingFirstCharacter | src/main/java/org/example/Ledger.java:259 | a needle whose first character occurs nowhere in the text is not contained in it |
| Text.JoinLast | src/main/java/org/example/Ledger.java:160 | a joined line ends with the last character of its last part |
| Text.JoinMembership | src/main/java/org/example/Ledger.java:160 | a character other than the separator occurs in a join exactly when it occurs in one of the parts |
| Text.JoinFive | src/main/java/org/example/Ledger.java:160 | the five fields of a line, joined, written out with their four delimiters |
| Text.SliceOfSuffix | src/main/java/org/example/Ledger.java:73-77 | taking a prefix of a suffix is taking an infix |
| Text.JoinSplit | src/main/java/org/example/Ledger.java:69 | split with limit -1 cuts exactly at the separators: no part holds one, and joining the parts gives the line back |
| Text.SplitWithoutSeparator | src/main/java/org/example/Ledger.java:69 | a text without the separator is a single field |
| Text.SplitAtSeparator | src/main/java/org/example/Ledger.java:69 | splitting `a + sep + b` splits each side on its own, so empty fields, trailing ones included, are kept |
| Text.SplitJoin | src/main/java/org/example/Ledger.java:69 | split undoes join when no part holds the separator |
| Lines.LineLength | src/main/java/org/example/Ledger.java:57 | the first physical line holds no line break and stops at the first one |
| Lines.NextLine | src/main/java/org/example/Ledger.java:57 | the next line starts after the first line's terminator, which is one or two characters (`\r\n`) |
| Lines.ReadLines | src/main/java/org/example/Ledger.java:57 | no physical line holds a line break, and a non-empty text has at least one line |
| Lines.LineLengthBound | src/main/java/org/example/Ledger.java:57 | the first line ends at or before every line break |
| Lines.LineLengthAt | src/main/java/org/example/Ledger.java:57 | the first line is exactly the break-free stretch before the first line break |
| Lines.ReadOneLine | src/main/java/org/example/Ledger.java:57 | a break-free text followed by a line feed reads back as that one line |
| Lines.ReadTwoLines | src/main/java/org/example/Ledger.java:57 | two break-free lines, each followed by a line feed, read back as those two lines |
| Lines.ReadBrokenLine | src/main/java/org/example/Ledger.java:57 | a text holding a line break, and not ending in one, reads back as two lines or more |
| Lines.ReadLinesSingle | src/main/java/org/example/Ledger.java:57 | a non-empty text that does not end in a line break, followed by a line feed, reads back as itself alone exactly when it holds no line break |
| Decimal.ParseDigits | src/main/java/org/example/Ledger.java:73-74 | a digit string of length n has a value below 10^n |
| Decimal.FixedDigits | src/main/java/org/example/Ledger.java:160 | a zero-padded field has exactly the given width and only digits |
| Decimal.NatToString | src/main/java/org/example/Ledger.java:160 | a numeral has at least one digit and no leading zero |
| Decimal.ParseFixedDigits | src/main/java/org/example/Ledger.java:73-74 | a zero-padded field reads back as its value |
| Decimal.FixedDigitsOfParse | src/main/java/org/example/Ledger.java:73-74 | a digit string is the zero-padded form of its own value |
| Decimal.ParseNatToString | src/main/java/org/example/Ledger.java:77 | a numeral reads back as its value |
| Decimal.Abs | src/main/java/org/example/Ledger.java:157-158 | Math.abs: non-negative and equal to the argument or its negation |
| Decimal.RoundHalfUp | src/main/java/org/example/Ledger.java:160 | the cents count is the HALF_UP rounding of the magnitude times 100 |
| Decimal.RoundingError | src/main/java/org/example/Ledger.java:160 | the rounded magnitude is within half a cent of the exact one |
| Decimal.ParseCentsNumeral | src/main/java/org/example/Ledger.java:77 | a two-decimal numeral reads back as its number of cents over 100 |
| Decimal.SplitCentsNumeral | src/main/java/org/example/Ledger.java:77 | a two-decimal numeral splits at its point into the whole part and the two decimals |
| Decimal.CentsNumeralTrimmed | src/main/java/org/example/Ledger.java:77 | a signed two-decimal numeral is unchanged by trimming |
| Decimal.ParseSignedCents | src/main/java/org/example/Ledger.java:77 | a signed two-decimal numeral reads back with its sign |
| Decimal.NegativeCents | src/main/java/org/example/Ledger.java:77 | a two-decimal numeral behind a minus sign reads back as minus its value |
| Decimal.UnsignedCents | src/main/java/org/example/Ledger.java:77 | a two-decimal numeral with no sign reads back as its value |
| Decimal.ParseFixed2 | src/main/java/org/example/Ledger.java:77 | reading back what `%.2f` printed gives the rounded magnitude with the printed sign |
| Calendar.LengthOfMonth | src/main/java/org/example/Ledger.java:217 | every month has 28 to 31 days |
| Calendar.NextDay | src/main/java/org/example/Ledger.java:216-217 | the next day is a valid date after the given one |
| Calendar.NextDayIsSuccessor | src/main/java/org/example/Ledger.java:216-217 | no valid date lies strictly between a date and the next day |
| Calendar.ParseDate | src/main/java/org/example/Ledger.java:73 | an accepted date is a real calendar date with a four-digit year |
| Calendar.ParseDateFields | src/main/java/org/example/Ledger.java:73 | how a text already cut into its year, month and day fields is read |
| Calendar.ParseFormatDate | src/main/java/org/example/Ledger.java:160 | a formatted date reads back as itself |
| Calendar.FormatParseDate | src/main/java/org/example/Ledger.java:281 | the date parser accepts nothing but the text the formatter writes |
| Calendar.StripTrailingZeros | src/main/java/org/example/Ledger.java:160 | drops exactly the trailing zero digits |
| Calendar.FractionValue | src/main/java/org/example/Ledger.java:74 | a fraction of up to nine digits is a nano-of-second below 10^9 |
| Calendar.ParseTime | src/main/java/org/example/Ledger.java:74 | an accepted time is a valid time of day |
| Calendar.StripTrailingZerosValue | src/main/java/org/example/Ledger.java:160 | dropping trailing zeros divides the value by the matching power of ten |
| Calendar.FractionRoundTrip | src/main/java/org/example/Ledger.java:74 | the printed fraction of a non-zero nano-of-second reads back as it |
| Calendar.FormattedTimeFields | src/main/java/org/example/Ledger.java:160 | where hour, minute and the rest sit in a formatted time |
| Calendar.SecondsRoundTrip | src/main/java/org/example/Ledger.java:74 | the formatted seconds and fraction read back as the second and nano-of-second |
| Calendar.ParseFormatTime | src/main/java/org/example/Ledger.java:74 | a formatted time reads back as itself |
| Codec.HeaderStartsWithD | src/main/java/org/example/Ledger.java:61-62 | a line taken for the header has `d` or `D` as its first visible character |
| Codec.MapLines | src/main/java/org/example/Ledger.java:57-83 | one outcome per line |
| Codec.BodyStart | src/main/java/org/example/Ledger.java:56-66 | at most the first line is skipped as a header |
| Codec.DecodeLines | src/main/java/org/example/Ledger.java:51-88 | the read loop with its `firstLine` flag returns exactly the loaded transactions and the rejected lines of the file |
| Codec.ReadLine | src/main/java/org/example/Ledger.java:68-82 | one data line adds its own outcome to what was read so far |
| Codec.Record | src/main/java/org/example/Ledger.java:78-81 | keeps a row and reports an invalid line, and drops an ignored line |
| Codec.NothingReadYet | src/main/java/org/example/Ledger.java:53 | before the first data line nothing has been read |
| Codec.ReadStep | src/main/java/org/example/Ledger.java:68-82 | one more data line extends the transactions and diagnostics by its own outcome only |
| Codec.TransactionsAppend | src/main/java/org/example/Ledger.java:57-83 | the rows of two runs of lines are the rows of each, in file order |
| Codec.OnlyFirstLineIsHeader | src/main/java/org/example/Ledger.java:56-66 | the first line is dropped if it looks like a header, decoded otherwise, and every later line is decoded whatever it starts with; the invalid-line messages skip the header in the same way |
| Codec.SkipOrRead | src/main/java/org/example/Ledger.java:56-66 | reading from line 0 or 1 either skips the first line or decodes it first, for the rows and for the invalid-line messages alike |
| Codec.BlankIsNotHeader | src/main/java/org/example/Ledger.java:62 | a blank line is never taken for the header |
| Codec.BlankFirstLine | src/main/java/org/example/Ledger.java:56-68 | a blank first line is skipped, and the second line is decoded as data with no header check |
| Codec.LoadedAppend | src/main/java/org/example/Ledger.java:57-83 | a new last line never changes how the earlier lines read; it only adds its own outcome |
| Codec.BodyStartAppend | src/main/java/org/example/Ledger.java:56-66 | appending a line does not change whether the first line is the header |
| Codec.LoadedSingle | src/main/java/org/example/Ledger.java:56-83 | a one-line file whose line is no header holds what that line decodes to |
| Codec.AppendDataLine | src/main/java/org/example/Ledger.java:57-83 | appending a non-header line to any file, the empty one included, adds just its own outcome |
| Codec.HeaderIsHeader | src/main/java/org/example/Ledger.java:95 | the line written into a new file is recognised as the header |
| Codec.LowerCasePrefix | src/main/java/org/example/Ledger.java:61-62 | lower-casing keeps a prefix that has no capitals |
| Codec.HeaderOnly | src/main/java/org/example/Ledger.java:56-66 | a file holding only a header line loads and rejects nothing |
| Codec.TransactionsMembership | src/main/java/org/example/Ledger.java:72-82 | a transaction is loaded exactly when some data line decodes to it |
| Codec.OutcomesCount | src/main/java/org/example/Ledger.java:68-82 | every data line is loaded, reported invalid or ignored, and none is counted twice |
| Codec.OutcomesMultiplicity | src/main/java/org/example/Ledger.java:68-82 | each transaction is loaded exactly as often as a data line decodes to it, and each invalid line is reported exactly as often as it occurs, whatever the order of the lines |
| Codec.RowsMultiplicity | src/main/java/org/example/Ledger.java:72-78 | a transaction is loaded exactly as often as a data line decodes to it |
| Codec.InvalidMultiplicity | src/main/java/org/example/Ledger.java:79-81 | an invalid line is reported exactly as often as it occurs among the data lines |
| Codec.ShortLineIgnored | src/main/java/org/example/Ledger.java:70 | a line with fewer than five fields is dropped without a message |
| Codec.DecodeDataLine | src/main/java/org/example/Ledger.java:68-72 | a non-blank line with five fields or more is decoded from its fields |
| Codec.DecodeParsedFields | src/main/java/org/example/Ledger.java:72-78 | a line whose date, time and amount fields parse is a row of those values and the trimmed texts |
| Codec.DecodeFieldsPrefix | src/main/java/org/example/Ledger.java:73-77 | only the first five fields are looked at |
| Codec.ExtraFieldsIgnored | src/main/java/org/example/Ledger.java:69-77 | a field added after the fifth does not change the row a line decodes to, or whether it is invalid |
| Codec.Sanitize | src/main/java/org/example/Ledger.java:160 | a sanitised text holds no delimiter |
| Codec.DecodeEncode | src/main/java/org/example/Ledger.java:73-78 | a written line decodes to its date and time, the trimmed sanitised texts and the rounded signed amount |
| Codec.DecodeFiveFields | src/main/java/org/example/Ledger.java:68-78 | a non-blank line of five fields whose date, time and amount parse decodes to the row of those values |
| Codec.WrittenFieldsRead | src/main/java/org/example/Ledger.java:73-77 | the written date, time and amount fields read back, trimmed, as what was written |
| Codec.DateFieldReads | src/main/java/org/example/Ledger.java:73 | the written date field reads back as the date |
| Codec.TimeFieldReads | src/main/java/org/example/Ledger.java:74 | the written time field reads back as the time |
| Codec.AmountFieldReads | src/main/java/org/example/Ledger.java:77 | the written amount field reads back as the rounded signed amount |
| Codec.EncodedFields | src/main/java/org/example/Ledger.java:160 | a written line is not blank and splits back into the five fields it was joined from |
| Codec.FieldsClean | src/main/java/org/example/Ledger.java:160 | the date, time and amount fields hold no delimiter and have no surrounding blanks |
| Codec.SanitizeKeeps | src/main/java/org/example/Ledger.java:160 | replacing the delimiter keeps every other character except the space: it occurs in the result exactly when it occurs in the text |
| Codec.SanitizeAppend | src/main/java/org/example/Ledger.java:160 | replacing the delimiter distributes over concatenation |
| Codec.SanitizeBreak | src/main/java/org/example/Ledger.java:160 | a text with one line feed is cleaned on each side of it, and the line feed stays |
| Codec.EncodedLineBreaks | src/main/java/org/example/Ledger.java:160 | a written line ends with a digit, and it holds a line break exactly when the description or the vendor does |
| Codec.TextBreak | src/main/java/org/example/Ledger.java:160 | in a joined line whose date, time and amount fields lack a character, that character can only come from the description or the vendor |
| Codec.BrokenJoin | src/main/java/org/example/Ledger.java:160 | five clean fields whose third holds one line feed join to two break-free pieces around it, of three fields each |
| Codec.ThreeFields | src/main/java/org/example/Ledger.java:69 | three delimiter-free fields joined by the delimiter split back into three |
| Codec.ShortLinesIgnored | src/main/java/org/example/Ledger.java:69-70 | two lines of fewer than five fields added to any file, the empty one included, add no row and no invalid line |
| Codec.ShortLineAdded | src/main/java/org/example/Ledger.java:57-70 | one line of fewer than five fields added to any file adds no row and no invalid line |
| Codec.ShortLineAppended | src/main/java/org/example/Ledger.java:69-70 | one line of fewer than five fields added after the first line adds no row and no invalid line |
| Codec.ShortFirstLine | src/main/java/org/example/Ledger.java:57-70 | a file made of one line of fewer than five fields loads nothing and rejects nothing, header or not |
| Codec.ShortDataLine | src/main/java/org/example/Ledger.java:69-70 | a file made of one non-header line of fewer than five fields loads nothing and rejects nothing |
| Codec.DateFieldClean | src/main/java/org/example/Ledger.java:160 | the date field starts with the year's first digit, ends with a digit and holds no delimiter and no line break |
| Codec.TimeFieldClean | src/main/java/org/example/Ledger.java:160 | the time field starts and ends with a digit and holds no delimiter and no line break |
| Codec.AmountFieldClean | src/main/java/org/example/Ledger.java:160 | the amount field starts with `-` exactly for an expense and with a digit otherwise, ends with a digit and holds no delimiter and no line break |
| Codec.DigitFirstNotHeader | src/main/java/org/example/Ledger.java:62 | a line starting with a digit is never the header |
| Codec.EncodedLineIsData | src/main/java/org/example/Ledger.java:62 | a written line is never taken for the header |
| Query.SelectSnoc | src/main/java/org/example/Ledger.java:125-131 | one step of a filter loop: the next row is added exactly when the filter keeps it |
| Query.FilterByType | src/main/java/org/example/Ledger.java:122-131 | the showFiltered loop returns exactly the rows its kind keeps, in order |
| Query.FilterByDate | src/main/java/org/example/Ledger.java:246-254 | filterByDate returns exactly the rows in the inclusive window, in order |
| Query.SearchByVendor | src/main/java/org/example/Ledger.java:256-262 | searchByVendor returns exactly the rows whose lower-cased vendor contains the query, in order |
| Query.CustomCriteria | src/main/java/org/example/Ledger.java:268-285 | each answer is trimmed and the texts lower-cased; a blank or unparseable date or amount is no constraint |
| Query.CriteriaDatesAsTyped | src/main/java/org/example/Ledger.java:280-285 | a date bound that is used is exactly the date typed, surrounding blanks aside |
| Query.RunCustomSearch | src/main/java/org/example/Ledger.java:265-304 | the custom search of the five typed answers keeps exactly the rows that pass the criteria built from them |
| Query.SearchByCriteria | src/main/java/org/example/Ledger.java:287-303 | the row loop keeps a row exactly when no supplied criterion rejects it, in order |
| Query.SelectMembership | src/main/java/org/example/Ledger.java:125-131 | a listing holds exactly the input rows its filter keeps |
| Query.SelectIsSubsequence | src/main/java/org/example/Ledger.java:125-131 | every listing is an order-preserving subsequence of its input |
| Query.SelectAppend | src/main/java/org/example/Ledger.java:125-131 | filtering a concatenation filters each part |
| Query.SelectSameTest | src/main/java/org/example/Ledger.java:125-131 | two filters that keep the same rows give the same listing |
| Query.SelectEverything | src/main/java/org/example/Ledger.java:129 | a filter that keeps every row gives back its input |
| Query.ListAll | src/main/java/org/example/Ledger.java:129 | the ALL listing is the input unchanged |
| Query.ExpenseIncomeMembership | src/main/java/org/example/Ledger.java:127-128 | EXPENSE keeps exactly the negative amounts and INCOME exactly the positive ones |
| Query.ExpenseIncomeDisjoint | src/main/java/org/example/Ledger.java:127-128 | no row is both an expense and income, and a zero amount is listed under neither |
| Query.TypeStep | src/main/java/org/example/Ledger.java:127-129 | adding one row to the input adds it to exactly one of the expense, income and zero parts |
| Query.TypePartition | src/main/java/org/example/Ledger.java:127-129 | the expense, income and zero rows together are the whole input, as a multiset |
| Query.DateWindowMembership | src/main/java/org/example/Ledger.java:249 | filterByDate keeps a row exactly when its date is neither before the start nor after the end |
| Query.DateWindowInclusive | src/main/java/org/example/Ledger.java:249 | rows on the first and on the last day of a window are listed |
| Query.BlankCustomSearch | src/main/java/org/example/Ledger.java:280-301 | with every answer blank, the custom search lists everything |
| Query.BlankCriteria | src/main/java/org/example/Ledger.java:267-283 | five blank answers give criteria with no date, no text and no amount |
| Query.UnparseableStartIgnored | src/main/java/org/example/Ledger.java:280-282 | a start date that does not parse constrains nothing, as if left blank, whatever the other answers are |
| Query.UnparseableEndIgnored | src/main/java/org/example/Ledger.java:283-285 | an end date that does not parse constrains nothing, as if left blank, whatever the other answers are |
| Query.UnparseableAmountIgnored | src/main/java/org/example/Ledger.java:293-299 | an amount that does not parse constrains nothing, as if left blank, whatever the other answers are |
| Query.NoDateInBlank | src/main/java/org/example/Ledger.java:281 | a blank date answer gives no date bound |
| Query.UnparseableCriteriaIgnored | src/main/java/org/example/Ledger.java:280-299 | with both dates and the amount unparseable, only the description and vendor answers constrain the search |
| Query.CustomDatesOnly | src/main/java/org/example/Ledger.java:289-290 | a custom search by dates alone is filterByDate over the same window |
| Query.CustomVendorOnly | src/main/java/org/example/Ledger.java:292 | a custom search by vendor alone is searchByVendor with the same query, a blank query included, which keeps every row in both |
| Query.ContainsEmpty | src/main/java/org/example/Ledger.java:258 | every text contains the empty query |
| Query.CustomSearchMembership | src/main/java/org/example/Ledger.java:288-302 | a custom search keeps a row exactly when every supplied criterion passes, the amount within 0.0001 |
| Query.CafeMatches | src/main/java/org/example/Ledger.java:259 | the query "caf" is found in "Cafe123" |
| Query.StoreDoesNotMatch | src/main/java/org/example/Ledger.java:259 | the query "caf" is not found in "Store" |
| Query.VendorSearchExample | src/main/java/org/example/Ledger.java:256-262 | the vendor query "caf" keeps "Cafe123" and drops "Store" |
| Balance.ComputeBalance | src/main/java/org/example/Ledger.java:172-180 | the loop returns the sum of the positive amounts, the sum of the magnitudes of the others, and their difference |
| Balance.NetIsTotal | src/main/java/org/example/Ledger.java:180 | the net balance is the plain sum of all amounts |
| Balance.TotalsNonNegative | src/main/java/org/example/Ledger.java:176-179 | neither total is ever negative |
| Balance.IncomeIsIncomeListing | src/main/java/org/example/Ledger.java:176-179 | total income is the sum over the INCOME listing |
| Balance.ExpensesAreExpenseListing | src/main/java/org/example/Ledger.java:176-179 | total expenses are minus the sum over the EXPENSE listing, so zero amounts add nothing |
| Balance.AmountTotalSnoc | src/main/java/org/example/Ledger.java:176-179 | one more row adds its amount to the sum |
| Balance.TotalsAppend | src/main/java/org/example/Ledger.java:176-179 | the totals of two runs of rows add up |
| Balance.EmptyBalance | src/main/java/org/example/Ledger.java:174-180 | no rows give zero income, zero expenses and a zero net balance |
| Balance.BalanceExample | src/main/java/org/example/Ledger.java:176-180 | 100.00, -40.00 and -10.50 give an income of 100.00, expenses of 50.50 and a net of 49.50 |
| Reports.PreviousMonthStart | src/main/java/org/example/Ledger.java:216 | the start of the previous month is a valid first day of a month |
| Reports.Window | src/main/java/org/example/Ledger.java:211-228 | every calendar window is a pair of valid dates, the start on or before the end |
| Reports.RunReport | src/main/java/org/example/Ledger.java:210-239 | each report returns exactly the rows its query keeps, in order |
| Reports.MonthToDateWindow | src/main/java/org/example/Ledger.java:211-212 | month to date holds exactly the days of this month up to today |
| Reports.PreviousMonthWindow | src/main/java/org/example/Ledger.java:215-218 | previous month holds exactly the days of the month before, December of last year in January |
| Reports.PreviousMonthAdjoins | src/main/java/org/example/Ledger.java:216-217 | the previous-month window ends the day before the first of this month |
| Reports.YearToDateWindow | src/main/java/org/example/Ledger.java:221-222 | year to date holds exactly the days of this year up to today |
| Reports.PreviousYearWindow | src/main/java/org/example/Ledger.java:225-227 | previous year holds exactly the days of last year |
| Reports.FebruaryWindows | src/main/java/org/example/Ledger.java:216-217 | February's window ends on the 29th in leap years (2024, 2000) and on the 28th otherwise (2023, 1900) |
| Reports.JanuaryWindow | src/main/java/org/example/Ledger.java:216-217 | in January the previous month is December of the year before |
| Reports.CalendarReportMembership | src/main/java/org/example/Ledger.java:211-228 | a calendar report shows exactly the rows dated inside its window, as a subsequence of the input |
| Reports.VendorReportMembership | src/main/java/org/example/Ledger.java:230-233 | the vendor report ignores surrounding blanks and capitals in the typed answer |
| Store.Ensured | src/main/java/org/example/Ledger.java:91-100 | a missing file is created holding only the header line, and an existing one is left unchanged |
| Store.Signed | src/main/java/org/example/Ledger.java:157-158 | an expense is stored as minus the magnitude and a payment as the magnitude |
| Store.LedgerFile.EnsureCsvExists | src/main/java/org/example/Ledger.java:91-100 | the new state is the file made sure to exist |
| Store.LedgerFile.ReadTransactions | src/main/java/org/example/Ledger.java:51-88 | makes sure the file exists, then returns exactly what its lines load and reject |
| Store.LedgerFile.AddTransaction | src/main/java/org/example/Ledger.java:144-169 | saves exactly when the amount parses, then appends the physical lines of the encoded line and its terminator and nothing else; otherwise it only makes sure the file exists |
| Store.LedgerFile.AddExpense | src/main/java/org/example/Ledger.java:136-138 | addTransaction with the expense sign |
| Store.LedgerFile.AddPayment | src/main/java/org/example/Ledger.java:140-142 | addTransaction with the income sign |
| Store.LedgerFile.ShowFiltered | src/main/java/org/example/Ledger.java:122-133 | the listing shows exactly the loaded rows of the chosen kind |
| Store.LedgerFile.DisplayBalance | src/main/java/org/example/Ledger.java:172-189 | the three values shown are the totals of the loaded rows |
| Store.LedgerFile.ShowReport | src/main/java/org/example/Ledger.java:205-239 | a report shows exactly the loaded rows its query keeps |
| Store.EnsuredIdempotent | src/main/java/org/example/Ledger.java:91-100 | making sure the file exists twice is making sure once |
| Store.FreshFileIsEmpty | src/main/java/org/example/Ledger.java:91-100 | a newly created file loads no transaction and rejects no line |
| Store.EntryAmount | src/main/java/org/example/Ledger.java:157-160 | the stored amount has the sign of its kind and is the typed amount rounded to within half a cent |
| Store.ReadAfterAppend | src/main/java/org/example/Ledger.java:160-162 | an entry whose description and vendor hold no line break is written as one physical line; appended to a file whose last line ends in a line terminator, the file then loads what it loaded before followed by the entry, with no new invalid line |
| Store.BrokenEntrySplits | src/main/java/org/example/Ledger.java:57 | an entry whose description or vendor holds a line break is read back as two physical lines or more |
| Store.DescriptionBreakLost | src/main/java/org/example/Ledger.java:57-70 | an entry whose description holds one line feed is read back as two lines of three fields each; both are skipped, so any file, the empty one included, loads and rejects what it did before |
| Store.BrokenDescriptionLine | src/main/java/org/example/Ledger.java:160 | the written line of such an entry is two break-free pieces of three fields each around the line feed |
| Store.BrokenEntryExample | src/main/java/org/example/Ledger.java:57-70 | a "Cof" line feed "fee" coffee entered into a new file gives three physical lines and loads nothing |
| Store.AppendKeepsEarlierLines | src/main/java/org/example/Ledger.java:161-162 | appending never rewrites the lines already in the file and adds exactly the appended lines at the end |
| Store.FirstEntry | src/main/java/org/example/Ledger.java:145-162 | a new file with one entry whose text holds no line break loads exactly that entry |
| Store.CoffeeExample | src/main/java/org/example/Ledger.java:144-162 | a 4.50 coffee entered into a new file reads back as -4.50 |
| Store.CoffeeEntry | src/main/java/org/example/Ledger.java:157-160 | the coffee entry is stored as -4.50 with its text unchanged |
| Store.PlainText | src/main/java/org/example/Ledger.java:160 | text with no delimiter and no surrounding blanks is stored and read back unchanged |
| Store.ParseAmountExample | src/main/java/org/example/Ledger.java:152 | "4.50" reads as 4.5 |

## Left out

- `Main.java` is not part of this model. It holds the menu loop, the prompts and the cancel handling, which only read input and call the core.
- Printing is left out: `homeScreen`, `showTransactions`, the banners and every `System.out` message. The rows a screen shows are the model's results. "Skipping invalid row" messages are modelled as the returned list of rejected lines.
- The dispatch loops of `homeScreen` and `showReports` are left out, and so is an invalid menu choice. Each report is one value of `Reports.Report`. The three type strings of `showFiltered` are the datatype `Query.Kind`.
- The custom-search diagnostics ("Bad start date", "Bad end date", "Bad amount filter") are not printed. When an answer does not parse, the criterion is dropped, which is what the code does after printing.
- File-system I/O and every `IOException` path are left out. The file is a value that is absent or a sequence of lines; line terminators are not part of it. A failed create or write is not modelled.
- Store.LedgerFile.AddTransaction: the model's file is a sequence of complete lines, so every file ends in a line terminator. The ledger writes every file that way: the header line and each entry end in one. A hand-edited file whose last line has no terminator is not modelled. There, Java's append glues the new entry onto that last line. The amount field then reads like `-4.502024-03-16` and does not parse, so both the old row and the new one are rejected. `Store.ReadAfterAppend` does not cover that file.
- Store.LedgerFile.AddTransaction: it requires today's year to lie in 0000..9999, the years `Calendar.FormatDate` writes as four digits. For other years Java writes a signed or longer year, and that is not modelled.
- Store.DescriptionBreakLost: the loss of an entry is proved for a description holding one line feed. For a carriage return, for several breaks and for a break in the vendor, the model proves only that the entry is written as two physical lines or more (`Store.BrokenEntrySplits`), not that every piece is skipped.
- Store.LedgerFile.AddTransaction: `%n` is modelled as `"\n"`, the Unix line separator. On Windows it is `"\r\n"`, which `readLine` also reads as the end of one line; that case is not modelled.
- The clocks are left out: `LocalDate.now()` and `LocalTime.now()` are parameters.
- The "Press ENTER to continue" read after saving is left out; it is input only.
- Query.RunCustomSearch: Java parses the amount answer again for every row. The text never changes, so it is parsed once before the loop. The result is the same.
- IEEE double arithmetic is left out. Amounts are exact decimals, so sums do not round and the 0.0001 tolerance is exact.
- Decimal.ParseAmount models only part of `Double.parseDouble`: an optional sign, digits and an optional fraction. Exponents, hexadecimal, `NaN`, `Infinity` and the `d`/`f` suffixes are not accepted.
- Calendar.ParseDate and Calendar.FormatDate cover only years 0000 to 9999. Signed or longer ISO years are not modelled, and neither are the limits of `LocalDate`.
- Calendar.ParseTime accepts `HH:mm`, `HH:mm:ss` and `HH:mm:ss` followed by a fraction of zero to nine digits, the forms `ISO_LOCAL_TIME` reads.
- Text.ToLower maps only ASCII `A`-`Z`. Other Unicode case mappings of `toLowerCase` are left out, and so are locale effects of `toLowerCase` and of `String.format`.
- Codec.ExtraFieldsIgnored: a line with an extra field and the shorter line give the same row, and are either both invalid or both not. The rejected line itself differs, because the diagnostic carries the whole line.

Two behaviours one could expect differently are modelled as the code has them:

- **Header line.** Only the first physical line can be the header, even when it is blank. A blank first line is dropped as a blank line, and a header on the second line is then read as data (`Codec.BlankFirstLine`).
- **Zero amounts.** Expenses are summed over every amount that is not positive, not only over the negative ones. A zero adds nothing either way (`Balance.ExpensesAreExpenseListing`).
