# Delivered-orders filter (DelApp)

DelApp is a small Streamlit page. A user uploads an Excel sheet of orders, with the
columns `phone_number`, `customer_name` and `delivery_status_date`, and picks two day
offsets. The page then shows two tables: the orders delivered `latest` days ago and
those delivered `old` days ago. Each table holds only the columns `order_code` and
`customer_name`.

This project models the data step between the upload and the display. It runs
`(rows, today, oldDaysAgo, latestDaysAgo) -> (oldDate, oldTable, latestDate, latestTable)`,
or it fails as a whole.

- **Phone** (`Columns.NormalisePhone`, `Table.TrimPhones`). A phone whose text starts
  with `"2"` loses its first two characters. Every other row is left untouched.
- **Order code** (`Columns.OrderCode`, `Table.AssignOrderCodes`). The code is `"20"`
  followed by the phone as it stands after that trim.
- **Customer name** (`Columns.FirstName`, `Table.CutNames`). The name becomes
  `name.split(" ")[0]`, which is modelled by a general `Split` proved against `Join`.
- **Delivery date** (`Columns.DateKey`, `Calendar.ParseDeliveryDate`,
  `Table.ParseDates`). The text is cut to its first ten characters and parsed.
  - A parsed date is a day ordinal counted from 0000-01-01 in the proleptic Gregorian
    calendar, or NaT (a missing date).
  - A key that does not parse makes the whole run fail.
- **Target days** (`Calendar.TargetDate`). Each target is `today - N`, or an error
  when `N` is too long for a `Timedelta`. `today` is a day-ordinal parameter; the
  source reads it from the clock.
- **Tables** (`Selection.Select`). The rows whose date equals the target are kept, in
  upload order, and projected to `(order_code, customer_name)`.

The source's own form is kept:

- The column assignments change the table in place, so they are loops over an
  `array<Record>` (module `Table`). Each one states the whole new table and that
  nothing else changes.
- `DelApp.FilterOrders` strings them together as the script does.
- It is proved equal to the pure function `DelApp.Run`. Every end-to-end property is
  stated about `Run`.
- The filters and the projections are pure, so they are functions on sequences
  (module `Selection`).

Modules: `Wrappers` (Option), `Calendar` (day ordinals, the date parser, target days),
`Columns` (per-cell text rules), `Table` (rows and the in-place column updates),
`Selection` (mask and projection), `DelApp` (the run, its specification and its
properties).

The date parser is `pandas.to_datetime`, a library not shown here. It is modelled as
follows:

- A ten-character key `YYYY-MM-DD` that names an existing day is that day.
- The missing-value strings `""`, `NaT`, `nat`, `NAT`, `nan`, `NaN` and `NAN` are NaT.
  A NaT date is kept in the table but equals no target day.
- Anything else is a parse error. The run then shows no table
  (the `try`/`except` at DelApp.py:43 and 110-111).

The name is cut at the first literal space (`split(" ")`); a tab does not end it, and
a leading space gives an empty name.

A day offset longer than the longest `Timedelta` (2^63 - 1 nanoseconds, so 106751
whole days) makes `pd.Timedelta(days=...)` raise at DelApp.py:67 or 72. The run then
fails like a bad date, with no table.

## Model

| member | source | states |
|---|---|---|
| `Columns.StartsWithTwo` | DelApp.py:49 | `startswith("2")` holds exactly when the text is non-empty and its first character is `'2'` |
| `Columns.NormalisePhone` | DelApp.py:49-50 | a phone starting with `"2"` keeps exactly its suffix after the first two characters (empty when shorter than 2), and the original is some prefix followed by the result; any other phone is returned unchanged |
| `Columns.OrderCode` | DelApp.py:52 | the order code starts with `"20"` and what follows is the normalised phone |
| `Columns.OrderCodeOfPhone` | DelApp.py:49-52 | in terms of the original phone: a phone of length at least 2 that starts with `"2"` gets its second character replaced by `'0'`; the phone `"2"` gives `"20"`; any other phone gets `"20"` in front |
| `Columns.OrderCodeKeepsTwentyPrefix` | DelApp.py:49-52 | a phone that already starts with `"20"` is its own order code |
| `Columns.Split` | DelApp.py:57 | a split always yields at least one piece, so taking piece `[0]` never fails |
| `Columns.SplitJoin` | DelApp.py:57 | joining the pieces with the separator gives back the text, and no piece holds the separator |
| `Columns.SplitFirstPiece` | DelApp.py:57 | the first piece holds no separator, is a prefix of the text, and is followed by the separator when it is shorter than the text |
| `Columns.FirstName` | DelApp.py:54-58 | the cut name holds no `' '`, is a prefix of the original name, and is followed in it by a `' '` unless it is the whole name |
| `Columns.FirstNameCases` | DelApp.py:54-58 | a name without a space is kept whole; a name starting with a space becomes empty; the cut is never longer than the position of any space |
| `Columns.DateKey` | DelApp.py:61 | the key is the prefix of the date text of length `min(10, length)` |
| `Columns.DateKeyIgnoresTail` | DelApp.py:61 | characters appended after the tenth do not change the key |
| `Calendar.OrdinalWithinYear` | DelApp.py:60-62 | every date of year `y` has an ordinal from the first day of `y` up to, but excluding, the first day of `y + 1` |
| `Calendar.OrdinalIncreasing` | DelApp.py:60-62 | a later date has a larger ordinal, so comparing ordinals compares parsed timestamps |
| `Calendar.OrdinalInjective` | DelApp.py:60-62 | two dates with the same ordinal are the same date |
| `Calendar.IsoRoundTrip` | DelApp.py:60-62 | the `YYYY-MM-DD` text of any date of years 0000-9999 is well shaped and parses back to that date's ordinal |
| `Calendar.ParsedIsCanonical` | DelApp.py:60-62 | a text that parses names a valid date and is exactly that date's `YYYY-MM-DD` text |
| `Calendar.ParseIsoDateInjective` | DelApp.py:60-62 | two texts that parse to the same day are the same text |
| `Calendar.ParseDeliveryDateCases` | DelApp.py:60-62 | the parse gives NaT exactly for the missing-value strings and fails exactly when the key is neither one of those nor a date text; a key that gives a day is that day's canonical text |
| `Calendar.DayTextUnique` | DelApp.py:60-62 | two keys that both parse to the same day are equal |
| `Calendar.OrdinalNextDay` | DelApp.py:65-73 | within a month, the next day's ordinal is one more |
| `Calendar.OrdinalNextMonth` | DelApp.py:65-73 | the first day of the next month comes one ordinal after the last day of the month |
| `Calendar.OrdinalNextYear` | DelApp.py:65-73 | 1 January of the next year comes one ordinal after 31 December |
| `Calendar.NextDate` | DelApp.py:65-73 | the day after a valid date is a valid date |
| `Calendar.OrdinalOfNextDate` | DelApp.py:65-73 | the day after any date has the next ordinal, so subtracting `n` from an ordinal moves `n` calendar days back, as subtracting `Timedelta(days=n)` from a midnight timestamp does |
| `Calendar.DeltaInRangeBound` | DelApp.py:67 | `n` days fit in a `Timedelta`'s 2^63 - 1 nanoseconds exactly when `n <= 106751` |
| `Calendar.TargetDate` | DelApp.py:65-73 | a target exists exactly when the offset is at most 106751 days (otherwise building the `Timedelta` raises); it is never after today, and is today exactly when the offset is 0 |
| `Calendar.TargetDateAntitone` | DelApp.py:65-73 | if a larger offset has a target, so does a smaller one, and the larger offset's target is not later |
| `Calendar.ParseDeliveryDate` | DelApp.py:60-62 | `pd.to_datetime` on a key: NaT exactly for the missing-value strings, and a day only for a `DDDD-DD-DD` key; `ParseDeliveryDateCases` gives the full three-way specification |
| `Table.TrimPhones` | DelApp.py:49-50 | every row's phone becomes its normalised phone and no other column changes; a row whose phone does not start with `"2"` is unchanged |
| `Table.AssignOrderCodes` | DelApp.py:52 | every row gets the order code `"20"` followed by its current phone, and no other column changes |
| `Table.CutNames` | DelApp.py:54-58 | every row's name becomes its first-name cut, and no other column changes |
| `Table.ParseColumn` | DelApp.py:60-62 | without changing the table, returns the first row whose date key does not parse, every earlier row parsing, or else the parsed value of every row in order |
| `Table.StampDates` | DelApp.py:60 | the date column gets the given values, row for row, and nothing else changes |
| `Table.ParseDates` | DelApp.py:60-62 | if some date key does not parse, the first such row is returned, every earlier row parses, and the table is unchanged; otherwise every row parses and has its date text replaced by the parsed value, nothing else changing |
| `Selection.MatchingFrom` | DelApp.py:77 | the mask positions: exactly the rows whose date is the target day, each once and in increasing order |
| `Selection.SelectFrom` | DelApp.py:76-80 | the selection from row `i` on has at most as many rows as remain |
| `Selection.Select` | DelApp.py:76-86 | a result table is never longer than the table it is cut from; `SelectIsMaskProjection` and `SelectCount` state exactly what it holds |
| `Selection.SelectFromIsMaskProjection` | DelApp.py:76-80 | from any row on, row `k` of the selection is the projection of the `k`-th matching row, and the two have the same length |
| `Selection.SelectIsMaskProjection` | DelApp.py:76-86 | row `k` of a result table is the `(order_code, customer_name)` projection of the `k`-th matching row: nothing added, dropped or reordered |
| `Selection.SelectFromCount` | DelApp.py:76-80 | from any row on, the selection has as many rows as the date column has occurrences of the target day |
| `Selection.SelectCount` | DelApp.py:76-86 | a result table has as many rows as the date column has occurrences of the target day |
| `Selection.SelectFromNoMatch` | DelApp.py:76-80 | a stretch of rows none of which has the target day selects nothing |
| `Selection.SelectNoMatch` | DelApp.py:76-86 | a target day that no row has gives an empty table |
| `Selection.SelectSingle` | DelApp.py:76-80 | a one-row table whose row has the target day gives exactly that row's projection |
| `DelApp.FirstFailureSpec` | DelApp.py:60-62 | there is no failure exactly when every entry parsed; otherwise the failure is an entry that did not parse, and every entry before it did |
| `DelApp.FirstFailureIs` | DelApp.py:60-62 | an entry that did not parse, with every earlier one parsed, is the first failure |
| `DelApp.LoadTable` | DelApp.py:44-58 | a fresh table holding, for each uploaded row in order, its normalised phone, first name and order code, with the date still text |
| `DelApp.NormaliseTable` | DelApp.py:44-62 | the failure returned is the first row whose date does not parse; with none, the table holds exactly the normalised rows |
| `DelApp.FilterOrders` | DelApp.py:43-86 | the in-place pipeline computes exactly the run `Run` specifies, error included |
| `DelApp.Run` | DelApp.py:43-86 | a date error names a row of the upload, and a result table is never longer than the upload; `RunFailsExactly`, `RunOffsetError`, `RunTargetDates` and `RunTables` state what it computes |
| `DelApp.RunFailsExactly` | DelApp.py:43-73 | a run fails exactly when some row's date key does not parse or an offset is too long for a `Timedelta`; it fails with a date error exactly when some key does not parse, whatever the day and offsets, and the error names the first such row and its key |
| `DelApp.RunOffsetError` | DelApp.py:65-73 | with every date parsed, a run fails exactly when an offset is too long, and the error names the old offset if that one is too long, else the latest |
| `DelApp.RunTargetDates` | DelApp.py:65-73 | a successful run had both offsets in range, and its target days are today minus the two offsets, so neither is after today |
| `DelApp.TableIsReport` | DelApp.py:47-86 | with every date parsed, a result table is, row for row, the order code and first name of the uploaded rows whose date key parses to the target day, all of them, in upload order |
| `DelApp.RunTables` | DelApp.py:76-86 | both tables of a successful run are exact-match reports for their target days in terms of the uploaded rows |
| `DelApp.StampCount` | DelApp.py:60-62 | a column of stamps made from parsed values holds each day as often as the parsed values do |
| `DelApp.CountStamped` | DelApp.py:60-62 | the normalised date column holds each day as often as the parsed column does |
| `DelApp.RunTableSizes` | DelApp.py:76-86 | each table of a successful run has as many rows as there are uploaded rows whose key parses to its day |
| `DelApp.EqualOffsetsSameTables` | DelApp.py:65-86 | equal offsets give the same target day and identical tables |
| `DelApp.EmptyUpload` | DelApp.py:76-86 | an upload with no rows fails only when an offset is too long, and otherwise gives two empty tables |
| `DelApp.TimeOfDayIrrelevant` | DelApp.py:61 | changing what follows the tenth character of any date text changes nothing in the run |
| `DelApp.ExampleName` | DelApp.py:57 | `Ahmed Ali` is cut to `Ahmed` |
| `DelApp.ExampleDate` | DelApp.py:60-62 | `2024-05-01 10:00` parses to the day 2024-05-01 |
| `DelApp.OneDatedRow` | DelApp.py:76-80 | a one-row upload whose date parses to a day succeeds exactly when the offsets are in range, and its latest table is that row's order code and first name exactly when the latest day is that day, empty otherwise |
| `DelApp.ExampleBadDateFails` | DelApp.py:110-111 | appending a row dated `not-a-date` to any upload makes the run fail with a date error, whatever the offsets |
| `DelApp.MissingDateSkipped` | DelApp.py:60-86 | a one-row upload whose date is missing (NaT) succeeds exactly when the offsets are in range, with two empty tables |
| `DelApp.ExampleBlankDateSkipped` | DelApp.py:60-86 | a row whose date reads `nan` (a blank cell) succeeds exactly when the offsets are in range, with two empty tables |

## Left out

- The Streamlit page is not modelled: its setup, widgets, headings, the info and error messages and the download buttons (DelApp.py:6-32, 88-113). These are user interface.
- `pd.read_excel` (DelApp.py:44) and the Excel writer `to_excel` (DelApp.py:35-39, 98, 105) are not modelled. They are file I/O in a binary format of a library not shown. The model starts from rows of text cells.
- `astype(str)` rendering of non-text cells (DelApp.py:47, 56, 61) is not modelled. A numeric phone or date and a blank cell are assumed to arrive already as their text, such as `nan` for a blank cell.
- `pd.Timestamp.today().normalize()` (DelApp.py:66, 71) is the wall clock. It becomes the single parameter `today`, a day ordinal. The source reads the clock twice, and a run that straddles midnight could then use two different days. The model does not reproduce that.
- `Calendar.ParseDeliveryDate`: `pandas.to_datetime` accepts many more formats than `YYYY-MM-DD`, for example `2024/05/01` and `May 1 2024`. The model reads only `YYYY-MM-DD` keys with years 0000-9999 and the missing-value strings, and treats every other key as an error.
- `Calendar.ParseDeliveryDate` also reads as days keys outside pandas' nanosecond timestamp range (before 1677-09-22 or after 2262-04-11), which pandas rejects. That range is a property of the library, not of this code.
- `DelApp.Error`: the error shown by the `except` branch carries pandas' message text. The model's error carries the first failing row and its key, or the offset that is too long, because the message wording belongs to the library.
- A missing column raises a `KeyError` that the same `except` catches. It is not modelled, because the rows are typed records that always have the three columns.
- The offsets are `int`s with `min_value=0` and no upper limit (DelApp.py:19-32). They are modelled as `nat`, and their upper bound is the `Timedelta` limit that `Calendar.TargetDate` models.
- `Calendar.TargetDate` does not fail when `today` minus the offset falls before pandas' earliest timestamp (1677-09-21), where the subtraction raises. `today` is the current day, and 106751 days before any current day is still in range.
- The mask `start_2` is computed once, before the phone column is rewritten (DelApp.py:49-50). The model tests each row's phone just before rewriting that row. This is equivalent, because each row is written once and no row reads another.
