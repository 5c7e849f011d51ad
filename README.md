# Kindergarten time sheet: the `DateRow` core in Dafny

The time-sheet generator fills a spreadsheet with one row per calendar day of a
configured year, so that staff can enter their working hours. The `DateRow` class
in `src/DataRow.py` does this work:

- **Construction.** Building a `DateRow` reads the configuration and fills a
  *special-day table*. Each `dd/mm` listed under an organisation entry (a
  closing day, a team day, ...) is placed in the configured year and mapped to
  the entry's name and colour. A later listing overwrites an earlier one. The
  first month/day that cannot be placed aborts construction.
- **`year_iterator`.** Yields every day of the year from January 1, one per
  day, 365 or 366 in all. Each day gets a name and a colour, chosen in this
  priority order:
  1. a public holiday takes the holiday label and colour;
  2. otherwise a Saturday or Sunday takes the weekend label and colour;
  3. otherwise a date in the special-day table takes that entry;
  4. otherwise the day gets an empty name and colour.
- **`add_row`.** Writes the six column titles (`Datum`, `Wochentag`, `Soll`,
  `Ist`, `Saldo`, `Abwesenheit`) into row 1, in the Title style. Then it writes
  yielded day `i` into row `i + 2` and returns the sheet's `max_row`. For each
  day:
  - a day whose colour equals the holiday colour is styled Accent1;
  - else, one whose colour equals the weekend colour is styled Accent2;
  - else, any other non-empty colour gives Accent6;
  - a day without colour gets 8 target hours in column C, plus a balance
    formula in column E that refers to its own row;
  - every day gets its date in column A and its abbreviated weekday name in
    column B.

The model has eight modules:

| Module | What it models |
|---|---|
| `Wrappers` | `Option` for a configuration key that may be missing, with `GetOr` standing for `dict.get(key, default)`; `Result` for a value or the exception raised instead. |
| `Dates` | The part of Python's `datetime.date` that this code uses: the proleptic Gregorian calendar, `toordinal`, `weekday`, `+ timedelta(days=1)`, and the year range 1..9999 that the date constructor checks. |
| `Worksheets` | The worksheet as a map from (row, column) to value and style. A cell never written reads as blank and Normal-styled; writing a value or a style creates it. Writing a value keeps the style, and vice versa. `max_row` is 1 on an empty sheet. |
| `Settings` | The configuration keys the core reads and their defaults. Also placing a `dd/mm` into a year. |
| `SpecialDays` | The table-filling loop of the constructor. It is specified by a fold over the writes in execution order; `BuildSpecialDays` is the outer loop and `PlaceEntryDates` the inner one. |
| `Classifier` | What `year_iterator` yields, as a function of the configuration, the holiday set and the table. |
| `RowLayout` | What `add_row` writes, as a function of the sheet it starts from. |
| `DataRow` | The class `DateRow`, with the loops of `add_row` (titles, days, and the columns of one day) as methods over the mutable `Worksheet`, and lemmas that tie the iterator's classification to the styles and cells of each row. |

Behaviour worth knowing, as the code has it:

- **`29/02` is always rejected.** The `dd/mm` text is parsed into the base
  year 1900, which has no February 29, so `29/02` raises even when the
  configured year is a leap year. `Settings.Place` states this.
- **Year 9999 is rejected.** The iterator builds January 1 of the *next*
  year, so it fails for 9999 as well as outside 1..9999. `add_row` on such a
  year has already written the titles when the error is raised.
- **Colour comparison can restyle a colourless day.** A normal day's colour is
  the empty string. If the configured holiday colour is also empty, that day is
  styled Accent1 instead of getting hours and formula. `NormalRowCells`
  therefore requires both configured colours to be non-empty.
- **Weekend before special day.** A weekend day listed in the special-day
  table is still labelled a weekend.

The tests in `tests/test_basic.py` use a `DateHandler` class and an `add_row(hours=...)` signature
that `src/DataRow.py` does not have; the model follows `src/DataRow.py`.

## Model

| member | source | states |
|---|---|---|
| Dates.DaysInYear | src/DataRow.py:44-45 | A year has 365 or 366 days, 366 exactly in a Gregorian leap year. |
| Dates.DaysInMonth | src/DataRow.py:36-37 | A month has 28 to 31 days; February has 29 exactly in a leap year. |
| Dates.Ordinal | src/DataRow.py:44-45 | `toordinal()`: the days of all earlier years plus the day's position in its own year, counted from 1; the ordinal lies above the days before its year and at most one year's length beyond them. |
| Dates.Weekday | src/DataRow.py:48 | `weekday()` is in 0..6. |
| Dates.NextDay | src/DataRow.py:55 | Adding one day to a calendar day gives a calendar day. |
| Dates.AddDays | src/DataRow.py:55 | Repeatedly adding one day stays on the calendar. |
| Dates.DaysBeforeYearClosedForm | src/DataRow.py:44-45 | The days before year y, counted year by year, equal Python's closed form `365*(y-1) + (y-1)/4 - (y-1)/100 + (y-1)/400`. |
| Dates.YearLength | src/DataRow.py:44-45 | The ordinal distance from January 1 of y to January 1 of y+1 is the length of year y. |
| Dates.NextDayOrdinal | src/DataRow.py:55 | The next day is a calendar day whose ordinal is one higher. |
| Dates.DayOfYearBound | src/DataRow.py:44-45 | A day's position in its year is below the year's length, and is the last position exactly on December 31. |
| Dates.NextDayInYear | src/DataRow.py:55 | Before December 31 the next day stays in the year, one position on. |
| Dates.AddDaysInYear | src/DataRow.py:43-55 | January 1 plus k days, for k below the year's length, is in the same year at position k, k ordinals later. |
| Dates.DayOfYearInjective | src/DataRow.py:44-55 | Two days of one year at the same position are equal. |
| Dates.NextDayWeekday | src/DataRow.py:48 | The weekday moves on by one, modulo 7, from one day to the next. |
| Worksheets.CellAt | src/DataRow.py:66-82 | A cell that was never written reads as blank with the normal style. |
| Worksheets.PutValue | src/DataRow.py:81-82 | Writing a value creates the cell and keeps its style; every other cell, present or absent, stays as it was. |
| Worksheets.PutStyle | src/DataRow.py:69 | Setting a style creates the cell and keeps its value; every other cell, present or absent, stays as it was. |
| Worksheets.MaxRowUnique | src/DataRow.py:85 | `max_row` is determined by the sheet. |
| Worksheets.Worksheet.SetValue | src/DataRow.py:61 | Assigning a cell value updates exactly that cell's value. |
| Worksheets.Worksheet.SetStyle | src/DataRow.py:62 | Assigning a cell style updates exactly that cell's style. |
| Worksheets.Worksheet.MaxRow | src/DataRow.py:85 | The scan returns 1 for an empty sheet, else the largest row that holds a cell. |
| Settings.Place | src/DataRow.py:35-37 | Placing dd/mm in a year succeeds iff the day exists in 1900 and the year is in 1..9999; a success is that valid date; `29/02` always fails. |
| Settings.HolidayLabel | src/DataRow.py:47 | `config.get('holiday', 'holiday')`: the configured label, or "holiday" when the key is missing. |
| Settings.WeekendLabel | src/DataRow.py:49 | `config.get('weekend', 'weekend')`: the configured label, or "weekend" when the key is missing. |
| Settings.ColorHoliday | src/DataRow.py:68 | `config.get('color_holiday', '#000000')`: the configured colour, or "#000000" when the key is missing. |
| Settings.ColorWeekend | src/DataRow.py:70 | `config.get('color_weekend', '#000000')`: the configured colour, or "#000000" when the key is missing. |
| Settings.SpecialEntries | src/DataRow.py:33 | `config.get('holidays', [{'name': ''}])`: the configured entries, or a single entry named "" that lists no dates. |
| Settings.EntryValue | src/DataRow.py:38-40 | The value stored for an entry's date: its name ("" when missing) and its colour (the holiday colour when missing). |
| SpecialDays.EntryAssignments | src/DataRow.py:34-40 | An entry writes one table value per listed date, in order: its name (default "") and colour (default the holiday colour). |
| SpecialDays.Assignments | src/DataRow.py:33-34 | The writes of the two nested loops, entry by entry and date by date: as many as the entries list dates in all. |
| SpecialDays.Fill | src/DataRow.py:35-38 | The writes performed in order on an empty dictionary, stopping at the first month/day that cannot be placed; every key of a successful fill is a valid date of the year. |
| SpecialDays.SpecialDayTable | src/DataRow.py:32-40 | The table `__init__` builds: the fill of all writes in the configured year. Its keys are valid dates of that year; without a `holidays` key it is empty. |
| SpecialDays.FillSucceeds | src/DataRow.py:33-40 | Filling the table succeeds iff every listed month/day can be placed in the year. |
| SpecialDays.FillFailsAtFirst | src/DataRow.py:33-40 | A failed fill reports the error of the first month/day that cannot be placed. |
| SpecialDays.FillPrefixFails | src/DataRow.py:33-40 | Once a prefix of the writes fails, the whole fill fails with the same error. |
| SpecialDays.FillKeys | src/DataRow.py:36-38 | The filled table's keys are exactly the placed dates of the writes. |
| SpecialDays.FillLastWriter | src/DataRow.py:38-40 | A date's table value comes from the last write that lists it. |
| SpecialDays.AssignmentsPrefix | src/DataRow.py:33-34 | The writes of the first i entries are a prefix of all writes. |
| SpecialDays.AssignmentAt | src/DataRow.py:33-40 | Write number WriteIndex(i, j) is entry i's date j with entry i's value. |
| SpecialDays.AssignmentSource | src/DataRow.py:33-34 | Every write comes from some entry i and date j. |
| SpecialDays.WriteIndexOrder | src/DataRow.py:33-34 | Writes follow the order of the nested loops: earlier entry, or same entry and earlier date, means an earlier write. |
| SpecialDays.TableDomain | src/DataRow.py:32-40 | A date is in the table iff it is in the configured year and some entry lists its month/day. |
| SpecialDays.TableValue | src/DataRow.py:38-40 | When entry i's date j is listed by no later entry or date, the table maps it to entry i's name and colour. |
| SpecialDays.TableSucceeds | src/DataRow.py:35-37 | Construction succeeds iff every configured month/day can be placed. |
| SpecialDays.BuildSpecialDays | src/DataRow.py:32-40 | The nested loop builds exactly the specified table, or fails with its error. |
| SpecialDays.PlaceEntryDates | src/DataRow.py:34-40 | The inner loop over one entry's dates extends the table to the fill of the writes up to and including that entry, or returns the table's error. |
| Classifier.IsWeekend | src/DataRow.py:48 | `weekday() > 4`: the day is a Saturday or a Sunday. |
| Classifier.Kind | src/DataRow.py:46-54 | The branch of the if/elif chain a day takes: holiday iff it is a public holiday; weekend iff it is a Saturday or Sunday and no holiday; special iff it is a weekday in the table and no holiday; normal otherwise. |
| Classifier.Classify | src/DataRow.py:46-54 | The yielded item carries the day it classifies. |
| Classifier.YearCheck | src/DataRow.py:43-45 | Whether both `date(year, 1, 1)` and `date(year + 1, 1, 1)` can be built: no error iff the year is in 1..9998; an error names a year outside 1..9999. |
| Classifier.YearDays | src/DataRow.py:42-55 | Everything `year_iterator` yields: it succeeds iff YearCheck passes, fails with YearCheck's error otherwise, and yields DaysInYear items. |
| Classifier.FirstDays | src/DataRow.py:44-55 | The first n items are n items. |
| Classifier.FirstDaysAt | src/DataRow.py:43-55 | Item k is January 1 plus k days, classified. |
| Classifier.YearDaysAt | src/DataRow.py:43-55 | The year yields DaysInYear items, and item k is January 1 plus k days, classified. |
| Classifier.YearDaysFails | src/DataRow.py:43-45 | The iterator fails iff the year is outside 1..9998; for 9999 it is the next January 1 that is rejected. |
| Classifier.YearDaysDates | src/DataRow.py:43-55 | 365 or 366 items (366 iff leap); item k is a valid date of the year at position k, k ordinals after January 1; first January 1, last December 31. |
| Classifier.YearDaysConsecutive | src/DataRow.py:55 | Consecutive items are consecutive days: ordinal +1, weekday +1 mod 7. |
| Classifier.YearDaysCover | src/DataRow.py:43-55 | Every valid date of the year is yielded, at its position in the year. |
| Classifier.HolidayFirst | src/DataRow.py:46-47 | A public holiday gets the holiday label and colour, whatever else it is. |
| Classifier.WeekendBeforeSpecial | src/DataRow.py:48-49 | A weekend day that is no holiday gets the weekend label and colour, even if it is a special day. |
| Classifier.WeekdayLabel | src/DataRow.py:50-53 | A Monday to Friday that is no holiday gets its table entry, or "" and "" without one. |
| Classifier.ConfiguredSpecialDay | src/DataRow.py:32-54 | A weekday that is no holiday, listed last by entry i, is yielded with entry i's name and colour (the colour defaulting to the holiday colour). |
| RowLayout.DayStyle | src/DataRow.py:68-75 | The holiday colour selects Accent1; otherwise the weekend colour selects Accent2; otherwise a non-empty colour selects Accent6; no style exactly for the empty colour when it is neither. |
| RowLayout.WeekdayName | src/DataRow.py:82 | `strftime('%a')` in the C locale: a three-letter name, "Sat" or "Sun" exactly on a weekend day. |
| RowLayout.NatToString | src/DataRow.py:78 | A row number prints as a non-empty run of decimal digits without a leading zero (only 0 itself starts with '0'). |
| RowLayout.NatToStringValue | src/DataRow.py:78 | The printed digits denote the row number. |
| RowLayout.BalanceFormula | src/DataRow.py:76-78 | The f-string of line 78 with the row number in decimal at each of its four references: it starts with `=IF(AND(A` and is 34 fixed characters plus four copies of the row number. |
| RowLayout.FormulaRefersToOwnRow | src/DataRow.py:76-78 | The first reference of the balance formula written into row r (column A) is to row r. |
| RowLayout.FormulasDistinct | src/DataRow.py:76-78 | Different rows get different formulas. |
| RowLayout.DayNames | src/DataRow.py:82 | One weekday name per day. |
| RowLayout.WriteHeader | src/DataRow.py:58-62 | The header loop after c titles: cells A1 to the c-th column hold the titles in the Title style. |
| RowLayout.WriteColumns | src/DataRow.py:66-78 | The column loop of one day after c passes: each pass styles column c for a coloured day, or writes the hours to C and the formula to E for a colourless one. No contract of its own; WriteColumnsAt states the result cell by cell. |
| RowLayout.WriteDay | src/DataRow.py:65-82 | One day's row: the column loop, then the date in column A and the weekday name in column B. |
| RowLayout.WriteDays | src/DataRow.py:65-83 | The day loop: day k written into row k + 2, in order. No contract of its own; WriteDaysRow, WriteDaysOtherRow and WriteDaysElsewhere state the result. |
| RowLayout.AddRowSheet | src/DataRow.py:57-83 | The sheet after `add_row`: the header loop, then the day loop with each day's weekday name. The last day's date lands in row n + 1. |
| RowLayout.WriteColumnsAt | src/DataRow.py:66-78 | The column loop, cell by cell: a coloured day styles columns 1..c and keeps their values; a colourless day writes hours to C and the formula to E, keeping styles; nothing else changes. |
| RowLayout.WriteDayElsewhere | src/DataRow.py:65-83 | Writing one day touches no cell outside its row's six columns. |
| RowLayout.WriteDayRow | src/DataRow.py:65-83 | Writing one day leaves its row written: date, weekday name, and style or hours and formula. |
| RowLayout.WriteDaySameRow | src/DataRow.py:65-83 | What a day writes into its row depends only on that row's previous contents. |
| RowLayout.WriteDayOtherRow | src/DataRow.py:65-83 | Writing one day leaves every other row as it was. |
| RowLayout.WriteDaysElsewhere | src/DataRow.py:65-83 | Writing the days changes nothing outside rows 2..n+1, columns 1..6. |
| RowLayout.WriteDaysOtherRow | src/DataRow.py:65-83 | Writing the days leaves rows outside 2..n+1 as they were. |
| RowLayout.WriteDaysRowAlone | src/DataRow.py:65-83 | Row k+2 after all days equals day k written alone over the starting sheet: later days do not overwrite it. |
| RowLayout.WriteDaysRow | src/DataRow.py:65-83 | After all days, row k+2 holds day k written over the starting row. |
| RowLayout.WriteHeaderAt | src/DataRow.py:58-62 | The header loop puts title c in the Title style at row 1, column c, and changes nothing else. |
| RowLayout.AddRowHeader | src/DataRow.py:57-62 | After add_row, row 1 holds the six titles in the Title style. |
| RowLayout.AddRowDay | src/DataRow.py:57-83 | After add_row, row k+2 holds day k with its weekday name, written over the original row. |
| RowLayout.AddRowElsewhere | src/DataRow.py:57-83 | add_row changes no cell outside row 1 and rows 2..n+1, columns 1..6. |
| RowLayout.AddRowMaxRow | src/DataRow.py:85 | If the sheet held nothing below row n+1, `max_row` after add_row is n+1. |
| DataRow.DateRow.Create | src/DataRow.py:20-40 | Construction succeeds iff the special-day table can be built; the new object holds the sheet, configuration, holidays and that table. |
| DataRow.DateRow.YearIterator | src/DataRow.py:42-55 | The loop yields exactly the specified items, or raises the year error before the first. |
| DataRow.DateRow.AddRow | src/DataRow.py:57-85 | No sheet: fails. Invalid year: only the titles are written, then fails. Otherwise the sheet becomes the specified layout and the result is its `max_row`, which is DaysInYear+1 on an empty sheet. |
| DataRow.WriteTitles | src/DataRow.py:60-62 | The header loop writes the six titles. |
| DataRow.WriteDayRows | src/DataRow.py:65-83 | The day loop over the mutable sheet leaves it equal to WriteDays of the sheet it started from. |
| DataRow.WriteDayCells | src/DataRow.py:66-82 | One day's column loop plus date and weekday name writes exactly that day's row. |
| DataRow.EmptySheetMaxRow | src/DataRow.py:85 | On an empty sheet add_row returns the number of days of the year plus one. |
| DataRow.HolidayRowStyle | src/DataRow.py:46-69 | A public holiday's row is styled Accent1 in all six columns. |
| DataRow.WeekendRowStyle | src/DataRow.py:48-71 | A weekend day that is no holiday is styled Accent2, or Accent1 when the weekend colour equals the holiday colour. |
| DataRow.SpecialRowStyle | src/DataRow.py:50-73 | A weekday special day with a colour distinct from both configured colours, and not empty, is styled Accent6. |
| DataRow.NormalRowCells | src/DataRow.py:50-78 | A plain weekday, with both configured colours non-empty, gets 8 hours in C, its own-row balance formula in E, and unchanged styles. |

## Left out

- Reading `config.yaml` is left out. The configuration is a `Config` value whose missing keys are `None`; `year` is always given, because its fallback is today's date, a clock read.
- The `holidays` library lookup (country `DE`, subdivision `BY`) is replaced by a set of dates passed in.
- `strptime` text parsing and the configurable `format` key are left out. An entry is already a month/day pair; only the parser's 1900 range check is modelled.
- `strftime('%a')` depends on the locale; the model uses the C-locale abbreviations `Mon`..`Sun`.
- Column widths (line 63) and row heights (line 83) are not modelled. They have no bearing on values, styles or `max_row`.
- Creating a cell on a bare read (as openpyxl's `ws.cell(r, c)` does, which can raise `max_row`) is not modelled; the core never reads a cell without writing it in the same statement.
- Dates.NextDay: does not raise Python's OverflowError after 9999-12-31; it returns year 10000. The iterator rejects the year 9999 before its loop, so line 55 never reaches that date.
- RowLayout.FormulaRefersToOwnRow: parses only the formula's first reference (`A{r}`); the other three references (`C`, `D`, `C`) are fixed by the text of `BalanceFormula` but not parsed back.
- The formula is text. Its evaluation by the spreadsheet (`TODAY()`) is not modelled.
- The special-day table is keyed by `isoformat()` strings in the source and by dates in the model. `isoformat` is injective on valid dates, so lookups agree.
- `year_iterator` is a lazy generator; the model computes its whole output as a sequence. The output is the same, and the error comes before the first item in both.
- The `calendar.Calendar` object built in `__init__` is never used and is not modelled.
- The truthiness test on the sheet (`if sheet:`) is modelled as a test for `None`.
- `generator.py` (the script that saves the workbook) and per-member hours, stop dates and summaries are not part of this model.
