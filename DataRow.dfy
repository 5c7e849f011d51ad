/**
 * The `DateRow` object: built from an optional worksheet, the configuration and
 * the public-holiday table, it holds the special-day table, yields the days of
 * the configured year and writes the timesheet's rows into the worksheet.
 */
module DataRow {
  import opened Wrappers
  import opened Dates
  import opened Settings
  import opened Worksheets
  import SpecialDays
  import opened Classifier
  import opened RowLayout

  class DateRow {
    /** The worksheet `add_row` writes to; `null` when the object was built without one. */
    const sheet: Worksheet?
    const config: Config
    const holidays: set<Date>
    const specialDays: map<Date, SpecialDay>

    constructor Init(sheet: Worksheet?, config: Config, holidays: set<Date>, specialDays: map<Date, SpecialDay>)
      ensures this.sheet == sheet && this.config == config
      ensures this.holidays == holidays && this.specialDays == specialDays
    {
      this.sheet := sheet;
      this.config := config;
      this.holidays := holidays;
      this.specialDays := specialDays;
    }

    /** Object construction: builds the special-day table from the configuration, failing
        as that does on a month/day that cannot be placed in the year. */
    static method Create(sheet: Worksheet?, config: Config, holidays: set<Date>) returns (r: Result<DateRow, Error>)
      ensures r.Ok? <==> SpecialDays.SpecialDayTable(config).Ok?
      ensures r.Err? ==> r.error == SpecialDays.SpecialDayTable(config).error
      ensures r.Ok? ==> && fresh(r.value)
                        && r.value.sheet == sheet && r.value.config == config && r.value.holidays == holidays
                        && r.value.specialDays == SpecialDays.SpecialDayTable(config).value
    {
      var table := SpecialDays.BuildSpecialDays(config);
      if table.Err? {
        return Err(table.error);
      }
      var row := new DateRow.Init(sheet, config, holidays, table.value);
      return Ok(row);
    }

    /** `year_iterator`: every day from January 1 for as many days as separate January 1
        from the next January 1, each classified; or the error raised when one of those
        two dates cannot be built. */
    method YearIterator() returns (r: Result<seq<DayRecord>, Error>)
      ensures r == YearDays(config, holidays, specialDays)
    {
      var check := YearCheck(config.year);
      if check.Some? {
        return Err(check.value);
      }
      var y := config.year;
      var day := Jan1(y);
      YearLength(y);
      var count := Ordinal(Jan1(y + 1)) - Ordinal(day);
      var items: seq<DayRecord> := [];
      var i := 0;
      while i < count
        invariant 0 <= i <= count
        invariant day == AddDays(Jan1(y), i)
        invariant items == FirstDays(config, holidays, specialDays, i)
      {
        items := items + [Classify(config, holidays, specialDays, day)];
        day := NextDay(day);
        i := i + 1;
      }
      return Ok(items);
    }

    /** `add_row`: the six titles in row 1, then day `k` of the year in row `k + 2`;
        returns the sheet's `max_row`. Without a worksheet it fails at once; with a year
        the iterator rejects, it fails after writing the titles. */
    method AddRow() returns (r: Result<int, Error>)
      modifies sheet
      ensures sheet == null ==> r == Err(NoWorksheet)
      ensures sheet != null ==>
                match YearDays(config, holidays, specialDays)
                case Err(e) => r == Err(e) && sheet.cells == WriteHeader(old(sheet.cells), Columns)
                case Ok(days) =>
                  && AllWellFormed(days)
                  && sheet.cells == AddRowSheet(old(sheet.cells), config, days)
                  && r.Ok? && IsMaxRow(sheet.cells, r.value)
      ensures sheet != null && old(sheet.cells) == map[] && YearDays(config, holidays, specialDays).Ok? ==>
                r == Ok(DaysInYear(config.year) + 1)
    {
      if sheet == null {
        return Err(NoWorksheet);
      }
      WriteTitles(sheet);
      var items := YearIterator();
      if items.Err? {
        return Err(items.error);
      }
      var days := items.value;
      YearDaysWellFormed(config, holidays, specialDays);
      WriteDayRows(sheet, config, days);
      var maxRow := sheet.MaxRow();
      if old(sheet.cells) == map[] {
        EmptySheetMaxRow(config, holidays, specialDays, maxRow);
      }
      return Ok(maxRow);
    }
  }

  // ---------------------------------------------------------------------------
  // The two loops of add_row's body

  /** add_row's header loop: each title into row 1 in the Title style. */
  method WriteTitles(sheet: Worksheet)
    modifies sheet
    ensures sheet.cells == WriteHeader(old(sheet.cells), Columns)
  {
    var c := 1;
    while c <= Columns
      invariant 1 <= c <= Columns + 1
      invariant sheet.cells == WriteHeader(old(sheet.cells), c - 1)
    {
      sheet.SetValue(1, c, Text(Titles[c - 1]));
      sheet.SetStyle(1, c, Title);
      c := c + 1;
    }
  }

  /** add_row's loop over the yielded days: day `i` into row `i + 2`. */
  method WriteDayRows(sheet: Worksheet, config: Config, days: seq<DayRecord>)
    requires AllWellFormed(days)
    modifies sheet
    ensures sheet.cells == WriteDays(old(sheet.cells), config, days, DayNames(days))
  {
    ghost var names := DayNames(days);
    var i := 0;
    while i < |days|
      invariant 0 <= i <= |days|
      invariant sheet.cells == WriteDays(old(sheet.cells), config, days[..i], names[..i])
    {
      WriteDaysStep(old(sheet.cells), config, days, names, i);
      WriteDayCells(sheet, config, i + 2, days[i]);
      i := i + 1;
    }
    assert days[..i] == days && names[..i] == names;
  }

  /** add_row's body for one yielded day: the column loop, then the date and the weekday name. */
  method WriteDayCells(sheet: Worksheet, config: Config, row: nat, day: DayRecord)
    requires row >= 1 && WellFormed(day.date)
    modifies sheet
    ensures sheet.cells == WriteDay(old(sheet.cells), config, row, day, WeekdayName(day.date))
  {
    var c := 1;
    while c <= Columns
      invariant 1 <= c <= Columns + 1
      invariant sheet.cells == WriteColumns(old(sheet.cells), config, row, day, c - 1)
    {
      if day.color == ColorHoliday(config) {
        sheet.SetStyle(row, c, Accent1);
      } else if day.color == ColorWeekend(config) {
        sheet.SetStyle(row, c, Accent2);
      } else if day.color != "" {
        sheet.SetStyle(row, c, Accent6);
      } else {
        sheet.SetValue(row, 3, Number(TargetHours));
        sheet.SetValue(row, 5, Text(BalanceFormula(row)));
      }
      c := c + 1;
    }
    sheet.SetValue(row, 1, DateValue(day.date));
    sheet.SetValue(row, 2, Text(WeekdayName(day.date)));
  }

  // ---------------------------------------------------------------------------
  // What add_row writes, day by day

  /** Every item the iterator yields carries a calendar date. */
  lemma YearDaysWellFormed(cfg: Config, holidays: set<Date>, table: map<Date, SpecialDay>)
    requires YearDays(cfg, holidays, table).Ok?
    ensures AllWellFormed(YearDays(cfg, holidays, table).value)
  {
    var days := YearDays(cfg, holidays, table).value;
    forall k | 0 <= k < |days| ensures WellFormed(days[k].date) {
      YearDaysAt(cfg, holidays, table, k);
    }
  }

  /** On an empty worksheet add_row returns the number of days in the year plus one. */
  lemma EmptySheetMaxRow(cfg: Config, holidays: set<Date>, table: map<Date, SpecialDay>, r: int)
    requires YearDays(cfg, holidays, table).Ok?
    requires AllWellFormed(YearDays(cfg, holidays, table).value)
    requires IsMaxRow(AddRowSheet(map[], cfg, YearDays(cfg, holidays, table).value), r)
    ensures r == DaysInYear(cfg.year) + 1
  {
    YearDaysDates(cfg, holidays, table);
    AddRowMaxRow(map[], cfg, YearDays(cfg, holidays, table).value, r);
  }

  /** All six cells of `row` exist in style `s`. */
  ghost predicate RowStyled(cells: map<Pos, Cell>, row: int, s: Style) {
    forall c :: 1 <= c <= Columns ==> (row, c) in cells && cells[(row, c)].style == s
  }

  /** No cell of `row` changed its style. */
  ghost predicate StylesKept(before: map<Pos, Cell>, after: map<Pos, Cell>, row: int) {
    forall c :: 1 <= c <= Columns ==> CellAt(after, (row, c)).style == CellAt(before, (row, c)).style
  }

  /** A public holiday's row is styled Accent1 across all six columns. */
  lemma HolidayRowStyle(cells: map<Pos, Cell>, cfg: Config, holidays: set<Date>, table: map<Date, SpecialDay>, k: nat)
    requires YearDays(cfg, holidays, table).Ok? && k < |YearDays(cfg, holidays, table).value|
    requires YearDays(cfg, holidays, table).value[k].date in holidays
    ensures var days := YearDays(cfg, holidays, table).value;
            && AllWellFormed(days)
            && var after := AddRowSheet(cells, cfg, days);
               RowStyled(after, k + 2, Accent1)
  {
    var days := YearDays(cfg, holidays, table).value;
    YearDaysWellFormed(cfg, holidays, table);
    HolidayFirst(cfg, holidays, table, k);
    AddRowDay(cells, cfg, days, k);
  }

  /** A Saturday or Sunday that is no public holiday is styled Accent2, or Accent1 when the
      weekend colour equals the holiday colour, across all six columns. */
  lemma WeekendRowStyle(cells: map<Pos, Cell>, cfg: Config, holidays: set<Date>, table: map<Date, SpecialDay>, k: nat)
    requires YearDays(cfg, holidays, table).Ok? && k < |YearDays(cfg, holidays, table).value|
    requires YearDays(cfg, holidays, table).value[k].date !in holidays
    requires Weekday(AddDays(Jan1(cfg.year), k)) > 4
    ensures var days := YearDays(cfg, holidays, table).value;
            var s := if ColorWeekend(cfg) == ColorHoliday(cfg) then Accent1 else Accent2;
            && AllWellFormed(days)
            && var after := AddRowSheet(cells, cfg, days);
               RowStyled(after, k + 2, s)
  {
    var days := YearDays(cfg, holidays, table).value;
    YearDaysWellFormed(cfg, holidays, table);
    WeekendBeforeSpecial(cfg, holidays, table, k);
    AddRowDay(cells, cfg, days, k);
  }

  /** A Monday to Friday that is no public holiday but a special day whose colour is
      neither the holiday nor the weekend colour, nor empty, is styled Accent6. */
  lemma SpecialRowStyle(cells: map<Pos, Cell>, cfg: Config, holidays: set<Date>, table: map<Date, SpecialDay>, k: nat)
    requires YearDays(cfg, holidays, table).Ok? && k < |YearDays(cfg, holidays, table).value|
    requires YearDays(cfg, holidays, table).value[k].date !in holidays
    requires Weekday(AddDays(Jan1(cfg.year), k)) <= 4
    requires YearDays(cfg, holidays, table).value[k].date in table
    requires var color := table[YearDays(cfg, holidays, table).value[k].date].color;
             color != ColorHoliday(cfg) && color != ColorWeekend(cfg) && color != ""
    ensures var days := YearDays(cfg, holidays, table).value;
            && AllWellFormed(days)
            && var after := AddRowSheet(cells, cfg, days);
               RowStyled(after, k + 2, Accent6)
  {
    var days := YearDays(cfg, holidays, table).value;
    YearDaysWellFormed(cfg, holidays, table);
    WeekdayLabel(cfg, holidays, table, k);
    AddRowDay(cells, cfg, days, k);
  }

  /** A Monday to Friday that is neither a public holiday nor a special day, with both
      configured colours non-empty, gets 8 target hours in column C and, in column E, the
      balance formula that refers to its own row; its styles stay as they were. */
  lemma NormalRowCells(cells: map<Pos, Cell>, cfg: Config, holidays: set<Date>, table: map<Date, SpecialDay>, k: nat)
    requires YearDays(cfg, holidays, table).Ok? && k < |YearDays(cfg, holidays, table).value|
    requires YearDays(cfg, holidays, table).value[k].date !in holidays
    requires Weekday(AddDays(Jan1(cfg.year), k)) <= 4
    requires YearDays(cfg, holidays, table).value[k].date !in table
    requires ColorHoliday(cfg) != "" && ColorWeekend(cfg) != ""
    ensures var days := YearDays(cfg, holidays, table).value;
            && AllWellFormed(days)
            && var after := AddRowSheet(cells, cfg, days);
               && (k + 2, 3) in after && after[(k + 2, 3)].value == Number(TargetHours)
               && (k + 2, 5) in after && after[(k + 2, 5)].value == Text(BalanceFormula(k + 2))
               && FormulaRow(BalanceFormula(k + 2)) == Some(k + 2)
               && StylesKept(cells, after, k + 2)
  {
    var days := YearDays(cfg, holidays, table).value;
    YearDaysWellFormed(cfg, holidays, table);
    WeekdayLabel(cfg, holidays, table, k);
    AddRowDay(cells, cfg, days, k);
    FormulaRefersToOwnRow(k + 2);
  }
}
