/**
 * The configuration the timesheet reads once from its YAML file, with the
 * defaults the program falls back on when a key is missing.
 */
module Settings {
  import opened Wrappers
  import opened Dates

  /** A `dd/mm` entry of a special day, as numbers after the text has been split. */
  datatype MonthDay = MonthDay(month: int, day: int)

  /** One item of the `holidays` list: a named organisation day with its dates.
      A missing `dates` key is the empty list. */
  datatype SpecialEntry = SpecialEntry(name: Option<string>, color: Option<string>, dates: seq<MonthDay>)

  /** The keys the core reads. A missing key is `None`; `year` is required here
      because its fallback is today's date. */
  datatype Config = Config(
    year: int,
    holidayLabel: Option<string>,
    weekendLabel: Option<string>,
    colorHoliday: Option<string>,
    colorWeekend: Option<string>,
    specialEntries: Option<seq<SpecialEntry>>)

  /** The exceptions the core can raise. */
  datatype Error =
    | BadMonthDay(md: MonthDay)   // the `dd/mm` text names no day of the parser's base year 1900
    | BadYear(year: int)          // `date(...)` outside MinYear..MaxYear
    | NoWorksheet                 // `add_row` on an object built without a sheet

  const DefaultColor: string := "#000000"

  /** `config.get('holiday', 'holiday')`. */
  function HolidayLabel(cfg: Config): (r: string)
    ensures cfg.holidayLabel.Some? ==> r == cfg.holidayLabel.value
    ensures cfg.holidayLabel.None? ==> r == "holiday"
  {
    cfg.holidayLabel.GetOr("holiday")
  }

  /** `config.get('weekend', 'weekend')`. */
  function WeekendLabel(cfg: Config): (r: string)
    ensures cfg.weekendLabel.Some? ==> r == cfg.weekendLabel.value
    ensures cfg.weekendLabel.None? ==> r == "weekend"
  {
    cfg.weekendLabel.GetOr("weekend")
  }

  /** `config.get('color_holiday', '#000000')`. */
  function ColorHoliday(cfg: Config): (r: string)
    ensures cfg.colorHoliday.Some? ==> r == cfg.colorHoliday.value
    ensures cfg.colorHoliday.None? ==> r == "#000000"
  {
    cfg.colorHoliday.GetOr(DefaultColor)
  }

  /** `config.get('color_weekend', '#000000')`. */
  function ColorWeekend(cfg: Config): (r: string)
    ensures cfg.colorWeekend.Some? ==> r == cfg.colorWeekend.value
    ensures cfg.colorWeekend.None? ==> r == "#000000"
  {
    cfg.colorWeekend.GetOr(DefaultColor)
  }

  /** `config.get('holidays', [{'name': ''}])`: a missing key stands for one entry named ""
      without dates. */
  function SpecialEntries(cfg: Config): (r: seq<SpecialEntry>)
    ensures cfg.specialEntries.Some? ==> r == cfg.specialEntries.value
    ensures cfg.specialEntries.None? ==> |r| == 1 && r[0].name == Some("") && r[0].dates == []
  {
    cfg.specialEntries.GetOr([SpecialEntry(Some(""), None, [])])
  }

  /** What the special-day table stores for a date. */
  datatype SpecialDay = SpecialDay(name: string, color: string)

  /** An entry's table value: its name (default "") and its colour (default the holiday colour). */
  function EntryValue(cfg: Config, e: SpecialEntry): (r: SpecialDay)
    ensures r.name == if e.name.Some? then e.name.value else ""
    ensures e.color.Some? ==> r.color == e.color.value
    ensures e.color.None? ==> r.color == ColorHoliday(cfg)
  {
    SpecialDay(e.name.GetOr(""), e.color.GetOr(ColorHoliday(cfg)))
  }

  /** The year a `dd/mm` text is parsed into before its month and day are taken. */
  const ParseBaseYear := 1900

  /** `date(year, month, day)` for a parsed `dd/mm` entry: the parse rejects
      what does not exist in 1900 (so also 29 February), then the date
      constructor rejects a year outside MinYear..MaxYear. */
  function Place(year: int, md: MonthDay): (r: Result<Date, Error>)
    ensures r.Ok? ==> ValidDate(r.value) && r.value.year == year
    ensures r.Ok? ==> r.value.month == md.month && r.value.day == md.day
    ensures r.Ok? <==> ValidDate(Date(ParseBaseYear, md.month, md.day)) && MinYear <= year <= MaxYear
    ensures md.month == 2 && md.day == 29 ==> r == Err(BadMonthDay(md))
  {
    if !ValidDate(Date(ParseBaseYear, md.month, md.day)) then Err(BadMonthDay(md))
    else if !(MinYear <= year <= MaxYear) then Err(BadYear(year))
    else Ok(Date(year, md.month, md.day))
  }
}
