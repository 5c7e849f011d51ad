/**
 * What `year_iterator` yields: every calendar day of the configured year in
 * order, each as (date, name, colour), classified with the priority
 * public holiday, then weekend, then organisation special day, then normal.
 */
module Classifier {
  import opened Wrappers
  import opened Dates
  import opened Settings
  import SpecialDays

  /** The four categories a day can fall into. */
  datatype DayKind = Holiday | Weekend | Special | Normal

  /** One yielded item: `[date, name, colour]`. */
  datatype DayRecord = DayRecord(date: Date, name: string, color: string)

  /** Saturday and Sunday: `weekday() > 4`. */
  predicate IsWeekend(d: Date)
    requires WellFormed(d)
    ensures IsWeekend(d) <==> Weekday(d) == 5 || Weekday(d) == 6
  {
    Weekday(d) > 4
  }

  /** The category of `d`, tried in priority order. */
  function Kind(holidays: set<Date>, table: map<Date, SpecialDay>, d: Date): (k: DayKind)
    requires WellFormed(d)
    ensures k == Holiday <==> d in holidays
    ensures k == Weekend <==> d !in holidays && IsWeekend(d)
    ensures k == Special <==> d !in holidays && !IsWeekend(d) && d in table
    ensures k == Normal <==> d !in holidays && !IsWeekend(d) && d !in table
  {
    if d in holidays then Holiday
    else if IsWeekend(d) then Weekend
    else if d in table then Special
    else Normal
  }

  /** The item yielded for `d`. */
  function Classify(cfg: Config, holidays: set<Date>, table: map<Date, SpecialDay>, d: Date): (r: DayRecord)
    requires WellFormed(d)
    ensures r.date == d
  {
    match Kind(holidays, table, d)
    case Holiday => DayRecord(d, HolidayLabel(cfg), ColorHoliday(cfg))
    case Weekend => DayRecord(d, WeekendLabel(cfg), ColorWeekend(cfg))
    case Special => DayRecord(d, table[d].name, table[d].color)
    case Normal => DayRecord(d, "", "")
  }

  /** Whether `date(year, 1, 1)` and `date(year + 1, 1, 1)` can both be built. */
  function YearCheck(year: int): (r: Option<Error>)
    ensures r.None? <==> MinYear <= year && year + 1 <= MaxYear
    ensures r.Some? ==> r.value.BadYear? && !(MinYear <= r.value.year <= MaxYear)
  {
    if !(MinYear <= year <= MaxYear) then Some(BadYear(year))
    else if !(MinYear <= year + 1 <= MaxYear) then Some(BadYear(year + 1))
    else None
  }

  /** Everything `year_iterator` yields, or the ValueError it raises before the first item. */
  function YearDays(cfg: Config, holidays: set<Date>, table: map<Date, SpecialDay>): (r: Result<seq<DayRecord>, Error>)
    ensures r.Ok? <==> YearCheck(cfg.year).None?
    ensures r.Err? ==> YearCheck(cfg.year) == Some(r.error)
    ensures r.Ok? ==> |r.value| == DaysInYear(cfg.year)
  {
    match YearCheck(cfg.year)
    case Some(e) => Err(e)
    case None => Ok(FirstDays(cfg, holidays, table, DaysInYear(cfg.year)))
  }

  /** The first `n` items: January 1 plus 0, 1, ..., n - 1 days, each classified. */
  function FirstDays(cfg: Config, holidays: set<Date>, table: map<Date, SpecialDay>, n: nat): (r: seq<DayRecord>)
    requires cfg.year >= 1
    ensures |r| == n
  {
    if n == 0 then []
    else FirstDays(cfg, holidays, table, n - 1) + [Classify(cfg, holidays, table, AddDays(Jan1(cfg.year), n - 1))]
  }

  /** Item `k` of the first `n` is January 1 plus `k` days, classified. */
  lemma {:induction false} FirstDaysAt(cfg: Config, holidays: set<Date>, table: map<Date, SpecialDay>, n: nat, k: nat)
    requires cfg.year >= 1 && k < n
    ensures FirstDays(cfg, holidays, table, n)[k] == Classify(cfg, holidays, table, AddDays(Jan1(cfg.year), k))
  {
    if k < n - 1 {
      FirstDaysAt(cfg, holidays, table, n - 1, k);
    }
  }

  /** Item `k` of the year is January 1 plus `k` days, classified. */
  lemma YearDaysAt(cfg: Config, holidays: set<Date>, table: map<Date, SpecialDay>, k: nat)
    requires YearDays(cfg, holidays, table).Ok? && k < |YearDays(cfg, holidays, table).value|
    ensures |YearDays(cfg, holidays, table).value| == DaysInYear(cfg.year)
    ensures YearDays(cfg, holidays, table).value[k] == Classify(cfg, holidays, table, AddDays(Jan1(cfg.year), k))
  {
    FirstDaysAt(cfg, holidays, table, DaysInYear(cfg.year), k);
  }

  /** The iterator fails exactly for a year outside 1..9998; the year 9999 fails
      because its successor cannot be built. */
  lemma YearDaysFails(cfg: Config, holidays: set<Date>, table: map<Date, SpecialDay>)
    ensures YearDays(cfg, holidays, table).Err? <==> !(1 <= cfg.year <= 9998)
    ensures cfg.year == 9999 ==> YearDays(cfg, holidays, table) == Err(BadYear(10000))
  {
  }

  /** The iterator yields one item per day of the year, 365 or 366, in calendar order:
      item `k` is January 1 plus `k` days, a valid date of that year at position `k`,
      the first is January 1 and the last December 31. */
  lemma YearDaysDates(cfg: Config, holidays: set<Date>, table: map<Date, SpecialDay>)
    requires YearDays(cfg, holidays, table).Ok?
    ensures var days := YearDays(cfg, holidays, table).value;
            && |days| == DaysInYear(cfg.year)
            && (|days| == 366 <==> IsLeapYear(cfg.year))
            && (forall k :: 0 <= k < |days| ==>
                  && ValidDate(days[k].date)
                  && days[k].date.year == cfg.year
                  && DayOfYear(days[k].date) == k
                  && Ordinal(days[k].date) == Ordinal(Jan1(cfg.year)) + k)
            && days[0].date == Jan1(cfg.year)
            && days[|days| - 1].date == Dec31(cfg.year)
  {
    var y := cfg.year;
    var days := YearDays(cfg, holidays, table).value;
    YearDaysAt(cfg, holidays, table, 0);
    forall k | 0 <= k < |days|
      ensures ValidDate(days[k].date) && days[k].date.year == y
      ensures DayOfYear(days[k].date) == k && Ordinal(days[k].date) == Ordinal(Jan1(y)) + k
    {
      YearDaysAt(cfg, holidays, table, k);
      AddDaysInYear(y, k);
    }
    DayOfYearBound(days[|days| - 1].date);
  }

  /** Consecutive items are one day apart: the ordinal rises by one and the weekday
      moves on by one. */
  lemma YearDaysConsecutive(cfg: Config, holidays: set<Date>, table: map<Date, SpecialDay>, k: nat)
    requires YearDays(cfg, holidays, table).Ok?
    requires k + 1 < |YearDays(cfg, holidays, table).value|
    ensures var days := YearDays(cfg, holidays, table).value;
            && WellFormed(days[k].date) && WellFormed(days[k + 1].date)
            && days[k + 1].date == NextDay(days[k].date)
            && Ordinal(days[k + 1].date) == Ordinal(days[k].date) + 1
            && Weekday(days[k + 1].date) == (Weekday(days[k].date) + 1) % 7
  {
    var days := YearDays(cfg, holidays, table).value;
    YearDaysAt(cfg, holidays, table, k);
    YearDaysAt(cfg, holidays, table, k + 1);
    NextDayOrdinal(days[k].date);
    NextDayWeekday(days[k].date);
  }

  /** Every day of the year is yielded, at the index of its position in the year. */
  lemma YearDaysCover(cfg: Config, holidays: set<Date>, table: map<Date, SpecialDay>, d: Date)
    requires YearDays(cfg, holidays, table).Ok?
    requires ValidDate(d) && d.year == cfg.year
    ensures 0 <= DayOfYear(d) < |YearDays(cfg, holidays, table).value|
    ensures YearDays(cfg, holidays, table).value[DayOfYear(d)].date == d
  {
    var days := YearDays(cfg, holidays, table).value;
    DayOfYearBound(d);
    YearDaysDates(cfg, holidays, table);
    DayOfYearInjective(days[DayOfYear(d)].date, d);
  }

  /** A date in the holiday table is labelled a holiday, whatever its weekday and
      whether or not it is also a special day. */
  lemma HolidayFirst(cfg: Config, holidays: set<Date>, table: map<Date, SpecialDay>, k: nat)
    requires YearDays(cfg, holidays, table).Ok?
    requires k < |YearDays(cfg, holidays, table).value|
    requires YearDays(cfg, holidays, table).value[k].date in holidays
    ensures var item := YearDays(cfg, holidays, table).value[k];
            item.name == HolidayLabel(cfg) && item.color == ColorHoliday(cfg)
  {
    YearDaysAt(cfg, holidays, table, k);
  }

  /** A Saturday or Sunday that is not a public holiday is labelled a weekend, even
      when the special-day table lists it. */
  lemma WeekendBeforeSpecial(cfg: Config, holidays: set<Date>, table: map<Date, SpecialDay>, k: nat)
    requires YearDays(cfg, holidays, table).Ok?
    requires k < |YearDays(cfg, holidays, table).value|
    requires YearDays(cfg, holidays, table).value[k].date !in holidays
    requires Weekday(AddDays(Jan1(cfg.year), k)) > 4
    ensures var item := YearDays(cfg, holidays, table).value[k];
            item.name == WeekendLabel(cfg) && item.color == ColorWeekend(cfg)
  {
    YearDaysAt(cfg, holidays, table, k);
  }

  /** A Monday to Friday that is not a public holiday takes its special-day entry's name
      and colour, and otherwise an empty name and colour. */
  lemma WeekdayLabel(cfg: Config, holidays: set<Date>, table: map<Date, SpecialDay>, k: nat)
    requires YearDays(cfg, holidays, table).Ok?
    requires k < |YearDays(cfg, holidays, table).value|
    requires YearDays(cfg, holidays, table).value[k].date !in holidays
    requires Weekday(AddDays(Jan1(cfg.year), k)) <= 4
    ensures var item := YearDays(cfg, holidays, table).value[k];
            if item.date in table then item.name == table[item.date].name && item.color == table[item.date].color
            else item.name == "" && item.color == ""
  {
    YearDaysAt(cfg, holidays, table, k);
  }

  /** With the table built from the configuration: a Monday to Friday that is no public
      holiday and whose month/day entry `i` lists last gets entry `i`'s name and colour
      (the colour defaulting to the holiday colour). */
  lemma ConfiguredSpecialDay(cfg: Config, holidays: set<Date>, d: Date, i: nat, j: nat)
    requires SpecialDays.SpecialDayTable(cfg).Ok?
    requires YearDays(cfg, holidays, SpecialDays.SpecialDayTable(cfg).value).Ok?
    requires ValidDate(d) && d.year == cfg.year && d !in holidays && Weekday(d) <= 4
    requires i < |SpecialEntries(cfg)| && j < |SpecialEntries(cfg)[i].dates|
    requires SpecialEntries(cfg)[i].dates[j] == MonthDay(d.month, d.day)
    requires forall i', j' ::
               (0 <= i' < |SpecialEntries(cfg)| && 0 <= j' < |SpecialEntries(cfg)[i'].dates| &&
                (i < i' || (i == i' && j < j'))) ==>
               SpecialEntries(cfg)[i'].dates[j'] != MonthDay(d.month, d.day)
    ensures var days := YearDays(cfg, holidays, SpecialDays.SpecialDayTable(cfg).value);
            var e := SpecialEntries(cfg)[i];
            && days.value[DayOfYear(d)].date == d
            && days.value[DayOfYear(d)].name == e.name.GetOr("")
            && days.value[DayOfYear(d)].color == e.color.GetOr(ColorHoliday(cfg))
  {
    var table := SpecialDays.SpecialDayTable(cfg).value;
    SpecialDays.TableValue(cfg, i, j);
    YearDaysCover(cfg, holidays, table, d);
    YearDaysAt(cfg, holidays, table, DayOfYear(d));
  }
}
