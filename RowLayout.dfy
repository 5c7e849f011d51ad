/**
 * What `add_row` writes into the worksheet, as a function of the sheet it
 * starts from: the six titles in row 1, then one row per yielded day, day `i`
 * in row `i + 2`, styled by its colour or, for a day without colour, given the
 * target hours and a balance formula that refers to its own row.
 */
module RowLayout {
  import opened Wrappers
  import opened Dates
  import opened Settings
  import opened Worksheets
  import opened Classifier

  const Titles: seq<string> := ["Datum", "Wochentag", "Soll", "Ist", "Saldo", "Abwesenheit"]

  /** Number of columns of the day layout: date, weekday, target, actual, balance, absence. */
  const Columns := 6

  /** The target hours written for every normal day. */
  const TargetHours: real := 8.0

  /** The style a day's colour selects, compared first with the holiday colour, then with
      the weekend colour; `None` for the empty colour of a normal day. */
  function DayStyle(cfg: Config, color: string): (s: Option<Style>)
    ensures s == None <==> color != ColorHoliday(cfg) && color != ColorWeekend(cfg) && color == ""
    ensures color == ColorHoliday(cfg) ==> s == Some(Accent1)
    ensures color != ColorHoliday(cfg) && color == ColorWeekend(cfg) ==> s == Some(Accent2)
    ensures color != ColorHoliday(cfg) && color != ColorWeekend(cfg) && color != "" ==> s == Some(Accent6)
  {
    if color == ColorHoliday(cfg) then Some(Accent1)
    else if color == ColorWeekend(cfg) then Some(Accent2)
    else if color != "" then Some(Accent6)
    else None
  }

  /** `strftime('%a')` in the C locale. */
  function WeekdayName(d: Date): (r: string)
    requires WellFormed(d)
    ensures |r| == 3
    ensures r == "Sat" || r == "Sun" <==> IsWeekend(d)
  {
    ["Mon", "Tue", "Wed", "Thu", "Fri", "Sat", "Sun"][Weekday(d)]
  }

  // ---------------------------------------------------------------------------
  // Decimal row numbers in the balance formula

  predicate IsDigit(c: char) { '0' <= c <= '9' }

  predicate AllDigits(s: string) { forall k :: 0 <= k < |s| ==> IsDigit(s[k]) }

  function DigitChar(n: nat): char
    requires n < 10
  {
    "0123456789"[n]
  }

  /** The decimal text of `n`, as a Python f-string writes an int. */
  function NatToString(n: nat): (s: string)
    ensures |s| >= 1 && AllDigits(s)
    ensures n >= 1 ==> s[0] != '0'
    ensures |s| == 1 || s[0] != '0'
  {
    if n < 10 then [DigitChar(n)] else NatToString(n / 10) + [DigitChar(n % 10)]
  }

  /** The number a run of decimal digits denotes. */
  function DigitsValue(s: string): nat
    requires AllDigits(s)
  {
    if s == [] then 0 else 10 * DigitsValue(s[..|s| - 1]) + (s[|s| - 1] - '0') as nat
  }

  /** The longest run of digits at the start of `s`. */
  function LeadingDigits(s: string): (r: string)
    ensures r <= s && AllDigits(r)
  {
    if s == [] || !IsDigit(s[0]) then [] else [s[0]] + LeadingDigits(s[1..])
  }

  lemma {:induction false} NatToStringValue(n: nat)
    ensures DigitsValue(NatToString(n)) == n
  {
    if n >= 10 {
      NatToStringValue(n / 10);
      var s := NatToString(n);
      assert s[..|s| - 1] == NatToString(n / 10);
    }
  }

  lemma {:induction false} LeadingDigitsOf(a: string, b: string)
    requires AllDigits(a)
    requires b == [] || !IsDigit(b[0])
    ensures LeadingDigits(a + b) == a
  {
    if a != [] {
      assert (a + b)[1..] == a[1..] + b;
      LeadingDigitsOf(a[1..], b);
    } else {
      assert a + b == b;
    }
  }

  lemma SplitConcat(a: string, b: string)
    ensures (a + b)[..|a|] == a && (a + b)[|a|..] == b
  {
  }

  const FormulaHead: string := "=IF(AND(A"

  /** The balance formula of row `r`: actual minus target once the date lies more than two
      days back and a target is set, else empty. */
  function BalanceFormula(r: nat): (f: string)
    ensures |f| >= |FormulaHead| && f[..|FormulaHead|] == FormulaHead
    ensures |f| == 34 + 4 * |NatToString(r)|
  {
    var n := NatToString(r);
    FormulaHead + n + "<TODAY()-2,C" + n + "<>\"\"),D" + n + "-C" + n + ",\"\")"
  }

  /** The row a balance formula's first reference points at. */
  function FormulaRow(f: string): Option<nat> {
    if |f| >= |FormulaHead| && f[..|FormulaHead|] == FormulaHead then
      var ds := LeadingDigits(f[|FormulaHead|..]);
      if ds == [] then None else Some(DigitsValue(ds))
    else None
  }

  /** The first reference (column A) of the formula written into row `r` is to row `r`. */
  lemma FormulaRefersToOwnRow(r: nat)
    ensures FormulaRow(BalanceFormula(r)) == Some(r)
  {
    var n := NatToString(r);
    var tail := "<TODAY()-2,C" + n + "<>\"\"),D" + n + "-C" + n + ",\"\")";
    assert BalanceFormula(r) == FormulaHead + (n + tail);
    SplitConcat(FormulaHead, n + tail);
    LeadingDigitsOf(n, tail);
    NatToStringValue(r);
  }

  /** Different rows get different balance formulas. */
  lemma FormulasDistinct(r: nat, r': nat)
    requires r != r'
    ensures BalanceFormula(r) != BalanceFormula(r')
  {
    FormulaRefersToOwnRow(r);
    FormulaRefersToOwnRow(r');
  }

  // ---------------------------------------------------------------------------
  // The sheet after add_row

  /** The first `c` header cells written: title text in the Title style. */
  function WriteHeader(cells: map<Pos, Cell>, c: nat): (r: map<Pos, Cell>)
    requires c <= Columns
    ensures forall j :: 1 <= j <= c ==> CellAt(r, (1, j)) == Cell(Text(Titles[j - 1]), Title)
  {
    if c == 0 then cells
    else PutStyle(PutValue(WriteHeader(cells, c - 1), (1, c), Text(Titles[c - 1])), (1, c), Title)
  }

  /** The inner loop of one day's row after columns 1..c: a styled day styles column c;
      a day without colour writes the target hours and the formula (the same two cells
      on every pass). */
  function WriteColumns(cells: map<Pos, Cell>, cfg: Config, row: nat, day: DayRecord, c: nat): map<Pos, Cell>
  {
    if c == 0 then cells
    else
      var before := WriteColumns(cells, cfg, row, day, c - 1);
      match DayStyle(cfg, day.color)
      case Some(s) => PutStyle(before, (row, c), s)
      case None => PutValue(PutValue(before, (row, 3), Number(TargetHours)), (row, 5), Text(BalanceFormula(row)))
  }

  /** One day's row: its columns, then the date in column 1 and the weekday name `name`
      in column 2. */
  function WriteDay(cells: map<Pos, Cell>, cfg: Config, row: nat, day: DayRecord, name: string): (r: map<Pos, Cell>)
    ensures CellAt(r, (row, 1)).value == DateValue(day.date) && CellAt(r, (row, 2)).value == Text(name)
  {
    var styled := WriteColumns(cells, cfg, row, day, Columns);
    PutValue(PutValue(styled, (row, 1), DateValue(day.date)), (row, 2), Text(name))
  }

  predicate AllWellFormed(days: seq<DayRecord>) {
    forall k :: 0 <= k < |days| ==> WellFormed(days[k].date)
  }

  /** Day `k` of `days` written into row `k + 2` with weekday name `names[k]`, in order. */
  function WriteDays(cells: map<Pos, Cell>, cfg: Config, days: seq<DayRecord>, names: seq<string>): map<Pos, Cell>
    requires |names| == |days|
  {
    if days == [] then cells
    else
      var n := |days|;
      WriteDay(WriteDays(cells, cfg, days[..n - 1], names[..n - 1]), cfg, n + 1, days[n - 1], names[n - 1])
  }

  /** The last day of `days` is written after all the others, into row `|days| + 1`. */
  lemma WriteDaysLast(cells: map<Pos, Cell>, cfg: Config, days: seq<DayRecord>, names: seq<string>)
    requires |names| == |days| && days != []
    ensures var n := |days|;
            WriteDays(cells, cfg, days, names) ==
            WriteDay(WriteDays(cells, cfg, days[..n - 1], names[..n - 1]), cfg, n + 1, days[n - 1], names[n - 1])
  {
  }

  /** Writing one more day of `days` adds it in the next row. */
  lemma WriteDaysStep(cells: map<Pos, Cell>, cfg: Config, days: seq<DayRecord>, names: seq<string>, i: nat)
    requires |names| == |days| && i < |days|
    ensures WriteDays(cells, cfg, days[..i + 1], names[..i + 1]) ==
            WriteDay(WriteDays(cells, cfg, days[..i], names[..i]), cfg, i + 2, days[i], names[i])
  {
    assert days[..i + 1][..i] == days[..i] && names[..i + 1][..i] == names[..i];
  }

  /** The weekday names of the days, in order. */
  function DayNames(days: seq<DayRecord>): (names: seq<string>)
    requires AllWellFormed(days)
    ensures |names| == |days|
  {
    seq(|days|, k requires 0 <= k < |days| => WeekdayName(days[k].date))
  }

  /** The sheet after `add_row`, starting from `cells`. */
  function AddRowSheet(cells: map<Pos, Cell>, cfg: Config, days: seq<DayRecord>): (r: map<Pos, Cell>)
    requires AllWellFormed(days)
    ensures days != [] ==> CellAt(r, (|days| + 1, 1)).value == DateValue(days[|days| - 1].date)
  {
    WriteDays(WriteHeader(cells, Columns), cfg, days, DayNames(days))
  }

  // ---------------------------------------------------------------------------
  // What the sheet holds after add_row

  /** The cell at (row, c) is the same, present or absent, in `a` and in `b`. */
  predicate SameAt(a: map<Pos, Cell>, b: map<Pos, Cell>, p: Pos) {
    (p in a <==> p in b) && CellAt(a, p) == CellAt(b, p)
  }

  /** The six cells of row `row` are the same in `a` and in `b`. */
  predicate RowAgrees(a: map<Pos, Cell>, b: map<Pos, Cell>, row: int) {
    forall c :: 1 <= c <= Columns ==> SameAt(a, b, (row, c))
  }

  /** Row `row` of `after` is `day` written over row `row` of `before`: the date and the
      weekday name in columns 1 and 2; a styled day has all six columns in its style and keeps
      the values of columns 3 to 6; a day without colour gets the target hours in column 3 and
      its balance formula in column 5, keeps every style, and leaves columns 4 and 6 alone. */
  ghost predicate RowWritten(before: map<Pos, Cell>, after: map<Pos, Cell>, cfg: Config, row: nat,
                             day: DayRecord, name: string)
  {
    && (row, 1) in after && CellAt(after, (row, 1)).value == DateValue(day.date)
    && (row, 2) in after && CellAt(after, (row, 2)).value == Text(name)
    && match DayStyle(cfg, day.color)
       case Some(s) =>
         forall c :: 1 <= c <= Columns ==>
           && (row, c) in after && CellAt(after, (row, c)).style == s
           && (c >= 3 ==> CellAt(after, (row, c)).value == CellAt(before, (row, c)).value)
       case None =>
         && (row, 3) in after && CellAt(after, (row, 3)).value == Number(TargetHours)
         && (row, 5) in after && CellAt(after, (row, 5)).value == Text(BalanceFormula(row))
         && (forall c :: 1 <= c <= Columns ==> CellAt(after, (row, c)).style == CellAt(before, (row, c)).style)
         && SameAt(before, after, (row, 4)) && SameAt(before, after, (row, 6))
  }

  /** RowWritten only looks at the six cells of its row. */
  lemma RowWrittenFrame(before: map<Pos, Cell>, after: map<Pos, Cell>, before': map<Pos, Cell>, after': map<Pos, Cell>,
                        cfg: Config, row: nat, day: DayRecord, name: string)
    requires RowWritten(before, after, cfg, row, day, name)
    requires RowAgrees(before, before', row) && RowAgrees(after, after', row)
    ensures RowWritten(before', after', cfg, row, day, name)
  {
    assert SameAt(before, before', (row, 1)) && SameAt(after, after', (row, 1));
    assert SameAt(before, before', (row, 2)) && SameAt(after, after', (row, 2));
    assert SameAt(before, before', (row, 3)) && SameAt(after, after', (row, 3));
    assert SameAt(before, before', (row, 4)) && SameAt(after, after', (row, 4));
    assert SameAt(before, before', (row, 5)) && SameAt(after, after', (row, 5));
    assert SameAt(before, before', (row, 6)) && SameAt(after, after', (row, 6));
  }

  lemma RowAgreesReflexive(a: map<Pos, Cell>, row: int)
    ensures RowAgrees(a, a, row)
  {
  }

  lemma RowAgreesSymmetric(a: map<Pos, Cell>, b: map<Pos, Cell>, row: int)
    requires RowAgrees(a, b, row)
    ensures RowAgrees(b, a, row)
  {
    forall c | 1 <= c <= Columns ensures SameAt(b, a, (row, c)) {
      assert SameAt(a, b, (row, c));
    }
  }

  lemma RowAgreesTransitive(a: map<Pos, Cell>, b: map<Pos, Cell>, c: map<Pos, Cell>, row: int)
    requires RowAgrees(a, b, row) && RowAgrees(b, c, row)
    ensures RowAgrees(a, c, row)
  {
    forall col | 1 <= col <= Columns ensures SameAt(a, c, (row, col)) {
      assert SameAt(a, b, (row, col)) && SameAt(b, c, (row, col));
    }
  }

  /** The inner loop over the columns, cell by cell: a styled day styles columns 1 to c;
      a day without colour writes columns 3 and 5; every other cell stays. */
  lemma {:induction false} WriteColumnsAt(cells: map<Pos, Cell>, cfg: Config, row: nat, day: DayRecord, c: nat, p: Pos)
    ensures var w := WriteColumns(cells, cfg, row, day, c);
            match DayStyle(cfg, day.color)
            case Some(s) =>
              if p.0 == row && 1 <= p.1 <= c then p in w && w[p] == Cell(CellAt(cells, p).value, s)
              else SameAt(cells, w, p)
            case None =>
              if c >= 1 && p == (row, 3) then p in w && w[p] == Cell(Number(TargetHours), CellAt(cells, p).style)
              else if c >= 1 && p == (row, 5) then p in w && w[p] == Cell(Text(BalanceFormula(row)), CellAt(cells, p).style)
              else SameAt(cells, w, p)
  {
    if c > 0 {
      WriteColumnsAt(cells, cfg, row, day, c - 1, p);
    }
  }

  /** Writing one day changes no cell outside its row's six columns. */
  lemma WriteDayElsewhere(cells: map<Pos, Cell>, cfg: Config, row: nat, day: DayRecord, name: string, p: Pos)
    requires !(p.0 == row && 1 <= p.1 <= Columns)
    ensures SameAt(cells, WriteDay(cells, cfg, row, day, name), p)
  {
    WriteColumnsAt(cells, cfg, row, day, Columns, p);
  }

  /** Writing one day establishes RowWritten for its row. */
  lemma WriteDayRow(cells: map<Pos, Cell>, cfg: Config, row: nat, day: DayRecord, name: string)
    ensures RowWritten(cells, WriteDay(cells, cfg, row, day, name), cfg, row, day, name)
  {
    var w := WriteColumns(cells, cfg, row, day, Columns);
    var after := WriteDay(cells, cfg, row, day, name);
    forall c | 3 <= c <= Columns ensures SameAt(w, after, (row, c)) {
    }
    match DayStyle(cfg, day.color)
    case Some(s) =>
      forall c | 1 <= c <= Columns ensures (row, c) in w && w[(row, c)] == Cell(CellAt(cells, (row, c)).value, s) {
        WriteColumnsAt(cells, cfg, row, day, Columns, (row, c));
      }
    case None =>
      forall c | 1 <= c <= Columns && c != 3 && c != 5 ensures SameAt(cells, w, (row, c)) {
        WriteColumnsAt(cells, cfg, row, day, Columns, (row, c));
      }
      WriteColumnsAt(cells, cfg, row, day, Columns, (row, 3));
      WriteColumnsAt(cells, cfg, row, day, Columns, (row, 5));
  }

  /** What writing a day does to its row depends only on that row. */
  lemma WriteDaySameRow(a: map<Pos, Cell>, b: map<Pos, Cell>, cfg: Config, row: nat, day: DayRecord, name: string)
    requires RowAgrees(a, b, row)
    ensures RowAgrees(WriteDay(a, cfg, row, day, name), WriteDay(b, cfg, row, day, name), row)
  {
    forall c | 1 <= c <= Columns
      ensures SameAt(WriteDay(a, cfg, row, day, name), WriteDay(b, cfg, row, day, name), (row, c))
    {
      assert SameAt(a, b, (row, c));
      WriteColumnsAt(a, cfg, row, day, Columns, (row, c));
      WriteColumnsAt(b, cfg, row, day, Columns, (row, c));
    }
  }

  /** Writing one day leaves every other row as it was. */
  lemma WriteDayOtherRow(cells: map<Pos, Cell>, cfg: Config, row: nat, day: DayRecord, name: string, other: int)
    requires other != row
    ensures RowAgrees(cells, WriteDay(cells, cfg, row, day, name), other)
  {
    forall c | 1 <= c <= Columns ensures SameAt(cells, WriteDay(cells, cfg, row, day, name), (other, c)) {
      WriteDayElsewhere(cells, cfg, row, day, name, (other, c));
    }
  }

  /** Writing the days changes no cell outside rows 2 to |days| + 1, columns 1 to 6. */
  lemma {:induction false} WriteDaysElsewhere(cells: map<Pos, Cell>, cfg: Config, days: seq<DayRecord>,
                                              names: seq<string>, p: Pos)
    requires |names| == |days|
    requires !(2 <= p.0 <= |days| + 1 && 1 <= p.1 <= Columns)
    ensures SameAt(cells, WriteDays(cells, cfg, days, names), p)
  {
    if days != [] {
      var n := |days|;
      WriteDaysLast(cells, cfg, days, names);
      WriteDaysElsewhere(cells, cfg, days[..n - 1], names[..n - 1], p);
      WriteDayElsewhere(WriteDays(cells, cfg, days[..n - 1], names[..n - 1]), cfg, n + 1, days[n - 1], names[n - 1], p);
    }
  }

  /** Writing the days leaves every row outside 2 to |days| + 1 as it was. */
  lemma WriteDaysOtherRow(cells: map<Pos, Cell>, cfg: Config, days: seq<DayRecord>, names: seq<string>, other: int)
    requires |names| == |days| && !(2 <= other <= |days| + 1)
    ensures RowAgrees(cells, WriteDays(cells, cfg, days, names), other)
  {
    forall c | 1 <= c <= Columns ensures SameAt(cells, WriteDays(cells, cfg, days, names), (other, c)) {
      WriteDaysElsewhere(cells, cfg, days, names, (other, c));
    }
  }

  /** After writing the days, row k + 2 is what writing day k alone over the starting
      sheet gives: no other day touches that row. */
  lemma {:induction false} WriteDaysRowAlone(cells: map<Pos, Cell>, cfg: Config, days: seq<DayRecord>,
                                             names: seq<string>, k: nat)
    requires |names| == |days| && k < |days|
    ensures RowAgrees(WriteDay(cells, cfg, k + 2, days[k], names[k]), WriteDays(cells, cfg, days, names), k + 2)
  {
    var n := |days|;
    var pre, preNames := days[..n - 1], names[..n - 1];
    var mid := WriteDays(cells, cfg, pre, preNames);
    WriteDaysLast(cells, cfg, days, names);
    if k < n - 1 {
      WriteDaysRowAlone(cells, cfg, pre, preNames, k);
      assert pre[k] == days[k] && preNames[k] == names[k];
      WriteDayOtherRow(mid, cfg, n + 1, days[n - 1], names[n - 1], k + 2);
      RowAgreesTransitive(WriteDay(cells, cfg, k + 2, days[k], names[k]), mid, WriteDays(cells, cfg, days, names), k + 2);
    } else {
      WriteDaysLastRow(cells, cfg, days, names, k);
    }
  }

  /** The last day's row agrees with that day written alone over the starting sheet. */
  lemma WriteDaysLastRow(cells: map<Pos, Cell>, cfg: Config, days: seq<DayRecord>, names: seq<string>, k: nat)
    requires |names| == |days| && k + 1 == |days|
    ensures RowAgrees(WriteDay(cells, cfg, k + 2, days[k], names[k]), WriteDays(cells, cfg, days, names), k + 2)
  {
    var pre, preNames := days[..k], names[..k];
    var mid := WriteDays(cells, cfg, pre, preNames);
    WriteDaysLast(cells, cfg, days, names);
    WriteDaysOtherRow(cells, cfg, pre, preNames, k + 2);
    WriteDaySameRow(cells, mid, cfg, k + 2, days[k], names[k]);
  }

  /** Writing the days: row k + 2 holds day k written over the starting sheet's row. */
  lemma WriteDaysRow(cells: map<Pos, Cell>, cfg: Config, days: seq<DayRecord>, names: seq<string>, k: nat)
    requires |names| == |days| && k < |days|
    ensures RowWritten(cells, WriteDays(cells, cfg, days, names), cfg, k + 2, days[k], names[k])
  {
    var alone := WriteDay(cells, cfg, k + 2, days[k], names[k]);
    WriteDayRow(cells, cfg, k + 2, days[k], names[k]);
    WriteDaysRowAlone(cells, cfg, days, names, k);
    RowAgreesReflexive(cells, k + 2);
    RowWrittenFrame(cells, alone, cells, WriteDays(cells, cfg, days, names), cfg, k + 2, days[k], names[k]);
  }

  /** Writing the first `c` titles: title text in the Title style in row 1, columns 1 to c;
      every other cell stays. */
  lemma {:induction false} WriteHeaderAt(cells: map<Pos, Cell>, c: nat, p: Pos)
    requires c <= Columns
    ensures if p.0 == 1 && 1 <= p.1 <= c
            then p in WriteHeader(cells, c) && WriteHeader(cells, c)[p] == Cell(Text(Titles[p.1 - 1]), Title)
            else SameAt(cells, WriteHeader(cells, c), p)
  {
    if c > 0 {
      WriteHeaderAt(cells, c - 1, p);
    }
  }

  /** After add_row, row 1 holds the six titles in the Title style. */
  lemma AddRowHeader(cells: map<Pos, Cell>, cfg: Config, days: seq<DayRecord>, c: int)
    requires AllWellFormed(days) && 1 <= c <= Columns
    ensures (1, c) in AddRowSheet(cells, cfg, days)
    ensures AddRowSheet(cells, cfg, days)[(1, c)] == Cell(Text(Titles[c - 1]), Title)
  {
    WriteHeaderAt(cells, Columns, (1, c));
    WriteDaysElsewhere(WriteHeader(cells, Columns), cfg, days, DayNames(days), (1, c));
  }

  /** After add_row, row k + 2 holds day k, with its weekday's name, written over the
      original sheet's row. */
  lemma AddRowDay(cells: map<Pos, Cell>, cfg: Config, days: seq<DayRecord>, k: nat)
    requires AllWellFormed(days) && k < |days|
    ensures RowWritten(cells, AddRowSheet(cells, cfg, days), cfg, k + 2, days[k], WeekdayName(days[k].date))
  {
    var header := WriteHeader(cells, Columns);
    var after := AddRowSheet(cells, cfg, days);
    var row := k + 2;
    WriteDaysRow(header, cfg, days, DayNames(days), k);
    forall c | 1 <= c <= Columns ensures SameAt(header, cells, (row, c)) {
      WriteHeaderAt(cells, Columns, (row, c));
    }
    RowAgreesReflexive(after, row);
    RowWrittenFrame(header, after, cells, after, cfg, row, days[k], DayNames(days)[k]);
  }

  /** After add_row, every cell outside the header and the day rows is as it was. */
  lemma AddRowElsewhere(cells: map<Pos, Cell>, cfg: Config, days: seq<DayRecord>, p: Pos)
    requires AllWellFormed(days)
    requires !(1 <= p.0 <= |days| + 1 && 1 <= p.1 <= Columns)
    ensures SameAt(cells, AddRowSheet(cells, cfg, days), p)
  {
    WriteHeaderAt(cells, Columns, p);
    WriteDaysElsewhere(WriteHeader(cells, Columns), cfg, days, DayNames(days), p);
  }

  /** add_row's result: on a sheet whose cells all lie within the rows it writes (an empty
      sheet in particular), `max_row` is the number of days plus one. */
  lemma AddRowMaxRow(cells: map<Pos, Cell>, cfg: Config, days: seq<DayRecord>, r: int)
    requires AllWellFormed(days)
    requires forall p :: p in cells ==> p.0 <= |days| + 1
    requires IsMaxRow(AddRowSheet(cells, cfg, days), r)
    ensures r == |days| + 1
  {
    var after := AddRowSheet(cells, cfg, days);
    var last := (|days| + 1, 1);
    if days == [] {
      AddRowHeader(cells, cfg, days, 1);
    } else {
      AddRowDay(cells, cfg, days, |days| - 1);
    }
    assert last in after;
    forall p: Pos | p in after ensures p.0 <= |days| + 1 {
      if !(1 <= p.0 <= |days| + 1 && 1 <= p.1 <= Columns) {
        AddRowElsewhere(cells, cfg, days, p);
      }
    }
  }
}
