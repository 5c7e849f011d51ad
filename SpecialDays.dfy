/**
 * The organisation's special-day table, filled once when a DateRow is built:
 * every `dd/mm` of every entry, placed in the configured year, maps to the
 * entry's name and colour; a later listing of the same date overwrites an
 * earlier one, and the first entry that cannot be placed aborts the fill.
 */
module SpecialDays {
  import opened Wrappers
  import opened Dates
  import opened Settings

  /** One write into the table: the month/day it is keyed by and the value stored. */
  type Assignment = (MonthDay, SpecialDay)

  /** The writes one entry contributes, in the order of its dates. */
  function EntryAssignments(cfg: Config, e: SpecialEntry): (r: seq<Assignment>)
    ensures |r| == |e.dates|
    ensures forall j :: 0 <= j < |r| ==> r[j] == (e.dates[j], EntryValue(cfg, e))
  {
    seq(|e.dates|, j requires 0 <= j < |e.dates| => (e.dates[j], EntryValue(cfg, e)))
  }

  /** How many dates the entries list in all. */
  function DateCount(es: seq<SpecialEntry>): nat {
    if es == [] then 0 else DateCount(es[..|es| - 1]) + |es[|es| - 1].dates|
  }

  /** All writes of the nested loop over entries and their dates, in execution order. */
  function Assignments(cfg: Config, es: seq<SpecialEntry>): (r: seq<Assignment>)
    ensures |r| == DateCount(es)
  {
    if es == [] then []
    else Assignments(cfg, es[..|es| - 1]) + EntryAssignments(cfg, es[|es| - 1])
  }

  /** Performing the writes `writes` in order on an empty table, stopping at the first
      month/day that cannot be placed in `year`. */
  function Fill(year: int, writes: seq<Assignment>): (r: Result<map<Date, SpecialDay>, Error>)
    ensures r.Ok? ==> forall d :: d in r.value ==> ValidDate(d) && d.year == year
  {
    if writes == [] then Ok(map[])
    else
      match Fill(year, writes[..|writes| - 1])
      case Err(e) => Err(e)
      case Ok(m) =>
        match Place(year, writes[|writes| - 1].0)
        case Err(e) => Err(e)
        case Ok(d) => Ok(m[d := writes[|writes| - 1].1])
  }

  /** The table `__init__` builds, or the exception it raises. */
  function SpecialDayTable(cfg: Config): (r: Result<map<Date, SpecialDay>, Error>)
    ensures r.Ok? ==> forall d :: d in r.value ==> ValidDate(d) && d.year == cfg.year
    ensures cfg.specialEntries.None? ==> r == Ok(map[])
  {
    Fill(cfg.year, Assignments(cfg, SpecialEntries(cfg)))
  }

  /** The fill succeeds exactly when every listed month/day can be placed in the year. */
  lemma {:induction false} FillSucceeds(year: int, writes: seq<Assignment>)
    ensures Fill(year, writes).Ok? <==> forall k :: 0 <= k < |writes| ==> Place(year, writes[k].0).Ok?
  {
    if writes != [] {
      var pre := writes[..|writes| - 1];
      FillSucceeds(year, pre);
      assert forall k :: 0 <= k < |pre| ==> pre[k] == writes[k];
    }
  }

  /** A failure reports the first month/day that cannot be placed. */
  lemma {:induction false} FillFailsAtFirst(year: int, writes: seq<Assignment>)
    requires Fill(year, writes).Err?
    ensures exists k :: 0 <= k < |writes| && Place(year, writes[k].0) == Err(Fill(year, writes).error)
                        && forall k' :: 0 <= k' < k ==> Place(year, writes[k'].0).Ok?
  {
    var pre := writes[..|writes| - 1];
    assert forall k :: 0 <= k < |pre| ==> pre[k] == writes[k];
    if Fill(year, pre).Err? {
      FillFailsAtFirst(year, pre);
    } else {
      FillSucceeds(year, pre);
      var k := |writes| - 1;
      assert Place(year, writes[k].0) == Err(Fill(year, writes).error);
    }
  }

  /** Once a prefix of the writes has failed, the whole fill fails the same way. */
  lemma {:induction false} FillPrefixFails(year: int, pre: seq<Assignment>, writes: seq<Assignment>)
    requires pre <= writes && Fill(year, pre).Err?
    ensures Fill(year, writes) == Fill(year, pre)
  {
    if |writes| > |pre| {
      var shorter := writes[..|writes| - 1];
      assert pre <= shorter;
      FillPrefixFails(year, pre, shorter);
    } else {
      assert writes == pre;
    }
  }

  /** After a successful fill the table holds exactly the placed dates. */
  lemma {:induction false} FillKeys(year: int, writes: seq<Assignment>)
    requires Fill(year, writes).Ok?
    ensures forall d :: d in Fill(year, writes).value <==>
              exists k :: 0 <= k < |writes| && Place(year, writes[k].0) == Ok(d)
  {
    if writes != [] {
      var pre := writes[..|writes| - 1];
      FillKeys(year, pre);
      assert forall k :: 0 <= k < |pre| ==> pre[k] == writes[k];
      var last := Place(year, writes[|writes| - 1].0);
      forall d | exists k :: 0 <= k < |writes| && Place(year, writes[k].0) == Ok(d)
        ensures d in Fill(year, writes).value
      {
        var k :| 0 <= k < |writes| && Place(year, writes[k].0) == Ok(d);
        if k < |pre| {
          assert Place(year, pre[k].0) == Ok(d);
        }
      }
    }
  }

  /** After a successful fill a placed date holds the value of the last write that placed it. */
  lemma {:induction false} FillLastWriter(year: int, writes: seq<Assignment>, k: nat, d: Date)
    requires Fill(year, writes).Ok?
    requires k < |writes| && Place(year, writes[k].0) == Ok(d)
    requires forall k' :: k < k' < |writes| ==> Place(year, writes[k'].0) != Ok(d)
    ensures d in Fill(year, writes).value && Fill(year, writes).value[d] == writes[k].1
  {
    var pre := writes[..|writes| - 1];
    if k < |writes| - 1 {
      assert forall k' :: k < k' < |pre| ==> pre[k'] == writes[k'];
      FillLastWriter(year, pre, k, d);
    }
  }

  /** Index of the write of date `j` of entry `i`. */
  function WriteIndex(cfg: Config, es: seq<SpecialEntry>, i: nat, j: nat): nat
    requires i <= |es|
  {
    |Assignments(cfg, es[..i])| + j
  }

  /** The writes of the first `i` entries come first, in the same order. */
  lemma {:induction false} AssignmentsPrefix(cfg: Config, es: seq<SpecialEntry>, i: nat)
    requires i <= |es|
    ensures Assignments(cfg, es[..i]) + EntryAssignments(cfg, if i < |es| then es[i] else SpecialEntry(None, None, []))
            <= Assignments(cfg, es)
  {
    if i < |es| {
      var n := |es|;
      if i == n - 1 {
        assert es[..n][..n - 1] == es[..i];
        assert es[..n] == es;
      } else {
        var shorter := es[..n - 1];
        AssignmentsPrefix(cfg, shorter, i);
        assert shorter[..i] == es[..i] && shorter[i] == es[i];
      }
    } else {
      assert es[..i] == es;
    }
  }

  /** Date `j` of entry `i` is written at WriteIndex(i, j). */
  lemma AssignmentAt(cfg: Config, es: seq<SpecialEntry>, i: nat, j: nat)
    requires i < |es| && j < |es[i].dates|
    ensures WriteIndex(cfg, es, i, j) < |Assignments(cfg, es)|
    ensures Assignments(cfg, es)[WriteIndex(cfg, es, i, j)] == (es[i].dates[j], EntryValue(cfg, es[i]))
  {
    AssignmentsPrefix(cfg, es, i);
    var pre := Assignments(cfg, es[..i]) + EntryAssignments(cfg, es[i]);
    assert pre[WriteIndex(cfg, es, i, j)] == (es[i].dates[j], EntryValue(cfg, es[i]));
  }

  /** Every write comes from some date of some entry. */
  lemma {:induction false} AssignmentSource(cfg: Config, es: seq<SpecialEntry>, k: nat)
    requires k < |Assignments(cfg, es)|
    ensures exists i: nat, j: nat :: i < |es| && j < |es[i].dates| && WriteIndex(cfg, es, i, j) == k
  {
    var n := |es|;
    var shorter := es[..n - 1];
    assert es[..n - 1] == shorter;
    if k < |Assignments(cfg, shorter)| {
      AssignmentSource(cfg, shorter, k);
      var i: nat, j: nat :| i < |shorter| && j < |shorter[i].dates| && WriteIndex(cfg, shorter, i, j) == k;
      assert shorter[..i] == es[..i];
      assert WriteIndex(cfg, es, i, j) == k;
    } else {
      assert WriteIndex(cfg, es, n - 1, k - |Assignments(cfg, shorter)|) == k;
    }
  }

  /** Write indexes follow the loops' order: entry by entry, date by date. */
  lemma {:induction false} WriteIndexOrder(cfg: Config, es: seq<SpecialEntry>, i: nat, j: nat, i': nat, j': nat)
    requires i < |es| && j < |es[i].dates| && i' < |es| && j' < |es[i'].dates|
    requires i < i' || (i == i' && j < j')
    ensures WriteIndex(cfg, es, i, j) < WriteIndex(cfg, es, i', j')
  {
    if i < i' {
      AssignmentsPrefix(cfg, es[..i'], i + 1);
      assert es[..i'][..i + 1] == es[..i + 1];
      var shorter := es[..i + 1];
      assert shorter[..i] == es[..i] && shorter[i] == es[i];
      assert Assignments(cfg, es[..i + 1]) == Assignments(cfg, es[..i]) + EntryAssignments(cfg, es[i]);
    }
  }

  /** The table's keys are exactly the listed month/days placed in the configured year. */
  lemma TableDomain(cfg: Config, d: Date)
    requires SpecialDayTable(cfg).Ok?
    ensures d in SpecialDayTable(cfg).value <==>
              d.year == cfg.year &&
              exists i, j :: 0 <= i < |SpecialEntries(cfg)| && 0 <= j < |SpecialEntries(cfg)[i].dates| &&
                             SpecialEntries(cfg)[i].dates[j] == MonthDay(d.month, d.day)
  {
    var es := SpecialEntries(cfg);
    var writes := Assignments(cfg, es);
    FillKeys(cfg.year, writes);
    FillSucceeds(cfg.year, writes);
    if d in SpecialDayTable(cfg).value {
      var k :| 0 <= k < |writes| && Place(cfg.year, writes[k].0) == Ok(d);
      AssignmentSource(cfg, es, k);
      var i: nat, j: nat :| i < |es| && j < |es[i].dates| && WriteIndex(cfg, es, i, j) == k;
      AssignmentAt(cfg, es, i, j);
    }
    if d.year == cfg.year &&
       exists i, j :: 0 <= i < |es| && 0 <= j < |es[i].dates| && es[i].dates[j] == MonthDay(d.month, d.day)
    {
      var i, j :| 0 <= i < |es| && 0 <= j < |es[i].dates| && es[i].dates[j] == MonthDay(d.month, d.day);
      AssignmentAt(cfg, es, i, j);
      assert Place(cfg.year, writes[WriteIndex(cfg, es, i, j)].0) == Ok(d);
    }
  }

  /** A listed date holds the name and colour of the last entry (in list order, then date
      order) that lists it: a later entry for the same date overwrites an earlier one. */
  lemma TableValue(cfg: Config, i: nat, j: nat)
    requires SpecialDayTable(cfg).Ok?
    requires i < |SpecialEntries(cfg)| && j < |SpecialEntries(cfg)[i].dates|
    requires forall i', j' ::
               (0 <= i' < |SpecialEntries(cfg)| && 0 <= j' < |SpecialEntries(cfg)[i'].dates| &&
                (i < i' || (i == i' && j < j'))) ==>
               SpecialEntries(cfg)[i'].dates[j'] != SpecialEntries(cfg)[i].dates[j]
    ensures var md := SpecialEntries(cfg)[i].dates[j];
            var d := Date(cfg.year, md.month, md.day);
            d in SpecialDayTable(cfg).value &&
            SpecialDayTable(cfg).value[d] == EntryValue(cfg, SpecialEntries(cfg)[i])
  {
    var es := SpecialEntries(cfg);
    var writes := Assignments(cfg, es);
    var md := es[i].dates[j];
    var d := Date(cfg.year, md.month, md.day);
    var k := WriteIndex(cfg, es, i, j);
    AssignmentAt(cfg, es, i, j);
    FillSucceeds(cfg.year, writes);
    assert Place(cfg.year, writes[k].0) == Ok(d);
    forall k' | k < k' < |writes| ensures Place(cfg.year, writes[k'].0) != Ok(d) {
      AssignmentSource(cfg, es, k');
      var i': nat, j': nat :| i' < |es| && j' < |es[i'].dates| && WriteIndex(cfg, es, i', j') == k';
      AssignmentAt(cfg, es, i', j');
      if !(i < i' || (i == i' && j < j')) {
        if i' < i || (i' == i && j' < j) {
          WriteIndexOrder(cfg, es, i', j', i, j);
        }
      }
    }
    FillLastWriter(cfg.year, writes, k, d);
  }

  /** The fill succeeds exactly when every listed `dd/mm` exists in 1900 and the year is
      within MinYear..MaxYear (or nothing is listed). */
  lemma TableSucceeds(cfg: Config)
    ensures SpecialDayTable(cfg).Ok? <==>
              forall i, j :: 0 <= i < |SpecialEntries(cfg)| && 0 <= j < |SpecialEntries(cfg)[i].dates| ==>
                Place(cfg.year, SpecialEntries(cfg)[i].dates[j]).Ok?
  {
    var es := SpecialEntries(cfg);
    var writes := Assignments(cfg, es);
    FillSucceeds(cfg.year, writes);
    if SpecialDayTable(cfg).Ok? {
      forall i, j | 0 <= i < |es| && 0 <= j < |es[i].dates|
        ensures Place(cfg.year, es[i].dates[j]).Ok?
      {
        AssignmentAt(cfg, es, i, j);
        assert writes[WriteIndex(cfg, es, i, j)].0 == es[i].dates[j];
      }
    } else {
      var k :| 0 <= k < |writes| && !Place(cfg.year, writes[k].0).Ok?;
      AssignmentSource(cfg, es, k);
      var i: nat, j: nat :| i < |es| && j < |es[i].dates| && WriteIndex(cfg, es, i, j) == k;
      AssignmentAt(cfg, es, i, j);
      assert !Place(cfg.year, es[i].dates[j]).Ok?;
    }
  }

  /** Taking one more entry appends its writes. */
  lemma AssignmentsStep(cfg: Config, es: seq<SpecialEntry>, i: nat)
    requires i < |es|
    ensures Assignments(cfg, es[..i + 1]) == Assignments(cfg, es[..i]) + EntryAssignments(cfg, es[i])
  {
    assert es[..i + 1][..i] == es[..i];
  }

  /** Taking one more element of `ys` appends it. */
  lemma ExtendPrefix<T>(xs: seq<T>, ys: seq<T>, j: nat)
    requires j < |ys|
    ensures xs + ys[..j + 1] == (xs + ys[..j]) + [ys[j]]
  {
    assert ys[..j + 1] == ys[..j] + [ys[j]];
  }

  /** One more write on top of `done`. */
  lemma FillStep(year: int, done: seq<Assignment>, a: Assignment)
    ensures Fill(year, done + [a]) ==
              match Fill(year, done)
              case Err(e) => Err(e)
              case Ok(m) =>
                match Place(year, a.0)
                case Err(e) => Err(e)
                case Ok(d) => Ok(m[d := a.1])
  {
    assert (done + [a])[..|done|] == done;
  }

  /** A write that cannot be placed in the middle of the loops is the table's failure. */
  lemma FailureInLoop(cfg: Config, i: nat, j: nat)
    requires i < |SpecialEntries(cfg)| && j < |SpecialEntries(cfg)[i].dates|
    requires Fill(cfg.year, Assignments(cfg, SpecialEntries(cfg)[..i]) +
                            EntryAssignments(cfg, SpecialEntries(cfg)[i])[..j + 1]).Err?
    ensures SpecialDayTable(cfg) == Fill(cfg.year, Assignments(cfg, SpecialEntries(cfg)[..i]) +
                                                   EntryAssignments(cfg, SpecialEntries(cfg)[i])[..j + 1])
  {
    var es := SpecialEntries(cfg);
    var written := Assignments(cfg, es[..i]) + EntryAssignments(cfg, es[i])[..j + 1];
    AssignmentsPrefix(cfg, es, i);
    assert written <= Assignments(cfg, es[..i]) + EntryAssignments(cfg, es[i]);
    FillPrefixFails(cfg.year, written, Assignments(cfg, es));
  }

  /** `__init__`'s nested loop over the entries and their dates, filling a dictionary in place. */
  method BuildSpecialDays(cfg: Config) returns (r: Result<map<Date, SpecialDay>, Error>)
    ensures r == SpecialDayTable(cfg)
  {
    var es := SpecialEntries(cfg);
    var table: map<Date, SpecialDay> := map[];
    var i := 0;
    while i < |es|
      invariant 0 <= i <= |es|
      invariant Fill(cfg.year, Assignments(cfg, es[..i])) == Ok(table)
    {
      var filled := PlaceEntryDates(cfg, i, table);
      if filled.Err? {
        return filled;
      }
      table := filled.value;
      i := i + 1;
    }
    assert es[..i] == es;
    r := Ok(table);
  }

  /** The inner loop for entry `i`: each of its dates placed in the year and written into
      the table, stopping at the first that cannot be placed. */
  method PlaceEntryDates(cfg: Config, i: nat, table: map<Date, SpecialDay>) returns (r: Result<map<Date, SpecialDay>, Error>)
    requires i < |SpecialEntries(cfg)|
    requires Fill(cfg.year, Assignments(cfg, SpecialEntries(cfg)[..i])) == Ok(table)
    ensures r.Ok? ==> Fill(cfg.year, Assignments(cfg, SpecialEntries(cfg)[..i + 1])) == r
    ensures r.Err? ==> r == SpecialDayTable(cfg)
  {
    var es := SpecialEntries(cfg);
    var e := es[i];
    var v := EntryValue(cfg, e);
    ghost var before := Assignments(cfg, es[..i]);
    var current := table;
    var j := 0;
    assert before + EntryAssignments(cfg, e)[..0] == before;
    while j < |e.dates|
      invariant 0 <= j <= |e.dates|
      invariant Fill(cfg.year, before + EntryAssignments(cfg, e)[..j]) == Ok(current)
    {
      ghost var done := before + EntryAssignments(cfg, e)[..j];
      ExtendPrefix(before, EntryAssignments(cfg, e), j);
      FillStep(cfg.year, done, (e.dates[j], v));
      var placed := Place(cfg.year, e.dates[j]);
      if placed.Err? {
        FailureInLoop(cfg, i, j);
        return Err(placed.error);
      }
      current := current[placed.value := v];
      j := j + 1;
    }
    assert EntryAssignments(cfg, e)[..j] == EntryAssignments(cfg, e);
    AssignmentsStep(cfg, es, i);
    r := Ok(current);
  }
}
