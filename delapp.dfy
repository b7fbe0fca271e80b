/** One run of the delivered-orders report: normalise the uploaded rows, compute the
    two target days and build the two result tables, or fail as a whole. */
module DelApp {
  import opened Wrappers
  import opened Calendar
  import opened Columns
  import opened Table
  import opened Selection

  /** Why a run fails: a delivery-date key that does not parse, reported with the first
      row that has one, or a day offset too long for a `Timedelta`. */
  datatype Error = DateParseError(row: nat, key: string) | OffsetOutOfRange(daysAgo: nat)

  /** What a run shows: the two days with their tables, or an error and no table at all. */
  datatype Outcome =
    | Done(oldDate: int, oldTable: seq<OutputRow>, latestDate: int, latestTable: seq<OutputRow>)
    | Failed(error: Error)

  /** The parsed date column, `None` where a row's date does not parse. */
  function ParsedDates(rows: seq<RawRow>): (ds: seq<Option<DateValue>>)
    ensures |ds| == |rows| && forall i :: 0 <= i < |rows| ==> ds[i] == ParsedDate(rows[i].deliveryDate)
  {
    seq(|rows|, i requires 0 <= i < |rows| => ParsedDate(rows[i].deliveryDate))
  }

  /** The first position from `i` on where the parsed column has no value. */
  function FirstFailure(ds: seq<Option<DateValue>>, i: nat): Option<nat>
    requires i <= |ds|
    decreases |ds| - i
  {
    if i == |ds| then None
    else if ds[i].None? then Some(i)
    else FirstFailure(ds, i + 1)
  }

  /** `None` exactly when every value from `i` on is there; otherwise a position that
      has none, with a value at every position between `i` and it. */
  lemma {:induction false} FirstFailureSpec(ds: seq<Option<DateValue>>, i: nat)
    requires i <= |ds|
    ensures FirstFailure(ds, i).None? <==> forall j :: i <= j < |ds| ==> ds[j].Some?
    ensures FirstFailure(ds, i).Some? ==>
      var bad := FirstFailure(ds, i).value;
      i <= bad < |ds| && ds[bad].None? && forall j :: i <= j < bad ==> ds[j].Some?
    decreases |ds| - i
  {
    if i < |ds| {
      FirstFailureSpec(ds, i + 1);
    }
  }

  /** A missing value with a value at every earlier position is the first failure. */
  lemma {:induction false} FirstFailureIs(ds: seq<Option<DateValue>>, from: nat, i: nat)
    requires from <= i < |ds| && ds[i].None?
    requires forall j :: from <= j < i ==> ds[j].Some?
    ensures FirstFailure(ds, from) == Some(i)
    decreases i - from
  {
    if from < i {
      FirstFailureIs(ds, from + 1, i);
    }
  }

  /** A row after all four column updates, with `date` its parsed delivery date. */
  function NormaliseRow(row: RawRow, date: DateValue): Record {
    Record(NormalisePhone(row.phone), FirstName(row.customerName), Stamp(date), OrderCode(row.phone))
  }

  function NormalisedRows(rows: seq<RawRow>, ds: seq<Option<DateValue>>): (rs: seq<Record>)
    requires |ds| == |rows| && forall i :: 0 <= i < |ds| ==> ds[i].Some?
    ensures |rs| == |rows| && forall i :: 0 <= i < |rows| ==> rs[i] == NormaliseRow(rows[i], ds[i].value)
  {
    seq(|rows|, i requires 0 <= i < |rows| => NormaliseRow(rows[i], ds[i].value))
  }

  /** Both offsets fit in a `Timedelta`. */
  predicate OffsetsInRange(oldDaysAgo: nat, latestDaysAgo: nat) {
    oldDaysAgo <= MaxOffsetDays && latestDaysAgo <= MaxOffsetDays
  }

  /** The whole run, as a function of the rows, today's day and the two offsets: the
      dates are parsed first, then the old target day, then the latest one. */
  function Run(rows: seq<RawRow>, today: int, oldDaysAgo: nat, latestDaysAgo: nat): (r: Outcome)
    ensures r.Failed? && r.error.DateParseError? ==> r.error.row < |rows|
    ensures r.Done? ==> |r.oldTable| <= |rows| && |r.latestTable| <= |rows|
  {
    var ds := ParsedDates(rows);
    FirstFailureSpec(ds, 0);
    match FirstFailure(ds, 0)
    case Some(i) => Failed(DateParseError(i, DateKey(rows[i].deliveryDate)))
    case None =>
      var rs := NormalisedRows(rows, ds);
      var oldDate := TargetDate(today, oldDaysAgo);
      var latestDate := TargetDate(today, latestDaysAgo);
      if oldDate.None? then Failed(OffsetOutOfRange(oldDaysAgo))
      else if latestDate.None? then Failed(OffsetOutOfRange(latestDaysAgo))
      else Done(oldDate.value, Select(rs, oldDate.value), latestDate.value, Select(rs, latestDate.value))
  }

  /** A row after the phone, order-code and name updates, its date still text. */
  function TextNormalised(row: RawRow): Record {
    Record(NormalisePhone(row.phone), FirstName(row.customerName), Text(row.deliveryDate), OrderCode(row.phone))
  }

  /** Loads the rows into a fresh table and runs the three text column updates on it. */
  method LoadTable(rows: seq<RawRow>) returns (data: array<Record>)
    ensures fresh(data)
    ensures data.Length == |rows| && forall i :: 0 <= i < |rows| ==> data[i] == TextNormalised(rows[i])
  {
    data := new Record[|rows|](i requires 0 <= i < |rows| => Loaded(rows[i]));
    TrimPhones(data);
    AssignOrderCodes(data);
    CutNames(data);
  }

  /** Loads the rows and runs the four column updates; `bad` is the first row whose date
      does not parse, and when there is none the table holds the normalised rows. */
  method NormaliseTable(rows: seq<RawRow>) returns (data: array<Record>, bad: Option<nat>)
    ensures fresh(data)
    ensures bad == FirstFailure(ParsedDates(rows), 0)
    ensures bad.None? ==> (forall i :: 0 <= i < |rows| ==> ParsedDates(rows)[i].Some?)
                          && data[..] == NormalisedRows(rows, ParsedDates(rows))
  {
    data := LoadTable(rows);
    ghost var ds := ParsedDates(rows);
    assert forall i :: 0 <= i < |rows| ==> data[i].delivery.text == rows[i].deliveryDate;
    bad := ParseDates(data);
    if bad.Some? {
      FirstFailureIs(ds, 0, bad.value);
    } else {
      FirstFailureSpec(ds, 0);
      assert data[..] == NormalisedRows(rows, ds);
    }
  }

  /** The report as the program computes it: the rows are normalised column by column
      in a table, and the two result tables are cut out of it. */
  method FilterOrders(rows: seq<RawRow>, today: int, oldDaysAgo: nat, latestDaysAgo: nat)
    returns (r: Outcome)
    ensures r == Run(rows, today, oldDaysAgo, latestDaysAgo)
  {
    var data, bad := NormaliseTable(rows);
    FirstFailureSpec(ParsedDates(rows), 0);
    if bad.Some? {
      return Failed(DateParseError(bad.value, DateKey(rows[bad.value].deliveryDate)));
    }
    var oldDate := TargetDate(today, oldDaysAgo);
    if oldDate.None? {
      return Failed(OffsetOutOfRange(oldDaysAgo));
    }
    var latestDate := TargetDate(today, latestDaysAgo);
    if latestDate.None? {
      return Failed(OffsetOutOfRange(latestDaysAgo));
    }
    var latestTable := Select(data[..], latestDate.value);
    var oldTable := Select(data[..], oldDate.value);
    return Done(oldDate.value, oldTable, latestDate.value, latestTable);
  }

  // ---------------- Properties of a run ----------------

  /** Fail-fast: a run fails exactly when some row's date does not parse or an offset is
      too long for a `Timedelta`. A date that does not parse is reported first, with the
      first such row and its key, whatever the day and the offsets; either way no table
      is shown. */
  lemma RunFailsExactly(rows: seq<RawRow>, today: int, oldDaysAgo: nat, latestDaysAgo: nat)
    ensures var o := Run(rows, today, oldDaysAgo, latestDaysAgo);
      o.Failed? <==>
        (exists i :: 0 <= i < |rows| && ParsedDate(rows[i].deliveryDate).None?)
        || !OffsetsInRange(oldDaysAgo, latestDaysAgo)
    ensures var o := Run(rows, today, oldDaysAgo, latestDaysAgo);
      o.Failed? && o.error.DateParseError? <==>
        exists i :: 0 <= i < |rows| && ParsedDate(rows[i].deliveryDate).None?
    ensures var o := Run(rows, today, oldDaysAgo, latestDaysAgo);
      o.Failed? && o.error.DateParseError? ==>
        var i := o.error.row;
        i < |rows| && ParsedDate(rows[i].deliveryDate).None?
        && (forall j :: 0 <= j < i ==> ParsedDate(rows[j].deliveryDate).Some?)
        && o.error.key == DateKey(rows[i].deliveryDate)
  {
    var ds := ParsedDates(rows);
    FirstFailureSpec(ds, 0);
    if FirstFailure(ds, 0).Some? {
      var i := FirstFailure(ds, 0).value;
      assert ParsedDate(rows[i].deliveryDate).None?;
    }
  }

  /** With every date parsed, an offset too long for a `Timedelta` fails the run with that
      offset; the old one is checked first. */
  lemma RunOffsetError(rows: seq<RawRow>, today: int, oldDaysAgo: nat, latestDaysAgo: nat)
    requires forall i :: 0 <= i < |rows| ==> ParsedDate(rows[i].deliveryDate).Some?
    ensures var o := Run(rows, today, oldDaysAgo, latestDaysAgo);
      o.Failed? <==> !OffsetsInRange(oldDaysAgo, latestDaysAgo)
    ensures var o := Run(rows, today, oldDaysAgo, latestDaysAgo);
      o.Failed? ==>
        o.error == OffsetOutOfRange(if oldDaysAgo > MaxOffsetDays then oldDaysAgo else latestDaysAgo)
  {
    FirstFailureSpec(ParsedDates(rows), 0);
  }

  /** The two target days are `today` minus the offsets, never after today, and a run
      that succeeds had both offsets in range. */
  lemma RunTargetDates(rows: seq<RawRow>, today: int, oldDaysAgo: nat, latestDaysAgo: nat)
    requires Run(rows, today, oldDaysAgo, latestDaysAgo).Done?
    ensures var o := Run(rows, today, oldDaysAgo, latestDaysAgo);
      OffsetsInRange(oldDaysAgo, latestDaysAgo)
      && o.oldDate + oldDaysAgo == today && o.latestDate + latestDaysAgo == today
      && o.oldDate <= today && o.latestDate <= today
  {
  }

  /** A table of a successful run, in terms of the uploaded rows: row `k` comes from the
      `k`-th uploaded row whose date key parses to the target day, and carries that row's
      order code and first name; every such row is there, in upload order. */
  predicate IsReportFor(rows: seq<RawRow>, target: int, table: seq<OutputRow>, idx: seq<nat>) {
    |table| == |idx|
    && (forall k :: 0 <= k < |idx| ==>
          idx[k] < |rows|
          && ParsedDate(rows[idx[k]].deliveryDate) == Some(Day(target))
          && table[k] == OutputRow(OrderCode(rows[idx[k]].phone), FirstName(rows[idx[k]].customerName)))
    && (forall k, l :: 0 <= k < l < |idx| ==> idx[k] < idx[l])
    && (forall i :: 0 <= i < |rows| && ParsedDate(rows[i].deliveryDate) == Some(Day(target)) ==> i in idx)
  }

  lemma TableIsReport(rows: seq<RawRow>, ds: seq<Option<DateValue>>, target: int)
    requires ds == ParsedDates(rows)
    requires forall i :: 0 <= i < |ds| ==> ds[i].Some?
    ensures IsReportFor(rows, target, Select(NormalisedRows(rows, ds), target),
                        MatchingRows(NormalisedRows(rows, ds), target))
  {
    var rs := NormalisedRows(rows, ds);
    SelectIsMaskProjection(rs, target);
    var idx := MatchingRows(rs, target);
    forall i | 0 <= i < |rows| && ParsedDate(rows[i].deliveryDate) == Some(Day(target))
      ensures i in idx
    {
      assert Matches(rs[i], target);
    }
  }

  /** Both tables of a successful run are exact-match reports for their days. */
  lemma RunTables(rows: seq<RawRow>, today: int, oldDaysAgo: nat, latestDaysAgo: nat)
    requires Run(rows, today, oldDaysAgo, latestDaysAgo).Done?
    ensures var o := Run(rows, today, oldDaysAgo, latestDaysAgo);
      (exists idx :: IsReportFor(rows, o.oldDate, o.oldTable, idx))
      && (exists idx :: IsReportFor(rows, o.latestDate, o.latestTable, idx))
  {
    var ds := ParsedDates(rows);
    FirstFailureSpec(ds, 0);
    var o := Run(rows, today, oldDaysAgo, latestDaysAgo);
    TableIsReport(rows, ds, o.oldDate);
    TableIsReport(rows, ds, o.latestDate);
  }

  /** A column of stamps made from a column of parsed values holds each day as often. */
  lemma {:induction false} StampCount(ds: seq<Option<DateValue>>, cells: seq<DateCell>, day: int)
    requires |cells| == |ds|
    requires forall i :: 0 <= i < |ds| ==> ds[i].Some? && cells[i] == Stamp(ds[i].value)
    ensures multiset(cells)[Stamp(Day(day))] == multiset(ds)[Some(Day(day))]
  {
    if ds != [] {
      var n := |ds| - 1;
      StampCount(ds[..n], cells[..n], day);
      assert cells == cells[..n] + [cells[n]];
      assert ds == ds[..n] + [ds[n]];
    }
  }

  lemma CountStamped(rows: seq<RawRow>, ds: seq<Option<DateValue>>, day: int)
    requires |ds| == |rows| && forall i :: 0 <= i < |ds| ==> ds[i].Some?
    ensures multiset(Dates(NormalisedRows(rows, ds)))[Stamp(Day(day))] == multiset(ds)[Some(Day(day))]
  {
    StampCount(ds, Dates(NormalisedRows(rows, ds)), day);
  }

  /** Each table has as many rows as there are uploaded rows whose date key parses to
      its day. */
  lemma RunTableSizes(rows: seq<RawRow>, today: int, oldDaysAgo: nat, latestDaysAgo: nat)
    requires Run(rows, today, oldDaysAgo, latestDaysAgo).Done?
    ensures var o := Run(rows, today, oldDaysAgo, latestDaysAgo);
      |o.oldTable| == multiset(ParsedDates(rows))[Some(Day(o.oldDate))]
      && |o.latestTable| == multiset(ParsedDates(rows))[Some(Day(o.latestDate))]
  {
    var ds := ParsedDates(rows);
    FirstFailureSpec(ds, 0);
    var o := Run(rows, today, oldDaysAgo, latestDaysAgo);
    var rs := NormalisedRows(rows, ds);
    SelectCount(rs, o.oldDate);
    SelectCount(rs, o.latestDate);
    CountStamped(rows, ds, o.oldDate);
    CountStamped(rows, ds, o.latestDate);
  }

  /** Equal offsets give the same day and identical tables. */
  lemma EqualOffsetsSameTables(rows: seq<RawRow>, today: int, daysAgo: nat)
    requires Run(rows, today, daysAgo, daysAgo).Done?
    ensures Run(rows, today, daysAgo, daysAgo).oldDate == Run(rows, today, daysAgo, daysAgo).latestDate
    ensures Run(rows, today, daysAgo, daysAgo).oldTable == Run(rows, today, daysAgo, daysAgo).latestTable
  {
  }

  /** An upload with no rows fails only on an offset, and otherwise gives two empty
      tables. */
  lemma EmptyUpload(today: int, oldDaysAgo: nat, latestDaysAgo: nat)
    ensures var o := Run([], today, oldDaysAgo, latestDaysAgo);
      (o.Done? <==> OffsetsInRange(oldDaysAgo, latestDaysAgo))
      && (o.Done? ==> o == Done(today - oldDaysAgo, [], today - latestDaysAgo, []))
  {
  }

  /** Only the date key of each row matters: changing what follows the tenth character
      of a date text (the time of day) changes nothing in the run. */
  lemma TimeOfDayIrrelevant(rows: seq<RawRow>, rows': seq<RawRow>, today: int, oldDaysAgo: nat, latestDaysAgo: nat)
    requires |rows| == |rows'|
    requires forall i :: 0 <= i < |rows| ==>
      rows'[i].phone == rows[i].phone && rows'[i].customerName == rows[i].customerName
      && DateKey(rows'[i].deliveryDate) == DateKey(rows[i].deliveryDate)
    ensures Run(rows, today, oldDaysAgo, latestDaysAgo) == Run(rows', today, oldDaysAgo, latestDaysAgo)
  {
    var ds := ParsedDates(rows);
    forall i | 0 <= i < |rows|
      ensures ParsedDates(rows')[i] == ds[i]
    {
      assert ParsedDate(rows'[i].deliveryDate) == ParseDeliveryDate(DateKey(rows[i].deliveryDate));
    }
    assert ParsedDates(rows') == ds;
    FirstFailureSpec(ds, 0);
    if FirstFailure(ds, 0).None? {
      assert NormalisedRows(rows, ds) == NormalisedRows(rows', ds);
    }
  }

  // ---------------- Worked examples ----------------

  lemma ExampleName()
    ensures FirstName("Ahmed Ali") == "Ahmed"
  {
    FirstNameCases("Ahmed Ali");
  }

  lemma ExampleDate()
    ensures ParsedDate("2024-05-01 10:00") == Some(Day(Ordinal(2024, 5, 1)))
  {
    assert DateKey("2024-05-01 10:00") == IsoText(2024, 5, 1);
    IsoRoundTrip(2024, 5, 1);
  }

  /** A run over one row whose date parses to a day (not NaT). */
  lemma OneDatedRow(row: RawRow, day: int, today: int, oldDaysAgo: nat, latestDaysAgo: nat)
    requires ParsedDate(row.deliveryDate) == Some(Day(day))
    ensures var o := Run([row], today, oldDaysAgo, latestDaysAgo);
      (o.Done? <==> OffsetsInRange(oldDaysAgo, latestDaysAgo))
      && (o.Done? && o.latestDate == day ==>
            o.latestTable == [OutputRow(OrderCode(row.phone), FirstName(row.customerName))])
      && (o.Done? && o.latestDate != day ==> o.latestTable == [])
  {
    var ds := ParsedDates([row]);
    FirstFailureSpec(ds, 0);
    var rec := NormaliseRow(row, Day(day));
    assert NormalisedRows([row], ds) == [rec];
    if OffsetsInRange(oldDaysAgo, latestDaysAgo) {
      var latestDate := TargetDate(today, latestDaysAgo).value;
      if latestDate == day {
        SelectSingle(rec, latestDate);
      } else {
        SelectNoMatch([rec], latestDate);
      }
    }
  }

  /** A row whose date reads `not-a-date` makes the whole run fail with a date error,
      whatever rows come before it and whatever the offsets. */
  lemma ExampleBadDateFails(today: int, oldDaysAgo: nat, latestDaysAgo: nat, rows: seq<RawRow>)
    ensures var o := Run(rows + [RawRow("201112223334", "Ahmed Ali", "not-a-date")], today, oldDaysAgo, latestDaysAgo);
      o.Failed? && o.error.DateParseError?
  {
    var bad := RawRow("201112223334", "Ahmed Ali", "not-a-date");
    assert "not-a-date" !in NaTStrings;
    assert ParsedDate(bad.deliveryDate).None?;
    RunFailsExactly(rows + [bad], today, oldDaysAgo, latestDaysAgo);
    assert (rows + [bad])[|rows|] == bad;
  }

  /** A row whose date is missing (NaT) does not fail the run and is in neither table. */
  lemma MissingDateSkipped(row: RawRow, today: int, oldDaysAgo: nat, latestDaysAgo: nat)
    requires ParsedDate(row.deliveryDate) == Some(NaT)
    ensures var o := Run([row], today, oldDaysAgo, latestDaysAgo);
      (o.Done? <==> OffsetsInRange(oldDaysAgo, latestDaysAgo))
      && (o.Done? ==> o == Done(today - oldDaysAgo, [], today - latestDaysAgo, []))
  {
    var ds := ParsedDates([row]);
    FirstFailureSpec(ds, 0);
    var rs := NormalisedRows([row], ds);
    assert rs[0].delivery == Stamp(NaT);
    SelectNoMatch(rs, today - oldDaysAgo);
    SelectNoMatch(rs, today - latestDaysAgo);
  }

  /** A blank date cell, read as the text `nan`, is such a missing date. */
  lemma ExampleBlankDateSkipped(today: int, oldDaysAgo: nat, latestDaysAgo: nat)
    ensures var o := Run([RawRow("201112223334", "Ahmed Ali", "nan")], today, oldDaysAgo, latestDaysAgo);
      (o.Done? <==> OffsetsInRange(oldDaysAgo, latestDaysAgo))
      && (o.Done? ==> o == Done(today - oldDaysAgo, [], today - latestDaysAgo, []))
  {
    assert ParsedDate("nan") == Some(NaT);
    MissingDateSkipped(RawRow("201112223334", "Ahmed Ali", "nan"), today, oldDaysAgo, latestDaysAgo);
  }
}
