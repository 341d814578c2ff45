/** The count table: for the Drought and then the Normal rainfall category,
    one row per distinct hour value (ascending), counting the records of
    each demographic group 1..6 with that rainfall and those hours, plus
    the row total; written as comma-separated text under a fixed header. */
module Tabulation {
  import opened Collections
  import opened Text
  import opened Survey

  /** The header line of the table, as five literal pieces. */
  const HEADER: string := "rainfallGroup, " + "hours, " + "total, " + "1, 2, 3, " + "4, 5, 6"

  /** The rainfall categories tabulated, in output order. */
  const TABULATED_RAINFALL: seq<int> := [DROUGHT, NORMAL]

  /** The tabulated demographic groups are 1..GROUPS (all but seniors). */
  const GROUPS: nat := 6

  /** The hours of every record, absent hours as 0, in order. */
  function HoursOf(recs: seq<Annotated>): seq<real>
  {
    seq(|recs|, k requires 0 <= k < |recs| => HoursValue(recs[k].rec))
  }

  /** The hour axis: the distinct hour values of the records, ascending. */
  function HourAxis(recs: seq<Annotated>): (axis: seq<real>)
    ensures StrictlyAscending(axis)
    ensures forall h :: h in axis <==> exists k :: 0 <= k < |recs| && HoursValue(recs[k].rec) == h
  {
    var distinct := Dedup(HoursOf(recs));
    SortDistinct(distinct);
    assert forall k :: 0 <= k < |recs| ==> HoursOf(recs)[k] == HoursValue(recs[k].rec);
    Sort(distinct)
  }

  /** The test of one cell: this rainfall, this group and these hours. */
  function CellTest(rainfall: int, group: int, hours: real): Annotated -> bool
  {
    (x: Annotated) => x.rec.rainfall == rainfall && x.rec.group == group && HoursValue(x.rec) == hours
  }

  /** The number of records falling in one cell. */
  function Count(recs: seq<Annotated>, rainfall: int, group: int, hours: real): nat
  {
    |Filter(CellTest(rainfall, group, hours), recs)|
  }

  function Sum(s: seq<nat>): nat
  {
    if s == [] then 0 else Sum(s[..|s| - 1]) + s[|s| - 1]
  }

  datatype Row = Row(rainfall: int, hours: real, total: nat, counts: seq<nat>)

  /** The counts of groups 1..n in one row. */
  function GroupCounts(recs: seq<Annotated>, rainfall: int, hours: real, n: nat): seq<nat>
  {
    seq(n, g requires 0 <= g < n => Count(recs, rainfall, g + 1, hours))
  }

  function MakeRow(recs: seq<Annotated>, rainfall: int, hours: real): Row
  {
    var counts := GroupCounts(recs, rainfall, hours, GROUPS);
    Row(rainfall, hours, Sum(counts), counts)
  }

  /** One row per axis value, in axis order, for one rainfall category. */
  function RowsFor(recs: seq<Annotated>, rainfall: int, axis: seq<real>): seq<Row>
  {
    seq(|axis|, k requires 0 <= k < |axis| => MakeRow(recs, rainfall, axis[k]))
  }

  /** The blocks of rows of the given rainfall categories, one after the
      other. */
  function Blocks(recs: seq<Annotated>, rainfalls: seq<int>, axis: seq<real>): seq<Row>
  {
    if rainfalls == [] then []
    else Blocks(recs, rainfalls[..|rainfalls| - 1], axis) + RowsFor(recs, rainfalls[|rainfalls| - 1], axis)
  }

  function Table(recs: seq<Annotated>, axis: seq<real>): seq<Row>
  {
    Blocks(recs, TABULATED_RAINFALL, axis)
  }

  /** A number of the hour axis as JavaScript prints it; axis values are
      whole numbers. */
  function NumberText(h: real): string
  {
    IntText(h.Floor)
  }

  /** rainfallGroup, hours, total and the six counts. */
  function RowFields(row: Row): seq<string>
  {
    [IntText(row.rainfall), NumberText(row.hours), NatText(row.total)] +
    seq(|row.counts|, k requires 0 <= k < |row.counts| => NatText(row.counts[k]))
  }

  function RowLine(row: Row): string
  {
    Join(RowFields(row), ',')
  }

  function RowLines(rows: seq<Row>): seq<string>
  {
    seq(|rows|, k requires 0 <= k < |rows| => RowLine(rows[k]))
  }

  /** The header, then each row on a line of its own; no trailing newline. */
  function Render(rows: seq<Row>): string
  {
    Join([HEADER] + RowLines(rows), '\n')
  }

  lemma RowsForAppend(recs: seq<Annotated>, rainfall: int, axis: seq<real>, k: nat)
    requires k < |axis|
    ensures RowsFor(recs, rainfall, axis[..k + 1]) ==
            RowsFor(recs, rainfall, axis[..k]) + [MakeRow(recs, rainfall, axis[k])]
  {
    assert axis[..k + 1][..k] == axis[..k];
  }

  lemma BlocksAppend(recs: seq<Annotated>, rainfalls: seq<int>, axis: seq<real>, p: nat)
    requires p < |rainfalls|
    ensures Blocks(recs, rainfalls[..p + 1], axis) ==
            Blocks(recs, rainfalls[..p], axis) + RowsFor(recs, rainfalls[p], axis)
  {
    assert rainfalls[..p + 1][..p] == rainfalls[..p];
  }

  lemma RenderAppend(rows: seq<Row>, row: Row)
    ensures Render(rows + [row]) == Render(rows) + "\n" + RowLine(row)
  {
    var lines := [HEADER] + RowLines(rows + [row]);
    assert lines[..|lines| - 1] == [HEADER] + RowLines(rows);
  }

  lemma GroupCountsAppend(recs: seq<Annotated>, rainfall: int, hours: real, n: nat)
    ensures GroupCounts(recs, rainfall, hours, n + 1) ==
            GroupCounts(recs, rainfall, hours, n) + [Count(recs, rainfall, n + 1, hours)]
    ensures Sum(GroupCounts(recs, rainfall, hours, n + 1)) ==
            Sum(GroupCounts(recs, rainfall, hours, n)) + Count(recs, rainfall, n + 1, hours)
  {
    var c := GroupCounts(recs, rainfall, hours, n + 1);
    assert c[..n] == GroupCounts(recs, rainfall, hours, n);
  }

  /** One row: the count of each group 1..6 in turn, added up into the
      row total. */
  method TabulateRow(recs: seq<Annotated>, rainfallGroup: int, timeSpent: real) returns (row: Row)
    ensures row == MakeRow(recs, rainfallGroup, timeSpent)
  {
    var entry: seq<nat> := [];
    var total: nat := 0;
    for group := 1 to GROUPS + 1
      invariant entry == GroupCounts(recs, rainfallGroup, timeSpent, group - 1)
      invariant total == Sum(entry)
    {
      var gaValue := |Filter(CellTest(rainfallGroup, group, timeSpent), recs)|;
      GroupCountsAppend(recs, rainfallGroup, timeSpent, group - 1);
      entry := entry + [gaValue];
      total := total + gaValue;
    }
    row := Row(rainfallGroup, timeSpent, total, entry);
  }

  /** The inner `forEach`: one line per axis value for one rainfall
      category, appended to the text written so far. */
  method TabulateBlock(recs: seq<Annotated>, rainfallGroup: int, valueRanges: seq<real>,
                       text0: string, ghost rows0: seq<Row>) returns (text: string)
    requires text0 == Render(rows0)
    ensures text == Render(rows0 + RowsFor(recs, rainfallGroup, valueRanges))
  {
    text := text0;
    ghost var rows := rows0;
    for k := 0 to |valueRanges|
      invariant rows == rows0 + RowsFor(recs, rainfallGroup, valueRanges[..k])
      invariant text == Render(rows)
    {
      var row := TabulateRow(recs, rainfallGroup, valueRanges[k]);
      RenderAppend(rows, row);
      text := text + "\n" + RowLine(row);
      rows := rows + [row];
      RowsForAppend(recs, rainfallGroup, valueRanges, k);
    }
    assert valueRanges[..|valueRanges|] == valueRanges;
  }

  /** The `timeTabularData` closure: the header, then the hour axis, then
      for each tabulated rainfall category one line per axis value. */
  method Tabulate(recs: seq<Annotated>) returns (text: string)
    ensures text == Render(Table(recs, HourAxis(recs)))
  {
    text := HEADER;
    var valueRanges := HourAxis(recs);
    for p := 0 to |TABULATED_RAINFALL|
      invariant text == Render(Blocks(recs, TABULATED_RAINFALL[..p], valueRanges))
    {
      text := TabulateBlock(recs, TABULATED_RAINFALL[p], valueRanges, text,
                            Blocks(recs, TABULATED_RAINFALL[..p], valueRanges));
      BlocksAppend(recs, TABULATED_RAINFALL, valueRanges, p);
    }
    assert TABULATED_RAINFALL[..|TABULATED_RAINFALL|] == TABULATED_RAINFALL;
  }

  lemma TableBlocks(recs: seq<Annotated>, axis: seq<real>)
    ensures Table(recs, axis) == RowsFor(recs, DROUGHT, axis) + RowsFor(recs, NORMAL, axis)
  {
    var rainfalls := TABULATED_RAINFALL;
    assert rainfalls[..1] == [DROUGHT] && [DROUGHT][..0] == [];
    assert Blocks(recs, [DROUGHT], axis) == [] + RowsFor(recs, DROUGHT, axis);
  }

  /** The table has two blocks of one row per axis value: the Drought rows,
      then the Normal rows, each block in axis order. Each row holds the
      count of every group 1..6 for its rainfall category and hours, and
      its total is the sum of those six counts. */
  lemma TableLayout(recs: seq<Annotated>, axis: seq<real>)
    ensures var t := Table(recs, axis);
      |t| == 2 * |axis| &&
      forall k :: 0 <= k < |t| ==>
        t[k].rainfall == (if k < |axis| then DROUGHT else NORMAL) &&
        t[k].hours == axis[if k < |axis| then k else k - |axis|] &&
        |t[k].counts| == GROUPS && t[k].total == Sum(t[k].counts) &&
        forall g :: 0 <= g < GROUPS ==> t[k].counts[g] == Count(recs, t[k].rainfall, g + 1, t[k].hours)
  {
    TableBlocks(recs, axis);
  }

  /** Rows are strictly ordered by rainfall category, then by hours, so no
      (rainfallGroup, hours) pair occurs twice. */
  lemma TableKeysAscending(recs: seq<Annotated>, axis: seq<real>)
    requires StrictlyAscending(axis)
    ensures var t := Table(recs, axis);
      forall i, j :: 0 <= i < j < |t| ==>
        t[i].rainfall < t[j].rainfall || (t[i].rainfall == t[j].rainfall && t[i].hours < t[j].hours)
  {
    TableLayout(recs, axis);
  }

  /** The records of one rainfall category and hour value whose group is
      one of 1..n. */
  function BandTest(rainfall: int, hours: real, n: nat): Annotated -> bool
  {
    (x: Annotated) => x.rec.rainfall == rainfall && 1 <= x.rec.group <= n && HoursValue(x.rec) == hours
  }

  lemma {:induction false} GroupCountsSum(recs: seq<Annotated>, rainfall: int, hours: real, n: nat)
    ensures Sum(GroupCounts(recs, rainfall, hours, n)) == |Filter(BandTest(rainfall, hours, n), recs)|
  {
    if n == 0 {
      FilterKeepsNone(BandTest(rainfall, hours, 0), recs);
    } else {
      var c := GroupCounts(recs, rainfall, hours, n);
      assert c[..n - 1] == GroupCounts(recs, rainfall, hours, n - 1);
      GroupCountsSum(recs, rainfall, hours, n - 1);
      FilterCountSplit(BandTest(rainfall, hours, n - 1), CellTest(rainfall, n, hours),
                       BandTest(rainfall, hours, n), recs);
    }
  }

  /** A row's total is the number of records of its rainfall category and
      hours whose group is one of 1..6. */
  lemma RowTotalCounts(recs: seq<Annotated>, rainfall: int, hours: real)
    ensures MakeRow(recs, rainfall, hours).total == |Filter(BandTest(rainfall, hours, GROUPS), recs)|
  {
    GroupCountsSum(recs, rainfall, hours, GROUPS);
  }

  function GrandTotal(rows: seq<Row>): nat
  {
    if rows == [] then 0 else GrandTotal(rows[..|rows| - 1]) + rows[|rows| - 1].total
  }

  lemma {:induction false} GrandTotalConcat(a: seq<Row>, b: seq<Row>)
    ensures GrandTotal(a + b) == GrandTotal(a) + GrandTotal(b)
  {
    if b == [] {
      assert a + b == a;
    } else {
      assert (a + b)[..|a + b| - 1] == a + b[..|b| - 1];
      GrandTotalConcat(a, b[..|b| - 1]);
    }
  }

  /** The records of the tabulated demographic groups 1..6. */
  function GroupTest(x: Annotated): bool
  {
    1 <= x.rec.group <= GROUPS
  }

  /** The records of one rainfall category whose group is one of 1..6 and
      whose hours are on the axis. */
  function AxisTest(rainfall: int, axis: seq<real>): Annotated -> bool
  {
    (x: Annotated) => x.rec.rainfall == rainfall && GroupTest(x) && HoursValue(x.rec) in axis
  }

  lemma {:induction false} RowsForTotal(recs: seq<Annotated>, rainfall: int, axis: seq<real>)
    requires NoDups(axis)
    ensures GrandTotal(RowsFor(recs, rainfall, axis)) == |Filter(AxisTest(rainfall, axis), recs)|
  {
    if axis == [] {
      FilterKeepsNone(AxisTest(rainfall, axis), recs);
    } else {
      var init := axis[..|axis| - 1];
      var h := axis[|axis| - 1];
      assert axis == init + [h];
      assert NoDups(init);
      assert h !in init;
      var rows := RowsFor(recs, rainfall, axis);
      assert rows[..|rows| - 1] == RowsFor(recs, rainfall, init);
      RowsForTotal(recs, rainfall, init);
      RowTotalCounts(recs, rainfall, h);
      FilterCountSplit(AxisTest(rainfall, init), BandTest(rainfall, h, GROUPS), AxisTest(rainfall, axis), recs);
    }
  }

  /** The records the table can count: Drought or Normal, group 1..6,
      hours on the axis. */
  function TableTest(axis: seq<real>): Annotated -> bool
  {
    (x: Annotated) => DroughtOrNormal(x.rec) && GroupTest(x) && HoursValue(x.rec) in axis
  }

  /** Over an axis without repetitions, the row totals add up to the number
      of records of the two tabulated rainfall categories, groups 1..6,
      whose hours are on the axis: every such record is counted in exactly
      one cell. */
  lemma TableGrandTotal(recs: seq<Annotated>, axis: seq<real>)
    requires NoDups(axis)
    ensures GrandTotal(Table(recs, axis)) == |Filter(TableTest(axis), recs)|
  {
    TableBlocks(recs, axis);
    GrandTotalConcat(RowsFor(recs, DROUGHT, axis), RowsFor(recs, NORMAL, axis));
    RowsForTotal(recs, DROUGHT, axis);
    RowsForTotal(recs, NORMAL, axis);
    FilterCountSplit(AxisTest(DROUGHT, axis), AxisTest(NORMAL, axis), TableTest(axis), recs);
  }

  lemma RowFieldsPlain(row: Row)
    ensures forall k :: 0 <= k < |RowFields(row)| ==> ',' !in RowFields(row)[k] && '\n' !in RowFields(row)[k]
  {
    var fields := RowFields(row);
    forall k | 0 <= k < |fields|
      ensures forall c :: c in fields[k] ==> IsDigit(c) || c == '-'
    {
      if k >= 3 {
        assert fields[k] == NatText(row.counts[k - 3]);
      }
    }
  }

  lemma HeaderIsOneLine()
    ensures '\n' !in HEADER
  {
    assert '\n' !in "rainfallGroup, ";
    assert '\n' !in "hours, ";
    assert '\n' !in "total, ";
    assert '\n' !in "1, 2, 3, ";
    assert '\n' !in "4, 5, 6";
  }

  /** The text reads back line by line: the header, then one line per row,
      and each row line splits at its commas into exactly its fields. */
  lemma RenderReadsBack(rows: seq<Row>)
    ensures Split(Render(rows), '\n') == [HEADER] + RowLines(rows)
    ensures forall k :: 0 <= k < |rows| ==> Split(RowLines(rows)[k], ',') == RowFields(rows[k])
  {
    var lines := [HEADER] + RowLines(rows);
    HeaderIsOneLine();
    forall k | 0 <= k < |rows|
      ensures '\n' !in RowLines(rows)[k] && Split(RowLines(rows)[k], ',') == RowFields(rows[k])
    {
      RowFieldsPlain(rows[k]);
      JoinAvoids(RowFields(rows[k]), ',', '\n');
      SplitJoin(RowFields(rows[k]), ',');
    }
    assert forall k :: 1 <= k < |lines| ==> lines[k] == RowLines(rows)[k - 1];
    SplitJoin(lines, '\n');
  }

  /** Each field of a row line is the decimal text of the row's value. */
  lemma RowFieldsParse(row: Row)
    requires IsWhole(row.hours)
    ensures var f := RowFields(row);
      |f| == 3 + |row.counts| &&
      ParseInt(f[0]) == row.rainfall &&
      ParseInt(f[1]) as real == row.hours &&
      ParseNat(f[2]) == row.total &&
      forall k :: 0 <= k < |row.counts| ==> ParseNat(f[3 + k]) == row.counts[k]
  {
    IntTextRoundTrip(row.rainfall);
    IntTextRoundTrip(row.hours.Floor);
    NatTextRoundTrip(row.total);
    forall k | 0 <= k < |row.counts|
      ensures ParseNat(RowFields(row)[3 + k]) == row.counts[k]
    {
      NatTextRoundTrip(row.counts[k]);
    }
  }
}
