/** `parseData` end to end: the condition filters, household validation,
    flooring of the hours and the count table, in that order. */
module Pipeline {
  import opened Collections
  import opened Text
  import opened Survey
  import opened Households
  import opened Tabulation

  /** `allHHids`: the distinct household ids of the whole, unfiltered
      input, each listed once, in the order in which they first occur. */
  function AllHouseholdIds(data: seq<Record>): (ids: seq<int>)
    ensures NoDups(ids)
    ensures forall id :: id in ids <==> id in HouseholdIds(data)
    ensures forall i, j :: 0 <= i < j < |ids| ==>
              FirstIndex(HouseholdIds(data), ids[i]) < FirstIndex(HouseholdIds(data), ids[j])
  {
    DedupFirstOccurrenceOrder(HouseholdIds(data));
    Dedup(HouseholdIds(data))
  }

  /** The records of the validated households, annotated with `hhsize`. */
  function Validated(data: seq<Record>): seq<Annotated>
  {
    ValidRecords(AllHouseholdIds(data), ConditionFilter(data))
  }

  /** The validated records with their hours rounded down. */
  function Normalized(data: seq<Record>): seq<Annotated>
  {
    FloorHours(Validated(data))
  }

  /** The text `parseData` returns. */
  function Output(data: seq<Record>): string
  {
    var recs := Normalized(data);
    Render(Table(recs, HourAxis(recs)))
  }

  method ParseData(data: seq<Record>) returns (text: string)
    ensures text == Output(data)
  {
    var allHHids := AllHouseholdIds(data);
    var parsedData := ConditionFilter(data);
    var validated := ValidateHouseholds(allHHids, parsedData);
    var floored := FloorHours(validated);
    text := Tabulate(floored);
  }

  /** Every record that comes out of validation is an input record of
      rainfall category Drought or Normal and not a senior's; its household
      balances in every year; its `hhsize` is the number of the household's
      filtered records in its year, so at least 1. */
  lemma ValidatedRecords(data: seq<Record>)
    ensures forall x :: x in Validated(data) ==>
              var hh := OfHousehold(ConditionFilter(data), x.rec.household);
              x.rec in data &&
              InStudy(x.rec) &&
              Balanced(hh) &&
              x.hhsize == |OfYear(hh, x.rec.year)| && x.hhsize >= 1
  {
    var kept := ConditionFilter(data);
    ValidRecordsSound(AllHouseholdIds(data), kept);
    forall x | x in Validated(data)
      ensures x.hhsize >= 1
    {
      var hh := OfHousehold(kept, x.rec.household);
      assert x.rec in hh;
      assert x.rec in OfYear(hh, x.rec.year);
    }
  }

  /** A household whose filtered records balance in every year keeps all of
      them, in input order and each annotated with its `hhsize`; a
      household with one failing year keeps none, in any year. */
  lemma HouseholdKeptIffBalanced(data: seq<Record>, id: int)
    ensures var hh := OfHousehold(ConditionFilter(data), id);
            AnnotatedOf(Validated(data), id) == if Balanced(hh) then Annotate(hh) else []
  {
    var ids := AllHouseholdIds(data);
    var kept := ConditionFilter(data);
    HouseholdAllOrNothing(ids, kept, id);
    if id !in ids {
      forall r | r in kept
        ensures !InHousehold(id)(r)
      {
        var k :| 0 <= k < |data| && data[k] == r;
        assert HouseholdIds(data)[k] == r.household;
      }
      FilterKeepsNone(InHousehold(id), kept);
      assert Annotate([]) == [];
    }
  }

  /** The validated records are grouped by household, the households in the
      order in which their ids first occur in the unfiltered input. */
  lemma ValidatedInFirstOccurrenceOrder(data: seq<Record>)
    ensures var out := Validated(data);
      forall i, j :: 0 <= i <= j < |out| ==>
        out[i].rec.household in HouseholdIds(data) && out[j].rec.household in HouseholdIds(data) &&
        FirstIndex(HouseholdIds(data), out[i].rec.household) <= FirstIndex(HouseholdIds(data), out[j].rec.household)
  {
    var ids := AllHouseholdIds(data);
    var out := Validated(data);
    var hs := HouseholdsOf(out);
    GroupedByHousehold(ids, ConditionFilter(data));
    forall i, j | 0 <= i <= j < |out|
      ensures out[i].rec.household in HouseholdIds(data) && out[j].rec.household in HouseholdIds(data) &&
              FirstIndex(HouseholdIds(data), out[i].rec.household) <= FirstIndex(HouseholdIds(data), out[j].rec.household)
    {
      assert hs[i] == out[i].rec.household && hs[j] == out[j].rec.household;
      var p := FirstIndex(ids, hs[i]);
      var q := FirstIndex(ids, hs[j]);
      assert p <= q;
      if p < q {
        assert ids[p] == hs[i] && ids[q] == hs[j];
      }
    }
  }

  /** The hour axis of the output is strictly ascending and consists of
      exactly the floored hours of the validated records, all whole. */
  lemma OutputAxis(data: seq<Record>)
    ensures var axis := HourAxis(Normalized(data));
      StrictlyAscending(axis) &&
      (forall h :: h in axis ==> IsWhole(h)) &&
      forall h :: h in axis <==>
        exists k :: 0 <= k < |Validated(data)| && h == FloorValue(Validated(data)[k].rec.hours) as real
  {
    var v := Validated(data);
    var n := Normalized(data);
    assert forall k :: 0 <= k < |n| ==> HoursValue(n[k].rec) == FloorValue(v[k].rec.hours) as real;
  }

  /** Validated rows are of the tabulated rainfall categories. */
  lemma ValidatedTabulated(data: seq<Record>)
    ensures forall x :: x in Validated(data) ==> DroughtOrNormal(x.rec)
  {
    ValidRecordsSound(AllHouseholdIds(data), ConditionFilter(data));
  }

  /** On the floored rows, the table's own test reduces to the group test. */
  lemma NormalizedTableTest(data: seq<Record>)
    ensures var recs := Normalized(data);
      forall x :: x in recs ==> TableTest(HourAxis(recs))(x) == GroupTest(x)
  {
    var v := Validated(data);
    var recs := Normalized(data);
    ValidatedTabulated(data);
    forall x | x in recs
      ensures TableTest(HourAxis(recs))(x) == GroupTest(x)
    {
      var k :| 0 <= k < |recs| && recs[k] == x;
      assert v[k] in v;
      assert x.rec.rainfall == v[k].rec.rainfall;
    }
  }

  /** Every validated record of groups 1..6 is counted in exactly one cell:
      the row totals add up to the number of such records. */
  lemma OutputGrandTotal(data: seq<Record>)
    ensures var recs := Normalized(data);
      GrandTotal(Table(recs, HourAxis(recs))) == |Filter(GroupTest, Validated(data))|
  {
    var v := Validated(data);
    var recs := Normalized(data);
    var axis := HourAxis(recs);
    TableGrandTotal(recs, axis);
    NormalizedTableTest(data);
    FilterCongruent(TableTest(axis), GroupTest, recs);
    assert forall k :: 0 <= k < |recs| ==> recs[k].rec.group == v[k].rec.group;
    FilterCountPointwise(GroupTest, GroupTest, recs, v);
  }

  /** The output reads back as the header line followed by one line per
      table row (two per axis value), each splitting at its commas into the
      row's fields; every hour value is whole, so each field is the exact
      decimal text of its number. */
  lemma OutputReadsBack(data: seq<Record>)
    ensures var recs := Normalized(data);
      var t := Table(recs, HourAxis(recs));
      Split(Output(data), '\n') == [HEADER] + RowLines(t) &&
      |Split(Output(data), '\n')| == 1 + 2 * |HourAxis(recs)| &&
      forall k :: 0 <= k < |t| ==>
        IsWhole(t[k].hours) && Split(RowLines(t)[k], ',') == RowFields(t[k])
  {
    var recs := Normalized(data);
    var axis := HourAxis(recs);
    var t := Table(recs, axis);
    RenderReadsBack(t);
    TableLayout(recs, axis);
    OutputAxis(data);
    forall k | 0 <= k < |t|
      ensures IsWhole(t[k].hours)
    {
      assert t[k].hours in axis;
    }
  }
}
