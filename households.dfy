/** Household validation: a household is kept only when, for every year it
    has records for, its members' individual hours add up exactly to the
    household hours reported on its first record of that year. A kept
    household contributes all of its (condition-filtered) records, each
    annotated with the number of the household's records in that year. */
module Households {
  import opened Collections
  import opened Survey

  /** The household id of every record, in input order. */
  function HouseholdIds(data: seq<Record>): seq<int>
  {
    seq(|data|, k requires 0 <= k < |data| => data[k].household)
  }

  function InHousehold(id: int): Record -> bool
  {
    (r: Record) => r.household == id
  }

  function OfHousehold(recs: seq<Record>, id: int): seq<Record>
  {
    Filter(InHousehold(id), recs)
  }

  function InYear(year: int): Record -> bool
  {
    (r: Record) => r.year == year
  }

  function OfYear(recs: seq<Record>, year: int): seq<Record>
  {
    Filter(InYear(year), recs)
  }

  /** The year of every record, in order. */
  function YearsOf(recs: seq<Record>): seq<int>
  {
    seq(|recs|, k requires 0 <= k < |recs| => recs[k].year)
  }

  /** The individual hours added from left to right, absent hours as 0. */
  function HoursSum(recs: seq<Record>): real
  {
    if recs == [] then 0.0
    else HoursSum(recs[..|recs| - 1]) + HoursValue(recs[|recs| - 1])
  }

  /** In `year` the household's individual hours add up exactly to the
      household hours of its first record for that year. */
  predicate YearBalanced(hh: seq<Record>, year: int)
  {
    var g := OfYear(hh, year);
    g != [] ==> HoursSum(g) == g[0].householdHours
  }

  /** Every year the household has records for balances. */
  predicate Balanced(hh: seq<Record>)
  {
    forall k :: 0 <= k < |hh| ==> YearBalanced(hh, hh[k].year)
  }

  /** The household's records, each with the number of its records in the
      same year as `hhsize`. */
  function Annotate(hh: seq<Record>): seq<Annotated>
  {
    seq(|hh|, k requires 0 <= k < |hh| => Annotated(hh[k], |OfYear(hh, hh[k].year)|))
  }

  /** What household `id` contributes: all its records, annotated, when it
      balances; nothing when it does not. */
  function HouseholdBlock(kept: seq<Record>, id: int): seq<Annotated>
  {
    var hh := OfHousehold(kept, id);
    if Balanced(hh) then Annotate(hh) else []
  }

  /** The validated records: the contributions of the households of `ids`,
      one after the other in the order of `ids`. */
  function ValidRecords(ids: seq<int>, kept: seq<Record>): seq<Annotated>
  {
    if ids == [] then []
    else ValidRecords(ids[..|ids| - 1], kept) + HouseholdBlock(kept, ids[|ids| - 1])
  }

  lemma YearPresent(hh: seq<Record>, year: int)
    requires year in YearsOf(hh)
    ensures OfYear(hh, year) != []
  {
    var k :| 0 <= k < |hh| && YearsOf(hh)[k] == year;
    assert hh[k] in OfYear(hh, year);
  }

  /** Checking each distinct year once is checking every record's year. */
  lemma BalancedByDistinctYears(hh: seq<Record>, years: seq<int>)
    requires forall y :: y in years <==> y in YearsOf(hh)
    ensures Balanced(hh) <==> forall j :: 0 <= j < |years| ==> YearBalanced(hh, years[j])
  {
    var perYear := forall j :: 0 <= j < |years| ==> YearBalanced(hh, years[j]);
    if Balanced(hh) {
      forall j | 0 <= j < |years|
        ensures YearBalanced(hh, years[j])
      {
        assert years[j] in YearsOf(hh);
        var k :| 0 <= k < |hh| && YearsOf(hh)[k] == years[j];
        assert YearBalanced(hh, hh[k].year);
      }
      assert perYear;
    } else {
      var k :| 0 <= k < |hh| && !YearBalanced(hh, hh[k].year);
      assert YearsOf(hh)[k] in years;
      var j :| 0 <= j < |years| && years[j] == hh[k].year;
      assert !perYear;
    }
  }

  /** The `forEach` over a household's distinct years: the flag is cleared
      as soon as one year's individual hours miss the household hours. */
  method CheckYears(hhData: seq<Record>) returns (isValidHH: bool)
    ensures isValidHH == Balanced(hhData)
  {
    isValidHH := true;
    var years := Dedup(YearsOf(hhData));
    for j := 0 to |years|
      invariant isValidHH <==> forall k :: 0 <= k < j ==> YearBalanced(hhData, years[k])
    {
      var year := years[j];
      var yearData := OfYear(hhData, year);
      YearPresent(hhData, year);
      var hhSum := HoursSum(yearData);
      if hhSum != yearData[0].householdHours {
        isValidHH := false;
      }
    }
    BalancedByDistinctYears(hhData, years);
  }

  /** The `reduce` over household ids: each household that balances in
      every year appends all its records, annotated with `hhsize`. */
  method ValidateHouseholds(ids: seq<int>, kept: seq<Record>) returns (acc: seq<Annotated>)
    ensures acc == ValidRecords(ids, kept)
  {
    acc := [];
    for i := 0 to |ids|
      invariant acc == ValidRecords(ids[..i], kept)
    {
      var hhData := OfHousehold(kept, ids[i]);
      var isValidHH := CheckYears(hhData);
      if isValidHH {
        acc := acc + Annotate(hhData);
      }
      assert ids[..i + 1][..i] == ids[..i];
    }
    assert ids[..|ids|] == ids;
  }

  function AnnotatedIn(id: int): Annotated -> bool
  {
    (x: Annotated) => x.rec.household == id
  }

  /** The records of household `id` among the annotated ones. */
  function AnnotatedOf(recs: seq<Annotated>, id: int): seq<Annotated>
  {
    Filter(AnnotatedIn(id), recs)
  }

  lemma BlockSound(kept: seq<Record>, id: int)
    ensures forall x :: x in HouseholdBlock(kept, id) ==>
              x.rec in kept && x.rec.household == id &&
              Balanced(OfHousehold(kept, id)) &&
              x.hhsize == |OfYear(OfHousehold(kept, id), x.rec.year)|
  {
    var hh := OfHousehold(kept, id);
    if Balanced(hh) {
      var block := Annotate(hh);
      forall x | x in block
        ensures x.rec in hh && x.hhsize == |OfYear(hh, x.rec.year)|
      {
        var k :| 0 <= k < |block| && block[k] == x;
        assert x.rec == hh[k];
      }
    }
  }

  /** Every validated record is a condition-filtered record of a household
      from `ids` that balances in every year, and its `hhsize` is the
      number of that household's filtered records in its year. */
  lemma {:induction false} ValidRecordsSound(ids: seq<int>, kept: seq<Record>)
    ensures forall x :: x in ValidRecords(ids, kept) ==>
              x.rec in kept && x.rec.household in ids &&
              Balanced(OfHousehold(kept, x.rec.household)) &&
              x.hhsize == |OfYear(OfHousehold(kept, x.rec.household), x.rec.year)|
  {
    if ids != [] {
      var init := ids[..|ids| - 1];
      var last := ids[|ids| - 1];
      assert ids == init + [last];
      ValidRecordsSound(init, kept);
      BlockSound(kept, last);
    }
  }

  /** All or nothing: among the validated records, household `id` has
      exactly its whole annotated contribution when it balances in every
      year, and no record at all when some year fails or `id` is not
      listed. */
  lemma {:induction false} HouseholdAllOrNothing(ids: seq<int>, kept: seq<Record>, id: int)
    requires NoDups(ids)
    ensures AnnotatedOf(ValidRecords(ids, kept), id) == if id in ids then HouseholdBlock(kept, id) else []
  {
    if ids != [] {
      var init := ids[..|ids| - 1];
      var last := ids[|ids| - 1];
      assert ids == init + [last];
      assert NoDups(init);
      HouseholdAllOrNothing(init, kept, id);
      FilterConcat(AnnotatedIn(id), ValidRecords(init, kept), HouseholdBlock(kept, last));
      BlockSound(kept, last);
      if id == last {
        FilterKeepsAll(AnnotatedIn(id), HouseholdBlock(kept, last));
      } else {
        FilterKeepsNone(AnnotatedIn(id), HouseholdBlock(kept, last));
      }
    }
  }

  /** The household id of every annotated record, in order. */
  function HouseholdsOf(recs: seq<Annotated>): seq<int>
  {
    seq(|recs|, k requires 0 <= k < |recs| => recs[k].rec.household)
  }

  /** Every id of `hs` is listed in `ids`, and the ids of `hs` never go
      back to a household listed earlier in `ids`. */
  predicate InIdOrder(ids: seq<int>, hs: seq<int>)
  {
    forall i, j :: 0 <= i <= j < |hs| ==>
      hs[i] in ids && hs[j] in ids && FirstIndex(ids, hs[i]) <= FirstIndex(ids, hs[j])
  }

  /** Appending records of the last listed household keeps the order. */
  lemma InIdOrderExtend(ids: seq<int>, hs: seq<int>, m: nat)
    requires NoDups(ids) && ids != [] && m <= |hs|
    requires InIdOrder(ids[..|ids| - 1], hs[..m])
    requires forall k :: m <= k < |hs| ==> hs[k] == ids[|ids| - 1]
    ensures InIdOrder(ids, hs)
  {
    var n := |ids|;
    var init := ids[..n - 1];
    assert ids == init + [ids[n - 1]];
    FirstIndexUnique(ids, ids[n - 1], n - 1);
    forall i, j | 0 <= i <= j < |hs|
      ensures hs[i] in ids && hs[j] in ids && FirstIndex(ids, hs[i]) <= FirstIndex(ids, hs[j])
    {
      if j < m {
        assert hs[..m][i] == hs[i] && hs[..m][j] == hs[j];
        FirstIndexInPrefix(ids, n - 1, hs[i]);
        FirstIndexInPrefix(ids, n - 1, hs[j]);
      } else if i < m {
        assert hs[..m][i] == hs[i];
      }
    }
  }

  /** The validated records come grouped by household, the households in
      the order of `ids`. */
  lemma {:induction false} GroupedByHousehold(ids: seq<int>, kept: seq<Record>)
    requires NoDups(ids)
    ensures InIdOrder(ids, HouseholdsOf(ValidRecords(ids, kept)))
  {
    if ids != [] {
      var n := |ids|;
      var init := ids[..n - 1];
      var last := ids[n - 1];
      var prev := ValidRecords(init, kept);
      var block := HouseholdBlock(kept, last);
      var hs := HouseholdsOf(prev + block);
      assert NoDups(init);
      GroupedByHousehold(init, kept);
      BlockSound(kept, last);
      assert hs[..|prev|] == HouseholdsOf(prev);
      forall k | |prev| <= k < |hs|
        ensures hs[k] == last
      {
        assert (prev + block)[k] == block[k - |prev|];
        assert block[k - |prev|] in block;
      }
      InIdOrderExtend(ids, hs, |prev|);
    }
  }
}
