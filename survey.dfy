/** The survey records `parseData` works on, the two condition filters that
    open it and the flooring of the hours that follows validation. */
module Survey {
  import opened Collections

  datatype Option<T> = None | Some(value: T)

  /** Rainfall category codes: only Drought and Normal are tabulated. */
  const DROUGHT: int := 1
  const NORMAL: int := 3

  /** The demographic group code of seniors, who are always left out. */
  const SENIOR: int := 7

  /** One individual's row for one household in one year: household id,
      year, demographic group code, rainfall category code, the hours this
      individual fetched water (absent for `null`) and the hours reported
      for the whole household that year. */
  datatype Record = Record(
    household: int,
    year: int,
    group: int,
    rainfall: int,
    hours: Option<real>,
    householdHours: real)

  /** A record of a validated household together with `hhsize`, the number
      of that household's records for the same year. */
  datatype Annotated = Annotated(rec: Record, hhsize: nat)

  /** The individual hours, with an absent value read as 0. */
  function HoursValue(r: Record): real
  {
    match r.hours
    case None => 0.0
    case Some(h) => h
  }

  predicate DroughtOrNormal(r: Record)
  {
    r.rainfall == DROUGHT || r.rainfall == NORMAL
  }

  predicate NotSenior(r: Record)
  {
    r.group != SENIOR
  }

  /** A record the study uses: Drought or Normal rainfall, not a senior. */
  predicate InStudy(r: Record)
  {
    DroughtOrNormal(r) && NotSenior(r)
  }

  /** The records of the two rainfall conditions of interest, without
      seniors: the two `filter` passes keep exactly what one pass with both
      tests keeps, every copy of a kept record and in input order. */
  function ConditionFilter(data: seq<Record>): (kept: seq<Record>)
    ensures kept == Filter(InStudy, data)
    ensures |kept| <= |data|
    ensures forall r :: r in kept <==> r in data && InStudy(r)
    ensures forall r :: multiset(kept)[r] == if InStudy(r) then multiset(data)[r] else 0
    ensures forall i :: 0 <= i <= |data| ==> Filter(InStudy, data[..i]) <= kept
  {
    FilterTwice(DroughtOrNormal, NotSenior, InStudy, data);
    FilterCounts(InStudy, data);
    assert forall i :: 0 <= i <= |data| ==> Filter(InStudy, data[..i]) <= Filter(InStudy, data) by {
      forall i | 0 <= i <= |data| {
        FilterPrefix(InStudy, data, i);
      }
    }
    Filter(NotSenior, Filter(DroughtOrNormal, data))
  }

  predicate IsWhole(x: real)
  {
    x.Floor as real == x
  }

  /** `Math.floor` of the individual hours; `Math.floor(null)` is 0. */
  function FloorValue(h: Option<real>): int
  {
    match h
    case None => 0
    case Some(x) => x.Floor
  }

  /** Every record with its individual hours rounded down to a whole
      number; nothing else about a record changes. */
  function FloorHours(recs: seq<Annotated>): (r: seq<Annotated>)
    ensures |r| == |recs|
    ensures forall k :: 0 <= k < |r| ==>
              r[k].hhsize == recs[k].hhsize &&
              r[k].rec.(hours := recs[k].rec.hours) == recs[k].rec &&
              r[k].rec.hours.Some? &&
              IsWhole(r[k].rec.hours.value) &&
              r[k].rec.hours.value <= HoursValue(recs[k].rec) < r[k].rec.hours.value + 1.0
  {
    seq(|recs|, k requires 0 <= k < |recs| =>
      recs[k].(rec := recs[k].rec.(hours := Some(FloorValue(recs[k].rec.hours) as real))))
  }
}
