/**
 * The inflation-target regime in force at an instant (`getInflationTargetData`):
 * five regimes separated by four effective dates, each boundary belonging to the
 * regime that starts on it.
 */
module Regime {
  import opened Calendar

  datatype Mandate = Single | Dual

  /** The `mandateType` object of a record. */
  datatype Target = Target(range: string, lower: real, upper: real, midpoint: real, mandate: Mandate)

  /** The four effective dates, in ascending order. */
  function BoundaryDate(i: nat): (d: Date)
    requires i < 4
    ensures ValidDate(d)
  {
    if i == 0 then Date(1996, 12, 10)
    else if i == 1 then Date(2002, 9, 17)
    else if i == 2 then Date(2018, 3, 26)
    else Date(2023, 12, 20)
  }

  /** `new Date("YYYY-MM-DD")` of boundary `i`, in milliseconds since 1970-01-01T00:00:00Z. */
  function Boundary(i: nat): int
    requires i < 4
  {
    if i == 0 then 850176000000
    else if i == 1 then 1032220800000
    else if i == 2 then 1522022400000
    else 1703030400000
  }

  /** Each boundary is UTC midnight of its effective date. */
  lemma BoundaryIsMidnight(i: nat)
    requires i < 4
    ensures Boundary(i) == Midnight(BoundaryDate(i))
  {
    var d := BoundaryDate(i);
    if i == 0 {
      assert DayNumber(d) == 9840;
    } else if i == 1 {
      assert DayNumber(d) == 11947;
    } else if i == 2 {
      assert DayNumber(d) == 17616;
    } else {
      assert DayNumber(d) == 19711;
    }
  }

  /** Regime `i` of the table, oldest first. */
  function Era(i: nat): Target
    requires i < 5
  {
    if i == 0 then Target("0-2%", 0.0, 2.0, 1.0, Single)
    else if i == 1 then Target("0-3%", 0.0, 3.0, 1.5, Single)
    else if i == 2 then Target("1-3%", 1.0, 3.0, 2.0, Single)
    else if i == 3 then Target("1-3%", 1.0, 3.0, 2.0, Dual)
    else Target("1-3%", 1.0, 3.0, 2.0, Single)
  }

  /** Whether instant `t` lies in the half-open span `[Boundary(i - 1), Boundary(i))` of regime `i`. */
  predicate InEra(i: nat, t: int)
    requires i < 5
  {
    (i == 0 || Boundary(i - 1) <= t) && (i == 4 || t < Boundary(i))
  }

  /** `getInflationTargetData(date)`, on the instant `date` holds. */
  function InflationTarget(t: int): (r: Target)
    ensures r.lower < r.upper && r.midpoint == (r.lower + r.upper) / 2.0
  {
    if t < Boundary(0) then Target("0-2%", 0.0, 2.0, 1.0, Single)
    else if t < Boundary(1) then Target("0-3%", 0.0, 3.0, 1.5, Single)
    else if t < Boundary(2) then Target("1-3%", 1.0, 3.0, 2.0, Single)
    else if t < Boundary(3) then Target("1-3%", 1.0, 3.0, 2.0, Dual)
    else Target("1-3%", 1.0, 3.0, 2.0, Single)
  }

  /** The effective dates and their instants ascend, so the five spans do not overlap. */
  lemma BoundariesAscend(i: nat, j: nat)
    requires i < j < 4
    ensures Before(BoundaryDate(i), BoundaryDate(j)) && Boundary(i) < Boundary(j)
  {
  }

  /** Every instant lies in exactly one span, and the lookup returns that span's regime. */
  lemma ExactlyOneEra(t: int)
    ensures exists i :: 0 <= i < 5 && InEra(i, t) && InflationTarget(t) == Era(i)
    ensures forall i, j :: 0 <= i < 5 && 0 <= j < 5 && InEra(i, t) && InEra(j, t) ==> i == j
  {
    SomeEra(t);
    forall i, j | 0 <= i < 5 && 0 <= j < 5 && InEra(i, t) && InEra(j, t)
      ensures i == j
    {
      OneEra(t, i, j);
    }
  }

  lemma SomeEra(t: int)
    ensures exists i :: 0 <= i < 5 && InEra(i, t) && InflationTarget(t) == Era(i)
  {
    if t < Boundary(0) {
      assert InEra(0, t);
    } else if t < Boundary(1) {
      assert InEra(1, t);
    } else if t < Boundary(2) {
      assert InEra(2, t);
    } else if t < Boundary(3) {
      assert InEra(3, t);
    } else {
      assert InEra(4, t);
    }
  }

  lemma OneEra(t: int, i: nat, j: nat)
    requires i < 5 && j < 5 && InEra(i, t) && InEra(j, t)
    ensures i == j
  {
    if i < j {
      ErasDisjoint(t, i, j);
    } else if j < i {
      ErasDisjoint(t, j, i);
    }
  }

  /** An earlier span ends no later than a later one starts. */
  lemma ErasDisjoint(t: int, i: nat, j: nat)
    requires i < j < 5
    ensures !(InEra(i, t) && InEra(j, t))
  {
  }

  /** A boundary instant gets the regime that starts there; the millisecond before gets the previous one. */
  lemma BoundaryStartsNextEra(i: nat)
    requires i < 4
    ensures InflationTarget(Boundary(i)) == Era(i + 1)
    ensures InflationTarget(Boundary(i) - 1) == Era(i)
  {
  }

  /** The first boundary: 1996-12-10 already has the 0-3% target. */
  lemma FirstBoundaryIsLaterRegime()
    ensures InflationTarget(Midnight(Date(1996, 12, 10))).range == "0-3%"
    ensures InflationTarget(Midnight(Date(1996, 12, 10)) - 1).range == "0-2%"
  {
    BoundaryStartsNextEra(0);
    BoundaryIsMidnight(0);
  }

  /** For a date's midnight, the regime is decided by comparing calendar dates with the boundaries. */
  lemma MidnightBeforeBoundary(d: Date, i: nat)
    requires ValidDate(d) && i < 4
    ensures Midnight(d) < Boundary(i) <==> Before(d, BoundaryDate(i))
  {
    BoundaryIsMidnight(i);
    BeforeIffDayNumber(d, BoundaryDate(i));
    MidnightOnDate(d);
    InstantBeforeMidnight(Midnight(d), BoundaryDate(i));
  }

  /** The regime only moves forward in time: the span index never decreases. */
  lemma EraMonotone(s: int, t: int, i: nat, j: nat)
    requires s <= t && i < 5 && j < 5 && InEra(i, s) && InEra(j, t)
    ensures i <= j
  {
  }
}
