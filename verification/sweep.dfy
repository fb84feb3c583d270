/** Sweep lattices: how many points an axis has and where they lie. */
module SweepLattice {
  import opened Domain

  /** Sixteen units in the last place of a double, relative to the largest magnitude involved. */
  const EPSILON := 1.0 / 4_503_599_627_370_496.0
  const TOLERANCE_MULTIPLIER := 16.0

  function Max(a: real, b: real): real {
    if a < b then b else a
  }

  function Tolerance(start: real, end: real, step: real): (t: real)
    ensures t > 0.0
  {
    TOLERANCE_MULTIPLIER * EPSILON * Max(Max(Abs(start), Abs(end)), Max(Abs(step), 1.0))
  }

  /** The lattice value before it is snapped to the end. */
  function Raw(start: real, step: real, index: int): real {
    start + index as real * step
  }

  /** The analyzer's point count: the last index is the floor of the quotient, or the next one
      when only the next one is within tolerance of the end. */
  function AxisPointCount(start: real, end: real, step: real): Option<nat>
    requires step > 0.0
  {
    var quotient := (end - start) / step;
    if quotient > MAXIMUM_POINTS as real then None
    else
      var floor := quotient.Floor;
      var tolerance := Tolerance(start, end, step);
      var last :=
        if Abs(Raw(start, step, floor) - end) > tolerance && Raw(start, step, floor + 1) <= end + tolerance
        then floor + 1 else floor;
      if last + 1 < 1 || last + 1 > MAXIMUM_POINTS then None else Some(last + 1)
  }

  datatype SweepPlan = SweepPlan(pointCount: nat, start: real, end: real, step: real, tolerance: real)

  /** The runtime plans the sweep again, from the bounds alone. */
  function PlanSweep(start: real, end: real, step: real): (plan: Option<SweepPlan>)
    ensures plan.Some? ==> 1 <= plan.value.pointCount <= MAXIMUM_POINTS
    ensures plan.Some? ==> plan.value.start == start && plan.value.end == end && plan.value.step == step
  {
    if step <= 0.0 || end < start then None
    else
      var tolerance := Tolerance(start, end, step);
      var quotient := (end - start) / step;
      if quotient > MAXIMUM_POINTS as real then None
      else
        var floor := quotient.Floor;
        var misses := Abs(Raw(start, step, floor) - end) > tolerance;
        var count := if misses && Raw(start, step, floor + 1) <= end + tolerance then floor + 2 else floor + 1;
        if count < 1 || count > MAXIMUM_POINTS then None
        else Some(SweepPlan(count, start, end, step, tolerance))
  }

  function ValueAt(plan: SweepPlan, index: nat): real {
    var candidate := Raw(plan.start, plan.step, index);
    if Abs(candidate - plan.end) <= plan.tolerance then plan.end else candidate
  }

  /** A plan that PlanSweep produced. */
  predicate Planned(plan: SweepPlan) {
    PlanSweep(plan.start, plan.end, plan.step) == Some(plan)
  }

  lemma RawOrder(start: real, step: real, i: int, j: int)
    requires step > 0.0 && i <= j
    ensures Raw(start, step, j) - Raw(start, step, i) == (j - i) as real * step
    ensures Raw(start, step, i) <= Raw(start, step, j)
    ensures i < j ==> Raw(start, step, j) - Raw(start, step, i) >= step
  {
    var d := (j - i) as real;
    assert j as real == i as real + d;
    assert j as real * step == i as real * step + d * step;
    if i < j {
      assert d >= 1.0;
      assert d * step >= 1.0 * step;
    }
  }

  lemma Scales(a: real, b: real, step: real)
    requires step > 0.0
    ensures a <= b ==> a * step <= b * step
    ensures a < b ==> a * step < b * step
  {
    assert b * step - a * step == (b - a) * step;
  }

  /** The floor is the last lattice index not beyond the end. */
  lemma FloorBrackets(start: real, end: real, step: real)
    requires step > 0.0
    ensures var f := ((end - start) / step).Floor;
      Raw(start, step, f) <= end < Raw(start, step, f + 1)
  {
    var q := (end - start) / step;
    var f := q.Floor;
    assert q * step == end - start;
    Scales(f as real, q, step);
    Scales(q, (f + 1) as real, step);
    assert Raw(start, step, f) <= end;
    assert q < (f + 1) as real;
    assert end - start < (f + 1) as real * step;
    assert end < Raw(start, step, f + 1);
  }

  /** The analyzer and the runtime count the same points, between 1 and the limit. */
  lemma CountsAgree(start: real, end: real, step: real)
    requires step > 0.0 && start <= end
    ensures AxisPointCount(start, end, step).Some? <==> PlanSweep(start, end, step).Some?
    ensures AxisPointCount(start, end, step).Some? ==>
      && AxisPointCount(start, end, step).value == PlanSweep(start, end, step).value.pointCount
      && 1 <= AxisPointCount(start, end, step).value <= MAXIMUM_POINTS
  {
  }

  /** Where the last index lies: at most one step short of the end, and beyond the end only by
      the tolerance, when the lattice misses the end below it. */
  lemma LastIndex(plan: SweepPlan)
    requires Planned(plan)
    ensures plan.step > 0.0 && plan.start <= plan.end && plan.tolerance > 0.0 && plan.pointCount >= 1
    ensures var last := plan.pointCount - 1;
      var raw := Raw(plan.start, plan.step, last);
      && plan.end < Raw(plan.start, plan.step, last + 1)
      && (raw <= plan.end
          || (&& raw <= plan.end + plan.tolerance
              && plan.end - Raw(plan.start, plan.step, last - 1) > plan.tolerance
              && Raw(plan.start, plan.step, last - 1) <= plan.end))
      && (raw < plan.end - plan.tolerance ==> Raw(plan.start, plan.step, last + 1) > plan.end + plan.tolerance)
  {
    FloorBrackets(plan.start, plan.end, plan.step);
    var f := ((plan.end - plan.start) / plan.step).Floor;
    RawOrder(plan.start, plan.step, f + 1, f + 2);
  }

  /** Indexes before the last lie at or below the end. */
  lemma BelowEnd(plan: SweepPlan, i: nat)
    requires Planned(plan) && i + 1 < plan.pointCount
    ensures plan.start <= Raw(plan.start, plan.step, i) <= plan.end
  {
    LastIndex(plan);
    RawOrder(plan.start, plan.step, 0, i);
    RawOrder(plan.start, plan.step, i, plan.pointCount - 2);
    RawOrder(plan.start, plan.step, plan.pointCount - 2, plan.pointCount - 1);
  }

  /** Every point lies in [start, end]. */
  lemma ValuesInRange(plan: SweepPlan, i: nat)
    requires Planned(plan) && i < plan.pointCount
    ensures plan.start <= ValueAt(plan, i) <= plan.end
  {
    LastIndex(plan);
    RawOrder(plan.start, plan.step, 0, i);
    if i + 1 < plan.pointCount { BelowEnd(plan, i); }
  }

  /** Points never decrease. */
  lemma ValuesMonotone(plan: SweepPlan, i: nat, j: nat)
    requires Planned(plan) && i <= j < plan.pointCount
    ensures ValueAt(plan, i) <= ValueAt(plan, j)
  {
    ValuesInRange(plan, i);
    ValuesInRange(plan, j);
    RawOrder(plan.start, plan.step, i, j);
    LastIndex(plan);
    if i < j { BelowEnd(plan, i); }
  }

  predicate StrictlyIncreasing(plan: SweepPlan) {
    forall i, j :: 0 <= i < j < plan.pointCount ==> ValueAt(plan, i) < ValueAt(plan, j)
  }

  /** Points strictly increase exactly when the point before the last is not snapped to the end. */
  lemma StrictnessExact(plan: SweepPlan)
    requires Planned(plan)
    ensures StrictlyIncreasing(plan) <==>
      (plan.pointCount >= 2 ==> plan.end - Raw(plan.start, plan.step, plan.pointCount - 2) > plan.tolerance)
  {
    LastIndex(plan);
    var n := plan.pointCount;
    if n >= 2 {
      BelowEnd(plan, n - 2);
      ValuesInRange(plan, n - 1);
      if plan.end - Raw(plan.start, plan.step, n - 2) > plan.tolerance {
        forall i, j | 0 <= i < j < n ensures ValueAt(plan, i) < ValueAt(plan, j) {
          BelowEnd(plan, i);
          RawOrder(plan.start, plan.step, i, n - 2);
          RawOrder(plan.start, plan.step, i, j);
        }
      } else {
        assert ValueAt(plan, n - 2) >= ValueAt(plan, n - 1);
      }
    }
  }

  /** In particular they do whenever the step exceeds the tolerance. */
  lemma StrictWhenStepExceedsTolerance(plan: SweepPlan)
    requires Planned(plan) && plan.step > plan.tolerance
    ensures StrictlyIncreasing(plan)
  {
    StrictnessExact(plan);
    LastIndex(plan);
    if plan.pointCount >= 2 {
      RawOrder(plan.start, plan.step, plan.pointCount - 2, plan.pointCount - 1);
    }
  }

  /** The last point is less than one step below the end. */
  lemma LastPointNearEnd(plan: SweepPlan)
    requires Planned(plan)
    ensures plan.end - ValueAt(plan, plan.pointCount - 1) < plan.step
  {
    LastIndex(plan);
    RawOrder(plan.start, plan.step, plan.pointCount - 1, plan.pointCount);
  }

  /** The end is a point of the sweep exactly when some lattice value is within tolerance of it. */
  lemma EndReached(plan: SweepPlan)
    requires Planned(plan)
    ensures ValueAt(plan, plan.pointCount - 1) == plan.end <==>
      exists k: nat :: Abs(Raw(plan.start, plan.step, k) - plan.end) <= plan.tolerance
  {
    LastIndex(plan);
    var last := plan.pointCount - 1;
    if ValueAt(plan, last) == plan.end {
      assert Abs(Raw(plan.start, plan.step, last) - plan.end) <= plan.tolerance;
    }
    if k: nat :| Abs(Raw(plan.start, plan.step, k) - plan.end) <= plan.tolerance {
      if k <= last {
        RawOrder(plan.start, plan.step, k, last);
      } else {
        RawOrder(plan.start, plan.step, last + 1, k);
      }
    }
  }

  // ----- Which indexes are points -----

  /** The k-th lattice value lies at or below the end; or it is the first one beyond the end, which
      is missed from below by more than the tolerance, and is itself within tolerance of it. */
  predicate InLattice(start: real, end: real, step: real, k: nat) {
    var tolerance := Tolerance(start, end, step);
    || start + k as real * step <= end
    || (start + k as real * step <= end + tolerance && start + (k - 1) as real * step < end - tolerance)
  }

  lemma LastDecides(start: real, end: real, step: real, k: nat)
    requires step > 0.0 && start <= end
    ensures var f, tolerance := ((end - start) / step).Floor, Tolerance(start, end, step);
      InLattice(start, end, step, k) <==>
      k <= f || (k == f + 1 && Abs(Raw(start, step, f) - end) > tolerance && Raw(start, step, f + 1) <= end + tolerance)
  {
    var f := ((end - start) / step).Floor;
    FloorBrackets(start, end, step);
    assert start + k as real * step == Raw(start, step, k);
    assert start + (k - 1) as real * step == Raw(start, step, k - 1);
    if k <= f {
      RawOrder(start, step, k, f);
    } else if k == f + 1 {
      assert k - 1 == f;
    } else {
      RawOrder(start, step, f + 1, k);
      RawOrder(start, step, f + 1, k - 1);
    }
  }

  /** The count is exact: index k is a point exactly when it is in the lattice, and there is a count
      exactly when the index at the limit is not. */
  lemma CountExact(start: real, end: real, step: real)
    requires step > 0.0 && start <= end
    ensures AxisPointCount(start, end, step).None? <==> InLattice(start, end, step, MAXIMUM_POINTS)
    ensures AxisPointCount(start, end, step).Some? ==>
      forall k: nat :: k < AxisPointCount(start, end, step).value <==> InLattice(start, end, step, k)
  {
    LastDecides(start, end, step, MAXIMUM_POINTS);
    forall k: nat
      ensures AxisPointCount(start, end, step).Some? ==>
        (k < AxisPointCount(start, end, step).value <==> InLattice(start, end, step, k))
    {
      LastDecides(start, end, step, k);
    }
  }

  lemma Quotient(x: real, y: real)
    requires 16.0 * (1.0 / 4_503_599_627_370_496.0) * y == x
    ensures x * 281_474_976_710_656.0 == y
  {
  }

  lemma ToleranceScale(start: real, end: real, step: real)
    ensures Tolerance(start, end, step) * 281_474_976_710_656.0
            == Max(Max(Abs(start), Abs(end)), Max(Abs(step), 1.0))
  {
    Quotient(Tolerance(start, end, step), Max(Max(Abs(start), Abs(end)), Max(Abs(step), 1.0)));
  }

  /** Snapping to the end moves a point by no more than a 2^-48th part of the largest magnitude. */
  lemma DisplacementBound(plan: SweepPlan, i: nat, magnitude: real)
    requires Planned(plan) && i < plan.pointCount && magnitude >= 1.0
    requires Abs(plan.start) <= magnitude && Abs(plan.end) <= magnitude && plan.step <= magnitude
    ensures Abs(ValueAt(plan, i) - (plan.start + i as real * plan.step)) * 281_474_976_710_656.0 <= magnitude
  {
    PlannedTolerance(plan);
    SnapBound(plan, i, magnitude);
  }

  lemma SnapBound(plan: SweepPlan, i: nat, magnitude: real)
    requires plan.tolerance == Tolerance(plan.start, plan.end, plan.step) && plan.step > 0.0 && magnitude >= 1.0
    requires Abs(plan.start) <= magnitude && Abs(plan.end) <= magnitude && plan.step <= magnitude
    ensures Abs(ValueAt(plan, i) - (plan.start + i as real * plan.step)) * 281_474_976_710_656.0 <= magnitude
  {
    ToleranceScale(plan.start, plan.end, plan.step);
    var displacement := Abs(ValueAt(plan, i) - Raw(plan.start, plan.step, i));
    assert displacement <= plan.tolerance;
    Scaled(displacement, plan.tolerance, magnitude);
  }

  lemma PlannedTolerance(plan: SweepPlan)
    requires Planned(plan)
    ensures plan.step > 0.0 && plan.tolerance == Tolerance(plan.start, plan.end, plan.step)
  {
  }

  lemma Scaled(x: real, y: real, z: real)
    requires x <= y && y * 281_474_976_710_656.0 <= z
    ensures x * 281_474_976_710_656.0 <= z
  {
  }
}
