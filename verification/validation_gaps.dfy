/** Two programs that the validator lets through although they cannot be run. Lowering produces
    neither. */
module ValidationGaps {
  import opened Domain
  import opened Ir
  import opened Points
  import opened Evaluator
  import opened Validator
  import opened Soundness
  import R = Representation
  import opened SweepLattice
  import opened Grid
  import opened Devices
  import opened Execution
  import opened Characterization

  function HertzSweep(slot: ValueId): TypedSweep {
    var hertz := Scalar(Frequency, 1.0);
    TypedSweep(slot, "frequency", FrequencyAxis, hertz, hertz, hertz, 1)
  }

  lemma CountsOfFour(a: Slot, b: Slot, c: Slot, d: Slot, family: Family)
    ensures Count([a, b, c, d], family) ==
      (if Belongs(a.definition, family) then 1 else 0) + (if Belongs(b.definition, family) then 1 else 0)
      + (if Belongs(c.definition, family) then 1 else 0) + (if Belongs(d.definition, family) then 1 else 0)
  {
    R.CountAppend([], a, family);
    R.CountAppend([a], b, family);
    R.CountAppend([a, b], c, family);
    R.CountAppend([a, b, c], d, family);
    assert [] + [a] == [a] && [a] + [b] == [a, b] && [a, b] + [c] == [a, b, c] && [a, b, c] + [d] == [a, b, c, d];
  }

  lemma OnePoint(sweeps: seq<TypedSweep>)
    requires forall sweep <- sweeps :: sweep.pointCount == 1
    ensures PointProduct(sweeps) == 1
  {
    OnePointUpTo(sweeps, |sweeps|);
  }

  lemma {:induction false} OnePointUpTo(sweeps: seq<TypedSweep>, n: nat)
    requires n <= |sweeps| && forall sweep <- sweeps :: sweep.pointCount == 1
    ensures PartialProduct(sweeps, n) == 1
  {
    if n > 0 {
      OnePointUpTo(sweeps, n - 1);
      assert sweeps[n - 1] in sweeps;
    }
  }

  // ----- A reference that comes too late -----

  /** The measurement slot precedes the reference slot. */
  function LateReference(): Program {
    var values := [
      Slot(0, Power, Measure(MeasurePower)), Slot(1, Power, ReferencePower(0.0)),
      Slot(2, Frequency, SweepValue(FrequencyAxis)), Slot(3, PowerDelta, Constant(Quantity(PowerDelta, 0.0)))];
    Program("late", 1, LegacySweep(2, 1.0, 1.0, 1.0), [HertzSweep(2)], 1, 0,
            [Measurement("power", MeasurePower, 0, Power, true)], values, [], [],
            Calibration("c", 3, [2], [Frequency], PowerDelta))
  }

  lemma LateReferenceIsValid()
    ensures Valid(LateReference())
  {
    var p := LateReference();
    var v := p.values;
    CountsOfFour(v[0], v[1], v[2], v[3], References);
    CountsOfFour(v[0], v[1], v[2], v[3], Sweeps);
    CountsOfFour(v[0], v[1], v[2], v[3], Measurements);
    OnePoint(p.sweeps);
    assert p.sweeps[..0] == [] && AxisCount(p.sweeps[..0], FrequencyAxis) ==
      AxisCount(p.sweeps[..0], TemperatureAxis) == 0;
    forall i | 0 <= i < 4 ensures ValidSlot(v, i) {}
  }

  /** Every stage accepts it, yet no evaluation of it on a fresh bench gets through. */
  lemma ValidButNotRunnable(coordinates: seq<Coordinate>, response: Response)
    requires CoordinatesFit(LateReference(), coordinates)
    ensures Valid(LateReference()) && !Ordered(LateReference())
    ensures Run(LateReference(), coordinates, response, [], |LateReference().values|).None?
  {
    LateReferenceIsValid();
    RunsExactly(LateReference(), coordinates, response);
  }

  // ----- A second frequency sweep -----

  /** Two frequency sweeps, and a correction that names no slot. */
  function TwoFrequencySweeps(): Program {
    var values := [
      Slot(0, Power, ReferencePower(0.0)), Slot(1, Frequency, SweepValue(FrequencyAxis)),
      Slot(2, Frequency, SweepValue(FrequencyAxis)), Slot(3, Power, Measure(MeasurePower))];
    Program("twice", 0, LegacySweep(1, 1.0, 1.0, 1.0), [HertzSweep(1), HertzSweep(2)], 1, 3,
            [Measurement("power", MeasurePower, 3, Power, true)], values, [], [],
            Calibration("c", 9, [1, 2], [Frequency, Frequency], PowerDelta))
  }

  lemma TwoFrequencySweepsPassSilently()
    ensures SilentlyAccepted(TwoFrequencySweeps())
  {
    var p := TwoFrequencySweeps();
    var v := p.values;
    CountsOfFour(v[0], v[1], v[2], v[3], References);
    CountsOfFour(v[0], v[1], v[2], v[3], Sweeps);
    CountsOfFour(v[0], v[1], v[2], v[3], Measurements);
    OnePoint(p.sweeps);
    assert p.sweeps[0] != p.sweeps[1] && p.sweeps[0].dimension == p.sweeps[1].dimension == FrequencyAxis;
    if AxisCount(p.sweeps, FrequencyAxis) == 1 { UniqueAxis(p.sweeps, FrequencyAxis); }
    forall i | 0 <= i < 4 ensures ValidSlot(v, i) {}
  }

  lemma PlanNext(p: Program, n: nat, before: seq<AxisPlan>, plan: SweepPlan)
    requires n < |p.sweeps| && PlanAxes(p, n) == Some(before) && PlanOf(p, n) == Some(plan)
    requires plan.pointCount == p.sweeps[n].pointCount == 1 && Size(Counts(before)) == 1
    ensures var after := before + [AxisPlan(p.sweeps[n].name, p.sweeps[n].dimension, plan)];
      PlanAxes(p, n + 1) == Some(after) && Size(Counts(after)) == 1
  {
    CountsAppend(before, AxisPlan(p.sweeps[n].name, p.sweeps[n].dimension, plan));
  }

  lemma SecondSweepIsPlanned()
    ensures Plans(TwoFrequencySweeps()).Some? && Size(Counts(Plans(TwoFrequencySweeps()).value)) == 1
  {
    var p := TwoFrequencySweeps();
    var plan := PlanSweep(1.0, 1.0, 1.0).value;
    assert Size(Counts([])) == 1;
    PlanNext(p, 0, [], plan);
    PlanNext(p, 1, PlanAxes(p, 1).value, plan);
  }

  /** The binding stage fails without a report, so the run is not refused, and it throws. */
  lemma SilentlyAcceptedThrows(c: Capabilities, response: Response, start: seq<DeviceCall>)
    requires Capable(TwoFrequencySweeps(), c)
    ensures !Valid(TwoFrequencySweeps()) && Characterize(TwoFrequencySweeps(), c, response, start) == Thrown
  {
    var p := TwoFrequencySweeps();
    TwoFrequencySweepsPassSilently();
    SecondSweepIsPlanned();
    var points := GridPoints(Plans(p).value);
    var e := Run(p, points[0], response, start, 4);
    if e.Some? {
      RunFolds(p, points[0], response, start, 4);
      assert p.values[..4] == p.values;
      FoldLength(p.values, Point(points[0], e.value.readings));
      assert Amount(e.value.filled, 9, PowerDelta).None?;
    }
    assert Visit(p, points[0], response, start).None?;
  }
}
