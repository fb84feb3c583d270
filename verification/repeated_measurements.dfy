/** Why operations must not be measured twice where readings need not repeat. */
module RepeatedMeasurements {
  import opened Domain
  import opened Points
  import opened Ir
  import opened Evaluator
  import opened Soundness
  import opened Grid
  import opened SweepLattice
  import opened NormalForms
  import opened LinearForms
  import opened Normalizing
  import opened NormalSemantics
  import opened Comparing
  import opened Devices
  import opened Execution
  import opened Matching
  import opened MatchingRuns
  import opened Sampling
  import C = Characterization
  import Gaps = ValidationGaps
  import R = Representation
  import V = Validator

  /** Two power measurements a and b, and the correction a - reference or b - reference. */
  function Paired(second: bool): Program {
    var values := [
      Slot(0, Power, ReferencePower(0.0)), Slot(1, Frequency, SweepValue(FrequencyAxis)),
      Slot(2, Power, Measure(MeasurePower)), Slot(3, Power, Measure(MeasurePower)),
      Slot(4, PowerDelta, PowerDifference(if second then 3 else 2, 0))];
    Program("paired", 0, LegacySweep(1, 1.0, 1.0, 1.0), [Gaps.HertzSweep(1)], 1, 2,
            [Measurement("a", MeasurePower, 2, Power, false), Measurement("b", MeasurePower, 3, Power, false)],
            values, [], [], Calibration("c", 4, [1], [Frequency], PowerDelta))
  }

  lemma PairedCounts(second: bool, family: V.Family)
    ensures var v := Paired(second).values; V.Count(v, family) == V.Count([v[0], v[1], v[2], v[3]], family)
  {
    var v := Paired(second).values;
    assert v == [v[0], v[1], v[2], v[3]] + [v[4]];
    R.CountAppend([v[0], v[1], v[2], v[3]], v[4], family);
  }

  lemma PairedIsValid(second: bool)
    ensures InOrder(Paired(second)) && OperandsPrecede(Paired(second).values) && LegacyAgrees(Paired(second))
  {
    var p := Paired(second);
    var v := p.values;
    PairedCounts(second, V.References);
    PairedCounts(second, V.Sweeps);
    PairedCounts(second, V.Measurements);
    Gaps.CountsOfFour(v[0], v[1], v[2], v[3], V.References);
    Gaps.CountsOfFour(v[0], v[1], v[2], v[3], V.Sweeps);
    Gaps.CountsOfFour(v[0], v[1], v[2], v[3], V.Measurements);
    Gaps.OnePoint(p.sweeps);
    assert p.sweeps[..0] == [] && V.AxisCount(p.sweeps[..0], FrequencyAxis) ==
      V.AxisCount(p.sweeps[..0], TemperatureAxis) == 0;
    forall i | 0 <= i < 5 ensures V.ValidSlot(v, i) {}
    ValidOperandsPrecede(v);
  }

  /** Both corrections have the same text, which names no slot. */
  lemma PairedText(num: NumberFormat)
    requires OperandsPrecede(Paired(false).values) && OperandsPrecede(Paired(true).values)
    ensures NormOf(num, Paired(false).values, 4) == NormOf(num, Paired(true).values, 4)
    ensures NormOf(num, Paired(false).values, 0) == NormOf(num, Paired(true).values, 0)
    ensures SlotFree(NormOf(num, Paired(false).values, 4)) && SlotFree(NormOf(num, Paired(false).values, 0))
  {
    var p, q := Paired(false).values, Paired(true).values;
    var measured, reference := More(1, Atom(Power, MeasureLeaf(MeasurePower)), NoTerms),
      More(1, Atom(Power, ReferenceLeaf(0.0)), NoTerms);
    assert LinearOf(num, p, 2) == LinearOf(num, q, 3) == measured;
    assert LinearOf(num, p, 0) == LinearOf(num, q, 0) == reference;
    assert LinearOf(num, p, 4) == AddScaled(num, measured, reference, -1);
    assert LinearOf(num, q, 4) == AddScaled(num, measured, reference, -1);
    AddScaledSlotFree(num, measured, reference, -1);
  }

  lemma PairedMatch(num: NumberFormat)
    requires OperandsPrecede(Paired(false).values) && OperandsPrecede(Paired(true).values)
    ensures Matches(num, Paired(false), Paired(true)) && PortableResults(num, Paired(false))
  {
    PairedText(num);
    var p, q := Paired(false), Paired(true);
    assert MeasurementTexts(p, 0) == MeasurementTexts(q, 0) && MeasurementTexts(p, 1) == MeasurementTexts(q, 1);
    assert MeasurementTexts(p, 2) == MeasurementTexts(q, 2);
    assert IndexTexts(p, 0) == IndexTexts(q, 0) && IndexTexts(p, 1) == IndexTexts(q, 1);
    assert SweepKeys(p) == SweepKeys(q);
  }

  lemma PairedCorrection(second: bool, point: Point)
    requires PointFits(Paired(second), point)
    ensures CorrectionOf(Paired(second), point) == point.readings[if second then 1 else 0]
  {
    var p := Paired(second);
    PairedIsValid(second);
    TypeSoundness(p, point);
    var v, filled := p.values, Fold(p.values, point).value;
    var k := if second then 3 else 2;
    FoldSlot(v, 0, point);
    FoldSlot(v, k, point);
    FoldSlot(v, 4, point);
    PairedMeasures(second);
    assert filled[k] == Quantity(Power, point.readings[k - 2]);
  }

  lemma PairedMeasures(second: bool)
    ensures MeasureCount(Paired(second).values[..2]) == 0 && MeasureCount(Paired(second).values[..3]) == 1
  {
    var v := Paired(second).values;
    assert v[..1] == [] + [v[0]] && v[..2] == v[..1] + [v[1]] && v[..3] == v[..2] + [v[2]];
    MeasureCountAppend([], v[0]);
    MeasureCountAppend(v[..1], v[1]);
    MeasureCountAppend(v[..2], v[2]);
  }

  /** A device whose second reading at a point differs from the first. */
  function Drifting(): Response {
    (op: MeasurementOperation, calls: seq<DeviceCall>) => if |calls| > 0 && calls[|calls| - 1].Measured?
      then 1.0 else 0.0
  }

  const EVERYTHING := C.Capabilities(true, true, true, true)

  lemma PairedIsPlanned(second: bool)
    ensures C.Plans(Paired(second)).Some? && Size(C.Counts(C.Plans(Paired(second)).value)) == 1
  {
    assert Size(C.Counts([])) == 1;
    Gaps.PlanNext(Paired(second), 0, [], PlanSweep(1.0, 1.0, 1.0).value);
  }

  /** The run on the drifting device takes the first or the second reading. */
  lemma PairedRun(second: bool) returns (r: C.Result)
    ensures C.Characterize(Paired(second), EVERYTHING, Drifting(), []) == C.Characterized(r)
    ensures |r.samples| == 1 && r.samples[0].correction == if second then 1.0 else 0.0
  {
    var p := Paired(second);
    PairedIsValid(second);
    PairedIsPlanned(second);
    CharacterizationSucceeds(p, EVERYTHING, Drifting(), []);
    r := C.Characterize(p, EVERYTHING, Drifting(), []).result;
    var points := C.GridPoints(C.Plans(p).value);
    var x := r.samples[0];
    assert SampledInTurn(p, points, Drifting(), [], 0, x);
    PairedSample(second, points[0], x);
  }

  lemma PairedSample(second: bool, coordinates: seq<Coordinate>, x: C.Sample)
    requires SampledAt(Paired(second), coordinates, Drifting(), [], x)
    ensures x.correction == if second then 1.0 else 0.0
  {
    var p, readings := Paired(second), Observed(x);
    PairedCorrection(second, Point(coordinates, readings));
    var before, after := CallsAt(p, coordinates, 0), CallsAt(p, coordinates, 1);
    assert [] + before == before && before[|before| - 1].OutputPowerSet?;
    assert MeasureCalls(p.measurements, 1) == [] + [Measured(MeasurePower)];
    assert [] + after == after && after[|after| - 1].Measured?;
  }

  /** Programs that match and measure the same operations in the same order, with no slot named in
      their texts, but measure power twice: on a drifting device their runs differ. */
  lemma MatchWithRepeatedMeasurementIsUnsound(num: NumberFormat)
    ensures var p, q := Paired(false), Paired(true);
      && InOrder(p) && InOrder(q) && OperandsPrecede(p.values) && OperandsPrecede(q.values)
      && LegacyAgrees(p) && LegacyAgrees(q)
      && Matches(num, p, q) && PortableResults(num, p) && SameOperations(p, q) && !MeasuredOnce(p)
      && var x, y := C.Characterize(p, EVERYTHING, Drifting(), []), C.Characterize(q, EVERYTHING, Drifting(), []);
         x.Characterized? && y.Characterized? && !SameRun(x.result, y.result)
  {
    PairedIsValid(false);
    PairedIsValid(true);
    PairedMatch(num);
    var a := PairedRun(false);
    var b := PairedRun(true);
    assert a.samples[0].correction != b.samples[0].correction;
    assert Paired(false).measurements[0].operation == Paired(false).measurements[1].operation;
  }
}
