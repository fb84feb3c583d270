/** When exactly the corrections of matching programs agree. */
module ExpandedForms {
  import opened Domain
  import opened Points
  import opened Ir
  import opened Evaluator
  import opened Soundness
  import opened NormalForms
  import opened Normalizing
  import opened NormalSemantics
  import opened Comparing
  import opened Matching
  import V = Validator

  // ----- Powers with the applied deltas expanded -----

  /** A multiple of the power reading plus a constant. */
  datatype Affine = Affine(gain: int, offset: real)

  function At(a: Affine, reading: real): real {
    a.gain as real * reading + a.offset
  }

  function Plus(a: Affine, b: Affine): Affine {
    Affine(a.gain + b.gain, a.offset + b.offset)
  }

  function Minus(a: Affine, b: Affine): Affine {
    Affine(a.gain - b.gain, a.offset - b.offset)
  }

  lemma SumAt(a: Affine, b: Affine, reading: real)
    ensures At(Plus(a, b), reading) == At(a, reading) + At(b, reading)
    ensures At(Minus(a, b), reading) == At(a, reading) - At(b, reading)
  {
    assert (a.gain + b.gain) as real == a.gain as real + b.gain as real;
    assert (a.gain - b.gain) as real == a.gain as real - b.gain as real;
  }

  /** The slot takes no absolute value, in the operands of applied deltas either. */
  predicate Expandable(values: seq<Slot>, id: ValueId)
    requires OperandsPrecede(values) && id < |values|
  {
    assert OperandsBefore(values[id].definition, id);
    match values[id].definition
    case Alias(x) => Expandable(values, x)
    case NegatePowerDelta(x) => Expandable(values, x)
    case AddPowerDelta(x, y) => Expandable(values, x) && Expandable(values, y)
    case ApplyPowerDelta(x, y) => Expandable(values, x) && Expandable(values, y)
    case PowerDifference(x, y) => Expandable(values, x) && Expandable(values, y)
    case AbsoluteValue(_) => false
    case _ => true
  }

  /** The power or power delta of a slot, applied deltas being expanded into their operands. */
  function Expanded(values: seq<Slot>, id: ValueId): Affine
    requires OperandsPrecede(values) && id < |values|
  {
    assert OperandsBefore(values[id].definition, id);
    match values[id].definition
    case Constant(Quantity(_, amount)) => Affine(0, amount)
    case ReferencePower(dbm) => Affine(0, dbm)
    case Measure(_) => Affine(1, 0.0)
    case Alias(x) => Expanded(values, x)
    case NegatePowerDelta(x) => Minus(Affine(0, 0.0), Expanded(values, x))
    case AddPowerDelta(x, y) => Plus(Expanded(values, x), Expanded(values, y))
    case ApplyPowerDelta(x, y) => Plus(Expanded(values, x), Expanded(values, y))
    case PowerDifference(x, y) => Minus(Expanded(values, x), Expanded(values, y))
    case _ => Affine(0, 0.0)
  }

  /** The expansion has the amount of the slot. */
  lemma {:induction false} ExpandedDenotes(values: seq<Slot>, point: Point, filled: seq<Value>, rho: Readings,
                                           id: ValueId)
    requires Evaluated(values, point, filled, rho) && id < |values| && values[id].typ in {Power, PowerDelta}
    requires Expandable(values, id)
    ensures AmountAt(filled, id) == At(Expanded(values, id), rho(MeasurePower))
    decreases id, 0
  {
    SlotEquation(values, point, filled, id);
    assert V.ValidSlot(values, id);
    match values[id].definition
    case Alias(x) => ExpandedDenotes(values, point, filled, rho, x);
    case NegatePowerDelta(x) =>
      ExpandedDenotes(values, point, filled, rho, x);
      SumAt(Affine(0, 0.0), Expanded(values, x), rho(MeasurePower));
    case AddPowerDelta(x, y) => OperandsExpand(values, point, filled, rho, x, y);
    case ApplyPowerDelta(x, y) => OperandsExpand(values, point, filled, rho, x, y);
    case PowerDifference(x, y) => OperandsExpand(values, point, filled, rho, x, y);
    case _ => LeafEquation(values, point, filled, rho, id);
  }

  lemma {:induction false} OperandsExpand(values: seq<Slot>, point: Point, filled: seq<Value>, rho: Readings,
                                          x: ValueId, y: ValueId)
    requires Evaluated(values, point, filled, rho) && x < |values| && y < |values|
    requires values[x].typ in {Power, PowerDelta} && values[y].typ in {Power, PowerDelta}
    requires Expandable(values, x) && Expandable(values, y)
    ensures AmountAt(filled, x) + AmountAt(filled, y) ==
      At(Plus(Expanded(values, x), Expanded(values, y)), rho(MeasurePower))
    ensures AmountAt(filled, x) - AmountAt(filled, y) ==
      At(Minus(Expanded(values, x), Expanded(values, y)), rho(MeasurePower))
    decreases if x < y then y else x, 1
  {
    ExpandedDenotes(values, point, filled, rho, x);
    ExpandedDenotes(values, point, filled, rho, y);
    SumAt(Expanded(values, x), Expanded(values, y), rho(MeasurePower));
  }

  lemma CorrectionIsExpanded(p: Program, point: Point, rho: Readings)
    requires V.Valid(p) && PointFits(p, point) && Reads(p, point, rho) && OperandsPrecede(p.values)
    requires p.calibration.correction < |p.values| && Expandable(p.values, p.calibration.correction)
    ensures CorrectionOf(p, point) == At(Expanded(p.values, p.calibration.correction), rho(MeasurePower))
  {
    EvaluationSolves(p, point, rho);
    ExpandedDenotes(p.values, point, Fold(p.values, point).value, rho, p.calibration.correction);
  }

  // ----- A point with given readings -----

  function AllReadings(values: seq<Slot>, rho: Readings): (readings: seq<real>)
    ensures |readings| == MeasureCount(values)
  {
    if |values| == 0 then []
    else
      var before, d := AllReadings(values[..|values| - 1], rho), values[|values| - 1].definition;
      if d.Measure? then before + [rho(d.operation)] else before
  }

  lemma {:induction false} AllReadingsRead(values: seq<Slot>, rho: Readings, s: nat)
    requires s < |values| && values[s].definition.Measure?
    ensures MeasureCount(values[..s]) < |AllReadings(values, rho)|
    ensures AllReadings(values, rho)[MeasureCount(values[..s])] == rho(values[s].definition.operation)
  {
    var n := |values| - 1;
    if s < n {
      AllReadingsRead(values[..n], rho, s);
      assert values[..n][..s] == values[..s];
    }
  }

  function Anywhere(p: Program): (coordinates: seq<Coordinate>)
    ensures CoordinatesFit(p, coordinates)
  {
    seq(|p.sweeps|, i requires 0 <= i < |p.sweeps| =>
      Coordinate(p.sweeps[i].name, p.sweeps[i].dimension, Scalar(AxisType(p.sweeps[i].dimension), 0.0)))
  }

  lemma ReadsAnything(p: Program, coordinates: seq<Coordinate>, rho: Readings)
    requires V.Valid(p) && CoordinatesFit(p, coordinates)
    ensures PointFits(p, Point(coordinates, AllReadings(p.values, rho)))
    ensures Reads(p, Point(coordinates, AllReadings(p.values, rho)), rho)
  {
    MeasureCountIsCount(p.values);
    forall s | 0 <= s < |p.values| && p.values[s].definition.Measure?
      ensures ReadsSlot(p, Point(coordinates, AllReadings(p.values, rho)), rho, s)
    {
      AllReadingsRead(p.values, rho, s);
    }
  }

  lemma SameKeysFit(p: Program, q: Program, coordinates: seq<Coordinate>)
    requires V.Valid(p) && V.Valid(q) && SweepKeys(p) == SweepKeys(q) && CoordinatesFit(p, coordinates)
    ensures CoordinatesFit(q, coordinates)
  {
    assert |SweepKeys(p)| == |SweepKeys(q)|;
    forall i | 0 <= i < |q.sweeps|
      ensures q.sweeps[i].name == p.sweeps[i].name && q.sweeps[i].dimension == p.sweeps[i].dimension
    {
      assert SweepKeys(p)[i] == SweepKeys(q)[i] && p.sweeps[i] in p.sweeps && q.sweeps[i] in q.sweeps;
      assert V.ValidSweep(p, p.sweeps[i]) && V.ValidSweep(q, q.sweeps[i]);
    }
  }

  // ----- The exact condition -----

  ghost predicate CorrectionsAgree(p: Program, q: Program) {
    forall s, t, rho | SamePoint(p, q, s, t, rho) :: CorrectionOf(p, s) == CorrectionOf(q, t)
  }

  lemma AgreeForReading(p: Program, q: Program, reading: real)
    requires V.Valid(p) && V.Valid(q) && SweepKeys(p) == SweepKeys(q) && CorrectionsAgree(p, q)
    requires OperandsPrecede(p.values) && Expandable(p.values, p.calibration.correction)
    requires OperandsPrecede(q.values) && Expandable(q.values, q.calibration.correction)
    ensures At(Expanded(p.values, p.calibration.correction), reading) ==
      At(Expanded(q.values, q.calibration.correction), reading)
  {
    var rho: Readings := (op: MeasurementOperation) => reading;
    var coordinates := Anywhere(p);
    SameKeysFit(p, q, coordinates);
    ReadsAnything(p, coordinates, rho);
    ReadsAnything(q, coordinates, rho);
    var s, t := Point(coordinates, AllReadings(p.values, rho)), Point(coordinates, AllReadings(q.values, rho));
    assert SamePoint(p, q, s, t, rho);
    CorrectionIsExpanded(p, s, rho);
    CorrectionIsExpanded(q, t, rho);
  }

  /** The corrections of two matching programs, free of absolute values, agree at every point with one
      reading per operation if and only if they have the same gain and the same offset once their
      applied deltas are expanded. */
  lemma CorrectionsAgreeExactly(num: NumberFormat, p: Program, q: Program)
    requires V.Valid(p) && V.Valid(q) && OperandsPrecede(p.values) && OperandsPrecede(q.values) && Matches(num, p, q)
    requires Expandable(p.values, p.calibration.correction) && Expandable(q.values, q.calibration.correction)
    ensures CorrectionsAgree(p, q)
            <==> Expanded(p.values, p.calibration.correction) == Expanded(q.values, q.calibration.correction)
  {
    if CorrectionsAgree(p, q) {
      AgreeForReading(p, q, 0.0);
      AgreeForReading(p, q, 1.0);
    }
    if Expanded(p.values, p.calibration.correction) == Expanded(q.values, q.calibration.correction) {
      forall s, t, rho | SamePoint(p, q, s, t, rho) ensures CorrectionOf(p, s) == CorrectionOf(q, t) {
        CorrectionIsExpanded(p, s, rho);
        CorrectionIsExpanded(q, t, rho);
      }
    }
  }

  /** In particular they expand alike where the texts name no slot. */
  lemma PortableExpandAlike(num: NumberFormat, p: Program, q: Program)
    requires Faithful(num, p.values) && Faithful(num, q.values) && V.Valid(p) && V.Valid(q)
    requires OperandsPrecede(p.values) && OperandsPrecede(q.values) && PortableResults(num, p) && Matches(num, p, q)
    requires Expandable(p.values, p.calibration.correction) && Expandable(q.values, q.calibration.correction)
    ensures Expanded(p.values, p.calibration.correction) == Expanded(q.values, q.calibration.correction)
  {
    forall s, t, rho | SamePoint(p, q, s, t, rho) ensures CorrectionOf(p, s) == CorrectionOf(q, t) {
      MatchAtPoint(num, p, q, s, t, rho);
    }
    CorrectionsAgreeExactly(num, p, q);
  }
}
