/** Corrections as combinations of the single readings, and when they agree for all readings. */
module MeasuredForms {
  import opened Domain
  import opened Points
  import opened Ir
  import opened Evaluator
  import opened Soundness
  import opened Normalizing
  import opened NormalSemantics
  import opened Comparing
  import opened Matching
  import opened ExpandedForms
  import V = Validator

  // ----- Gains and offset -----

  /** How often the j-th reading is counted in a power or power delta, applied deltas included. */
  function Gain(values: seq<Slot>, id: ValueId, j: nat): int
    requires OperandsPrecede(values) && id < |values|
  {
    assert OperandsBefore(values[id].definition, id);
    match values[id].definition
    case Measure(_) => if MeasureCount(values[..id]) == j then 1 else 0
    case Alias(x) => Gain(values, x, j)
    case NegatePowerDelta(x) => -Gain(values, x, j)
    case AddPowerDelta(x, y) => Gain(values, x, j) + Gain(values, y, j)
    case ApplyPowerDelta(x, y) => Gain(values, x, j) + Gain(values, y, j)
    case PowerDifference(x, y) => Gain(values, x, j) - Gain(values, y, j)
    case _ => 0
  }

  /** What the constants add to it. */
  function Offset(values: seq<Slot>, id: ValueId): real
    requires OperandsPrecede(values) && id < |values|
  {
    assert OperandsBefore(values[id].definition, id);
    match values[id].definition
    case Constant(Quantity(_, amount)) => amount
    case ReferencePower(dbm) => dbm
    case Alias(x) => Offset(values, x)
    case NegatePowerDelta(x) => -Offset(values, x)
    case AddPowerDelta(x, y) => Offset(values, x) + Offset(values, y)
    case ApplyPowerDelta(x, y) => Offset(values, x) + Offset(values, y)
    case PowerDifference(x, y) => Offset(values, x) - Offset(values, y)
    case _ => 0.0
  }

  /** The offset and the first n readings, each times its gain. */
  function Weighed(gain: nat -> int, offset: real, readings: seq<real>, n: nat): real
    requires n <= |readings|
  {
    if n == 0 then offset
    else Weighed(gain, offset, readings, n - 1) + gain(n - 1) as real * readings[n - 1]
  }

  function Gains(values: seq<Slot>, id: ValueId): nat -> int
    requires OperandsPrecede(values) && id < |values|
  {
    (j: nat) => Gain(values, id, j)
  }

  /** The value of a slot for given readings. */
  function Combination(values: seq<Slot>, id: ValueId, readings: seq<real>): real
    requires OperandsPrecede(values) && id < |values|
  {
    Weighed(Gains(values, id), Offset(values, id), readings, |readings|)
  }

  lemma {:induction false} WeighedSum(f: nat -> int, g: nat -> int, h: nat -> int, a: real, b: real,
                                      readings: seq<real>, n: nat)
    requires n <= |readings| && forall j: nat :: h(j) == f(j) + g(j)
    ensures Weighed(h, a + b, readings, n) == Weighed(f, a, readings, n) + Weighed(g, b, readings, n)
  {
    if n > 0 {
      WeighedSum(f, g, h, a, b, readings, n - 1);
      var r := readings[n - 1];
      assert h(n - 1) as real * r == f(n - 1) as real * r + g(n - 1) as real * r;
    }
  }

  lemma {:induction false} WeighedNegation(f: nat -> int, h: nat -> int, a: real, readings: seq<real>, n: nat)
    requires n <= |readings| && forall j: nat :: h(j) == -f(j)
    ensures Weighed(h, -a, readings, n) == -Weighed(f, a, readings, n)
  {
    if n > 0 { WeighedNegation(f, h, a, readings, n - 1); }
  }

  lemma {:induction false} WeighedSame(f: nat -> int, h: nat -> int, a: real, readings: seq<real>, n: nat)
    requires n <= |readings| && forall j: nat :: j < n ==> h(j) == f(j)
    ensures Weighed(h, a, readings, n) == Weighed(f, a, readings, n)
  {
    if n > 0 { WeighedSame(f, h, a, readings, n - 1); }
  }

  /** A single reading, counted once. */
  lemma {:induction false} WeighedOne(f: nat -> int, k: nat, readings: seq<real>, n: nat)
    requires n <= |readings| && forall j: nat :: f(j) == if j == k then 1 else 0
    ensures Weighed(f, 0.0, readings, n) == if k < n then readings[k] else 0.0
  {
    if n > 0 { WeighedOne(f, k, readings, n - 1); }
  }

  lemma {:induction false} WeighedNone(f: nat -> int, a: real, readings: seq<real>, n: nat)
    requires n <= |readings| && forall j: nat :: f(j) == 0
    ensures Weighed(f, a, readings, n) == a
  {
    if n > 0 { WeighedNone(f, a, readings, n - 1); }
  }

  /** A difference is a sum with a negation. */
  lemma WeighedDifference(f: nat -> int, g: nat -> int, h: nat -> int, a: real, b: real, readings: seq<real>, n: nat)
    requires n <= |readings| && forall j: nat :: h(j) == f(j) - g(j)
    ensures Weighed(h, a - b, readings, n) == Weighed(f, a, readings, n) - Weighed(g, b, readings, n)
  {
    var negated: nat -> int := (j: nat) => -g(j);
    WeighedNegation(g, negated, b, readings, n);
    WeighedSum(f, negated, h, a, -b, readings, n);
    assert a + -b == a - b;
  }

  // ----- The combination is what evaluation computes -----

  predicate Filled(values: seq<Slot>, point: Point, filled: seq<Value>) {
    && V.ValidDefinitions(values) && OperandsPrecede(values) && WellTyped(values, filled)
    && Solved(values, point, filled)
  }

  /** A leaf is a reading or a constant. */
  lemma LeafCombines(values: seq<Slot>, point: Point, filled: seq<Value>, id: ValueId)
    requires Filled(values, point, filled) && id < |values| && values[id].typ in {Power, PowerDelta}
    requires var d := values[id].definition; d.Constant? || d.ReferencePower? || d.SweepValue? || d.Measure?
    ensures AmountAt(filled, id) == Combination(values, id, point.readings)
  {
    assert V.ValidSlot(values, id) && SolvedAt(values, point, filled, id);
    var n := |point.readings|;
    if values[id].definition.Measure? {
      WeighedOne(Gains(values, id), MeasureCount(values[..id]), point.readings, n);
    } else {
      WeighedNone(Gains(values, id), Offset(values, id), point.readings, n);
    }
  }

  lemma {:induction false} CombinationDenotes(values: seq<Slot>, point: Point, filled: seq<Value>, id: ValueId)
    requires Filled(values, point, filled) && id < |values| && values[id].typ in {Power, PowerDelta}
    requires Expandable(values, id)
    ensures AmountAt(filled, id) == Combination(values, id, point.readings)
    decreases id
  {
    SlotEquation(values, point, filled, id);
    assert V.ValidSlot(values, id);
    match values[id].definition
    case Alias(x) =>
      CombinationDenotes(values, point, filled, x);
      WeighedSame(Gains(values, x), Gains(values, id), Offset(values, x), point.readings, |point.readings|);
    case NegatePowerDelta(x) =>
      CombinationDenotes(values, point, filled, x);
      WeighedNegation(Gains(values, x), Gains(values, id), Offset(values, x), point.readings, |point.readings|);
    case AddPowerDelta(x, y) =>
      CombinationDenotes(values, point, filled, x);
      CombinationDenotes(values, point, filled, y);
      SumCombines(values, id, x, y, point.readings);
    case ApplyPowerDelta(x, y) =>
      CombinationDenotes(values, point, filled, x);
      CombinationDenotes(values, point, filled, y);
      SumCombines(values, id, x, y, point.readings);
    case PowerDifference(x, y) =>
      CombinationDenotes(values, point, filled, x);
      CombinationDenotes(values, point, filled, y);
      DifferenceCombines(values, id, x, y, point.readings);
    case _ => LeafCombines(values, point, filled, id);
  }

  lemma SumCombines(values: seq<Slot>, id: ValueId, x: ValueId, y: ValueId, readings: seq<real>)
    requires OperandsPrecede(values) && id < |values| && x < |values| && y < |values|
    requires values[id].definition in {AddPowerDelta(x, y), ApplyPowerDelta(x, y)}
    ensures Combination(values, id, readings) == Combination(values, x, readings) + Combination(values, y, readings)
  {
    WeighedSum(Gains(values, x), Gains(values, y), Gains(values, id), Offset(values, x), Offset(values, y),
               readings, |readings|);
  }

  lemma DifferenceCombines(values: seq<Slot>, id: ValueId, x: ValueId, y: ValueId, readings: seq<real>)
    requires OperandsPrecede(values) && id < |values| && x < |values| && y < |values|
    requires values[id].definition == PowerDifference(x, y)
    ensures Combination(values, id, readings) == Combination(values, x, readings) - Combination(values, y, readings)
  {
    WeighedDifference(Gains(values, x), Gains(values, y), Gains(values, id), Offset(values, x), Offset(values, y),
                      readings, |readings|);
  }

  predicate CorrectionExpands(p: Program) {
    && V.Valid(p) && OperandsPrecede(p.values)
    && p.calibration.correction < |p.values| && Expandable(p.values, p.calibration.correction)
  }

  lemma CorrectionCombines(p: Program, point: Point)
    requires CorrectionExpands(p) && PointFits(p, point)
    ensures CorrectionOf(p, point) == Combination(p.values, p.calibration.correction, point.readings)
  {
    TypeSoundness(p, point);
    var filled := Fold(p.values, point).value;
    forall i | 0 <= i < |p.values| ensures SolvedAt(p.values, point, filled, i) { FoldSlot(p.values, i, point); }
    CombinationDenotes(p.values, point, filled, p.calibration.correction);
  }

  // ----- The exact condition -----

  /** The corrections count every reading equally often and have the same offset. */
  predicate SameForms(p: Program, q: Program)
    requires CorrectionExpands(p) && CorrectionExpands(q)
  {
    && Offset(p.values, p.calibration.correction) == Offset(q.values, q.calibration.correction)
    && forall j :: 0 <= j < |p.measurements| ==>
         Gain(p.values, p.calibration.correction, j) == Gain(q.values, q.calibration.correction, j)
  }

  function ZeroReadings(n: nat): (readings: seq<real>)
    ensures |readings| == n && forall i :: 0 <= i < n ==> readings[i] == 0.0
  {
    seq(n, i => 0.0)
  }

  function UnitReading(n: nat, j: nat): (readings: seq<real>)
    requires j < n
    ensures |readings| == n && forall i :: 0 <= i < n ==> readings[i] == if i == j then 1.0 else 0.0
  {
    seq(n, i => if i == j then 1.0 else 0.0)
  }

  lemma {:induction false} WeighedZeros(f: nat -> int, a: real, readings: seq<real>, n: nat)
    requires n <= |readings| && forall i :: 0 <= i < |readings| ==> readings[i] == 0.0
    ensures Weighed(f, a, readings, n) == a
  {
    if n > 0 { WeighedZeros(f, a, readings, n - 1); }
  }

  lemma {:induction false} WeighedUnit(f: nat -> int, a: real, readings: seq<real>, n: nat, j: nat)
    requires n <= |readings| && forall i :: 0 <= i < |readings| ==> readings[i] == if i == j then 1.0 else 0.0
    ensures Weighed(f, a, readings, n) == a + if j < n then f(j) as real else 0.0
  {
    if n > 0 { WeighedUnit(f, a, readings, n - 1, j); }
  }

  /** What no reading and each single reading contribute decides the forms. */
  lemma FormsFromReadings(p: Program, q: Program)
    requires CorrectionExpands(p) && CorrectionExpands(q)
    requires var zero := ZeroReadings(|p.measurements|);
      Combination(p.values, p.calibration.correction, zero) == Combination(q.values, q.calibration.correction, zero)
    requires forall j :: 0 <= j < |p.measurements| ==>
      Combination(p.values, p.calibration.correction, UnitReading(|p.measurements|, j))
      == Combination(q.values, q.calibration.correction, UnitReading(|p.measurements|, j))
    ensures SameForms(p, q)
  {
    var n, x, y := |p.measurements|, p.calibration.correction, q.calibration.correction;
    WeighedZeros(Gains(p.values, x), Offset(p.values, x), ZeroReadings(n), n);
    WeighedZeros(Gains(q.values, y), Offset(q.values, y), ZeroReadings(n), n);
    forall j | 0 <= j < n ensures Gain(p.values, x, j) == Gain(q.values, y, j) {
      WeighedUnit(Gains(p.values, x), Offset(p.values, x), UnitReading(n, j), n, j);
      WeighedUnit(Gains(q.values, y), Offset(q.values, y), UnitReading(n, j), n, j);
    }
  }

  lemma SameFormsCombine(p: Program, q: Program, readings: seq<real>)
    requires CorrectionExpands(p) && CorrectionExpands(q) && SameForms(p, q) && |readings| == |p.measurements|
    ensures Combination(p.values, p.calibration.correction, readings)
            == Combination(q.values, q.calibration.correction, readings)
  {
    var x, y := p.calibration.correction, q.calibration.correction;
    WeighedSame(Gains(p.values, x), Gains(q.values, y), Offset(p.values, x), readings, |readings|);
  }

  /** The corrections agree at every point, whatever the readings there. */
  ghost predicate AlwaysAgree(p: Program, q: Program) {
    forall point: Point | PointFits(p, point) && PointFits(q, point) :: CorrectionOf(p, point) == CorrectionOf(q, point)
  }

  /** The corrections of two programs with the same sweeps and as many measurements, free of absolute
      values, agree at every point for all readings if and only if they have the same form. */
  lemma FormsDecide(p: Program, q: Program)
    requires CorrectionExpands(p) && CorrectionExpands(q)
    requires SweepKeys(p) == SweepKeys(q) && |p.measurements| == |q.measurements|
    ensures AlwaysAgree(p, q) <==> SameForms(p, q)
  {
    if AlwaysAgree(p, q) {
      var n, coordinates := |p.measurements|, Anywhere(p);
      SameKeysFit(p, q, coordinates);
      AgreeThere(p, q, Point(coordinates, ZeroReadings(n)));
      forall j | 0 <= j < n
        ensures Combination(p.values, p.calibration.correction, UnitReading(n, j))
                == Combination(q.values, q.calibration.correction, UnitReading(n, j))
      {
        AgreeThere(p, q, Point(coordinates, UnitReading(n, j)));
      }
      FormsFromReadings(p, q);
    }
    if SameForms(p, q) {
      forall point: Point | PointFits(p, point) && PointFits(q, point)
        ensures CorrectionOf(p, point) == CorrectionOf(q, point)
      {
        CorrectionCombines(p, point);
        CorrectionCombines(q, point);
        SameFormsCombine(p, q, point.readings);
      }
    }
  }

  lemma AgreeThere(p: Program, q: Program, point: Point)
    requires CorrectionExpands(p) && CorrectionExpands(q) && PointFits(p, point) && PointFits(q, point)
    requires CorrectionOf(p, point) == CorrectionOf(q, point)
    ensures Combination(p.values, p.calibration.correction, point.readings)
            == Combination(q.values, q.calibration.correction, point.readings)
  {
    CorrectionCombines(p, point);
    CorrectionCombines(q, point);
  }
}
