/** What a semantic match guarantees, and what it does not. */
module Matching {
  import opened Domain
  import opened Text
  import Ast
  import opened Points
  import opened Ir
  import opened Evaluator
  import opened Soundness
  import opened SweepLattice
  import opened Sorting
  import opened NormalForms
  import opened LinearForms
  import opened Normalizing
  import opened NormalSemantics
  import opened Comparing
  import opened LoweringPass
  import opened LoweringCorrectness
  import opened LoweredPrograms
  import opened AnalyzedPrograms
  import opened Analysis
  import opened Pipeline
  import C = Characterization
  import Sampling
  import V = Validator
  import R = Representation
  import Gaps = ValidationGaps

  /** What the comparison answers Match for. */
  predicate Matches(num: NumberFormat, p: Program, q: Program)
    requires OperandsPrecede(p.values) && OperandsPrecede(q.values)
  {
    ObservableOf(num, p).Some? && ObservableOf(num, p) == ObservableOf(num, q)
  }

  // ----- The same grid -----

  /** The legacy sweep repeats a lone frequency sweep, as lowering leaves it. */
  predicate LegacyAgrees(p: Program) {
    |p.sweeps| == 1 && p.sweeps[0].dimension == FrequencyAxis ==>
      && p.sweep.start == p.sweeps[0].start.amount && p.sweep.end == p.sweeps[0].end.amount
      && p.sweep.step == p.sweeps[0].step.amount
  }

  /** What the planning of an axis depends on: its plan and count, and its name and dimension. */
  function AxisKeys(p: Program): (keys: seq<(Option<SweepPlan>, nat, string, Axis)>)
    ensures |keys| == |p.sweeps|
  {
    seq(|p.sweeps|, i requires 0 <= i < |p.sweeps| =>
      (C.PlanOf(p, i), p.sweeps[i].pointCount, p.sweeps[i].name, p.sweeps[i].dimension))
  }

  lemma SameNextPlan(p: Program, q: Program, n: nat)
    requires AxisKeys(p) == AxisKeys(q) && n < |p.sweeps| == |q.sweeps| && C.PlanAxes(p, n) == C.PlanAxes(q, n)
    ensures C.PlanAxes(p, n + 1) == C.PlanAxes(q, n + 1)
  {
    assert AxisKeys(p)[n] == AxisKeys(q)[n];
  }

  /** The plans of the first n axes, none beyond the last. */
  function PlansUpTo(p: Program): nat -> Option<seq<C.AxisPlan>> {
    (n: nat) => if n <= |p.sweeps| then C.PlanAxes(p, n) else None
  }

  lemma {:induction false} StepByStep<T>(f: nat -> T, g: nat -> T, n: nat)
    requires f(0) == g(0) && forall k | 0 <= k < n && f(k) == g(k) :: f(k + 1) == g(k + 1)
    ensures f(n) == g(n)
  {
    if n > 0 { StepByStep(f, g, n - 1); }
  }

  lemma SameAxesSamePlans(p: Program, q: Program)
    requires AxisKeys(p) == AxisKeys(q) && |p.sweeps| == |q.sweeps|
    ensures PlansUpTo(p)(|p.sweeps|) == PlansUpTo(q)(|p.sweeps|)
  {
    var f, g := PlansUpTo(p), PlansUpTo(q);
    forall k | 0 <= k < |p.sweeps| && f(k) == g(k) ensures f(k + 1) == g(k + 1) { SameNextPlan(p, q, k); }
    StepByStep(f, g, |p.sweeps|);
  }

  lemma SamePlans(p: Program, q: Program)
    requires V.Valid(p) && V.Valid(q) && LegacyAgrees(p) && LegacyAgrees(q) && SweepKeys(p) == SweepKeys(q)
    ensures |p.sweeps| == |q.sweeps| && C.PlanAxes(p, |p.sweeps|) == C.PlanAxes(q, |q.sweeps|)
  {
    assert |SweepKeys(p)| == |SweepKeys(q)|;
    forall i | 0 <= i < |p.sweeps| ensures AxisKeys(p)[i] == AxisKeys(q)[i] { SamePlan(p, q, i); }
    SameAxesSamePlans(p, q);
  }

  lemma SamePlan(p: Program, q: Program, i: nat)
    requires V.Valid(p) && V.Valid(q) && LegacyAgrees(p) && LegacyAgrees(q) && SweepKeys(p) == SweepKeys(q)
    requires i < |p.sweeps| == |q.sweeps|
    ensures AxisKeys(p)[i] == AxisKeys(q)[i]
  {
    assert SweepKeys(p)[i] == SweepKeys(q)[i];
    assert p.sweeps[i] in p.sweeps && q.sweeps[i] in q.sweeps;
    assert V.ValidSweep(p, p.sweeps[i]) && V.ValidSweep(q, q.sweeps[i]);
  }

  lemma {:induction false} SameTotals(p: Program, q: Program, n: nat)
    requires SweepKeys(p) == SweepKeys(q) && n <= |p.sweeps|
    ensures |p.sweeps| == |q.sweeps| && PartialProduct(p.sweeps, n) == PartialProduct(q.sweeps, n)
  {
    assert |SweepKeys(p)| == |SweepKeys(q)|;
    if n > 0 {
      SameTotals(p, q, n - 1);
      assert SweepKeys(p)[n - 1] == SweepKeys(q)[n - 1];
    }
  }

  // ----- The same verdicts -----

  /** The texts of the reference, the correction and the assertions name no slot. */
  predicate PortableResults(num: NumberFormat, p: Program)
    requires OperandsPrecede(p.values)
  {
    && PortableText(num, p, p.reference) && PortableText(num, p, p.calibration.correction)
    && forall i :: 0 <= i < |p.assertions| ==> PortableText(num, p, p.assertions[i].value)
  }

  predicate PortableText(num: NumberFormat, p: Program, id: ValueId)
    requires OperandsPrecede(p.values)
  {
    id < |p.values| && SlotFree(NormOf(num, p.values, id))
  }

  /** They name none where no difference of powers is taken over an applied delta. */
  lemma PortableIsEnough(num: NumberFormat, p: Program)
    requires V.Valid(p) && OperandsPrecede(p.values) && Portable(p.values)
    ensures PortableResults(num, p)
  {
    NormSlotFree(num, p.values, p.reference);
    NormSlotFree(num, p.values, p.calibration.correction);
    forall i | 0 <= i < |p.assertions| ensures PortableText(num, p, p.assertions[i].value) {
      assert V.ValidAssertion(p, i);
      NormSlotFree(num, p.values, p.assertions[i].value);
    }
  }

  /** Every assertion of one program has a counterpart of the same text in the other. */
  lemma Counterpart(num: NumberFormat, p: Program, q: Program, i: nat) returns (j: nat)
    requires OperandsPrecede(p.values) && OperandsPrecede(q.values) && Matches(num, p, q) && i < |p.assertions|
    ensures j < |q.assertions|
    ensures Identity(num, p.values, p.assertions[i].value) == Identity(num, q.values, q.assertions[j].value)
  {
    var s, t := AssertionTexts(num, p, |p.assertions|).value, AssertionTexts(num, q, |q.assertions|).value;
    SortDecides(s, t);
    assert s[i] in multiset(t);
    j :| 0 <= j < |t| && t[j] == s[i];
  }

  lemma SameAssertionCount(num: NumberFormat, p: Program, q: Program)
    requires OperandsPrecede(p.values) && OperandsPrecede(q.values) && Matches(num, p, q)
    ensures |p.assertions| == |q.assertions|
  {
    var s, t := AssertionTexts(num, p, |p.assertions|).value, AssertionTexts(num, q, |q.assertions|).value;
    SortPermutes(s);
    SortPermutes(t);
  }

  predicate AllHold(p: Program, filled: seq<Value>) {
    forall i :: 0 <= i < |p.assertions| ==>
      p.assertions[i].value < |filled| && filled[p.assertions[i].value] == Truth(true)
  }

  /** Assertions of one text have one verdict. */
  lemma VerdictShared(num: NumberFormat, p: Program, q: Program, i: nat, j: nat, s: Point, t: Point,
                      filled: seq<Value>, other: seq<Value>, rho: Readings)
    requires Faithful(num, p.values) && Faithful(num, q.values) && V.ValidAssertions(p) && V.ValidAssertions(q)
    requires Evaluated(p.values, s, filled, rho) && Evaluated(q.values, t, other, rho)
    requires s.coordinates == t.coordinates && PortableResults(num, p) && i < |p.assertions| && j < |q.assertions|
    requires Identity(num, p.values, p.assertions[i].value) == Identity(num, q.values, q.assertions[j].value)
    ensures p.assertions[i].value < |filled| && q.assertions[j].value < |other|
    ensures filled[p.assertions[i].value] == other[q.assertions[j].value]
  {
    assert V.ValidAssertion(p, i) && V.ValidAssertion(q, j) && PortableText(num, p, p.assertions[i].value);
    SameTextAcrossPrograms(num, p.values, p.assertions[i].value, q.values, q.assertions[j].value, s, t, filled, other,
      rho);
  }

  lemma VerdictsTransfer(num: NumberFormat, p: Program, q: Program, s: Point, t: Point, filled: seq<Value>,
                         other: seq<Value>, rho: Readings)
    requires Faithful(num, p.values) && Faithful(num, q.values) && V.Valid(p) && V.Valid(q)
    requires Evaluated(p.values, s, filled, rho) && Evaluated(q.values, t, other, rho)
    requires s.coordinates == t.coordinates && PortableResults(num, p) && Matches(num, p, q)
    ensures AllHold(q, other) ==> AllHold(p, filled)
    ensures AllHold(p, filled) ==> AllHold(q, other)
  {
    if AllHold(q, other) {
      forall i | 0 <= i < |p.assertions|
        ensures p.assertions[i].value < |filled| && filled[p.assertions[i].value] == Truth(true)
      {
        var j := Counterpart(num, p, q, i);
        VerdictShared(num, p, q, i, j, s, t, filled, other, rho);
      }
    }
    if AllHold(p, filled) {
      forall j | 0 <= j < |q.assertions|
        ensures q.assertions[j].value < |other| && other[q.assertions[j].value] == Truth(true)
      {
        var i := Counterpart(num, q, p, j);
        VerdictShared(num, p, q, i, j, s, t, filled, other, rho);
      }
    }
  }

  // ----- The theorem -----

  /** Two programs qualify a point alike: same reference, same correction, same verdict. */
  predicate SameResults(p: Program, q: Program, filled: seq<Value>, other: seq<Value>) {
    && p.reference < |filled| && q.reference < |other| && filled[p.reference] == other[q.reference]
    && p.calibration.correction < |filled| && q.calibration.correction < |other|
    && filled[p.calibration.correction] == other[q.calibration.correction]
    && |p.assertions| == |q.assertions|
    && (AllHold(p, filled) <==> AllHold(q, other))
  }

  /** Two points, one for each program, with the same coordinates and the same reading per operation. */
  predicate SamePoint(p: Program, q: Program, s: Point, t: Point, rho: Readings) {
    PointFits(p, s) && PointFits(q, t) && s.coordinates == t.coordinates && Reads(p, s, rho) && Reads(q, t, rho)
  }

  predicate AgreeAt(p: Program, q: Program, s: Point, t: Point) {
    Fold(p.values, s).Some? && Fold(q.values, t).Some?
      && SameResults(p, q, Fold(p.values, s).value, Fold(q.values, t).value)
  }

  /** A match is sound: two valid programs that match sweep the same grid, and at every point of
      it, with one reading per operation, they have the same reference, the same correction and
      the same pass or fail status. The texts of one of them must name no slot. */
  lemma MatchIsSound(num: NumberFormat, p: Program, q: Program)
    requires Faithful(num, p.values) && Faithful(num, q.values) && V.Valid(p) && V.Valid(q) && LegacyAgrees(p)
      && LegacyAgrees(q)
    requires OperandsPrecede(p.values) && OperandsPrecede(q.values)
    requires PortableResults(num, p) && Matches(num, p, q)
    ensures C.Plans(p) == C.Plans(q)
    ensures forall s, t, rho | SamePoint(p, q, s, t, rho) :: AgreeAt(p, q, s, t)
  {
    MatchedGrids(num, p, q);
    forall s, t, rho | SamePoint(p, q, s, t, rho) ensures AgreeAt(p, q, s, t) {
      MatchAtPoint(num, p, q, s, t, rho);
    }
  }

  lemma MatchedGrids(num: NumberFormat, p: Program, q: Program)
    requires V.Valid(p) && V.Valid(q) && LegacyAgrees(p) && LegacyAgrees(q)
    requires OperandsPrecede(p.values) && OperandsPrecede(q.values) && Matches(num, p, q)
    ensures C.Plans(p) == C.Plans(q)
  {
    SamePlans(p, q);
    SameTotals(p, q, |p.sweeps|);
  }

  lemma MatchAtPoint(num: NumberFormat, p: Program, q: Program, s: Point, t: Point, rho: Readings)
    requires Faithful(num, p.values) && Faithful(num, q.values) && V.Valid(p) && V.Valid(q)
    requires OperandsPrecede(p.values) && OperandsPrecede(q.values)
    requires PortableResults(num, p) && Matches(num, p, q)
    requires SamePoint(p, q, s, t, rho)
    ensures AgreeAt(p, q, s, t)
  {
    EvaluationSolves(p, s, rho);
    EvaluationSolves(q, t, rho);
    var filled, other := Fold(p.values, s).value, Fold(q.values, t).value;
    SameTextAcrossPrograms(num, p.values, p.reference, q.values, q.reference, s, t, filled, other, rho);
    SameTextAcrossPrograms(num, p.values, p.calibration.correction, q.values, q.calibration.correction, s, t, filled,
      other, rho);
    SameAssertionCount(num, p, q);
    VerdictsTransfer(num, p, q, s, t, filled, other, rho);
  }

  /** The status of a sample is that of its verdicts. */
  lemma SameStatus(p: Program, q: Program, coordinates: seq<Coordinate>, filled: seq<Value>, other: seq<Value>)
    requires SameResults(p, q, filled, other)
    requires C.ReadSample(p, coordinates, filled).Some? && C.ReadSample(q, coordinates, other).Some?
    ensures var x, y := C.ReadSample(p, coordinates, filled).value, C.ReadSample(q, coordinates, other).value;
      x.status == y.status && x.correction == y.correction && x.reference == y.reference
  {
    StatusIsVerdict(p, coordinates, filled);
    StatusIsVerdict(q, coordinates, other);
  }

  lemma StatusIsVerdict(p: Program, coordinates: seq<Coordinate>, filled: seq<Value>)
    requires C.ReadSample(p, coordinates, filled).Some?
    ensures var status := C.ReadSample(p, coordinates, filled).value.status;
      && (status == C.NotEvaluated <==> p.assertions == [])
      && (status == C.Pass <==> p.assertions != [] && AllHold(p, filled))
  {
    var sample := C.ReadSample(p, coordinates, filled).value;
    forall i | 0 <= i < |p.assertions|
      ensures p.assertions[i].value < |filled|
      ensures sample.assertions[i].passed <==> filled[p.assertions[i].value] == Truth(true)
    {
      assert C.Judge(p.assertions[i], coordinates, filled) == Some(sample.assertions[i]);
    }
  }

  // ----- Scripts -----

  lemma CompiledLegacyAgrees(program: Ast.Program)
    requires Ast.GrammaticalProgram(program) && Compiled(program).Some?
    ensures LegacyAgrees(Compiled(program).value)
  {
    var p, q := Analyze(program).value, Compiled(program).value;
    AnalyzerIsSound(program);
    LoweringIsFaithful(p);
    var symbols :| Implements(p, q, symbols);
    if |q.sweeps| == 1 && q.sweeps[0].dimension == FrequencyAxis {
      assert q.sweeps[0] == LoweredSweep(p, 0) && LastFrequency(p, 0, 1);
    }
  }

  /** Two scripts that compile, run and match have the same grid and, at every point of it with one
      reading per operation, samples of the same correction and status. */
  lemma MatchingScriptsAgree(num: NumberFormat, a: Ast.Program, b: Ast.Program, s: Point, t: Point, rho: Readings)
    requires Ast.GrammaticalProgram(a) && Ast.GrammaticalProgram(b)
    requires Compiled(a).Some? && Ast.SweepsPrecedeCalibration(a.statements)
    requires Compiled(b).Some? && Ast.SweepsPrecedeCalibration(b.statements)
    requires Faithful(num, Compiled(a).value.values) && Faithful(num, Compiled(b).value.values)
    requires OperandsPrecede(Compiled(a).value.values) && OperandsPrecede(Compiled(b).value.values)
    requires PortableResults(num, Compiled(a).value) && Matches(num, Compiled(a).value, Compiled(b).value)
    requires SamePoint(Compiled(a).value, Compiled(b).value, s, t, rho)
    ensures C.Plans(Compiled(a).value) == C.Plans(Compiled(b).value)
    ensures exists x, y ::
      && Sampling.SampledWith(Compiled(a).value, s, x) && Sampling.SampledWith(Compiled(b).value, t, y)
      && x.status == y.status && x.correction == y.correction && x.reference == y.reference
  {
    var p, q := Compiled(a).value, Compiled(b).value;
    PipelineCloses(a);
    PipelineCloses(b);
    CompiledLegacyAgrees(a);
    CompiledLegacyAgrees(b);
    MatchedGrids(num, p, q);
    MatchAtPoint(num, p, q, s, t, rho);
    TypeSoundness(p, s);
    TypeSoundness(q, t);
    Sampling.SampleReads(p, s.coordinates, Fold(p.values, s).value);
    Sampling.SampleReads(q, t.coordinates, Fold(q.values, t).value);
    SameStatus(p, q, s.coordinates, Fold(p.values, s).value, Fold(q.values, t).value);
    var x, y := C.ReadSample(p, s.coordinates, Fold(p.values, s).value).value,
                C.ReadSample(q, t.coordinates, Fold(q.values, t).value).value;
    assert Sampling.SampledWith(p, s, x) && Sampling.SampledWith(q, t, y);
  }

  // ----- Why the hypothesis is needed -----

  /** The correction (power + c) - reference. */
  function Shifted(c: real): Program {
    var values := [
      Slot(0, Power, ReferencePower(0.0)), Slot(1, Frequency, SweepValue(FrequencyAxis)),
      Slot(2, Power, Measure(MeasurePower)), Slot(3, PowerDelta, Constant(Quantity(PowerDelta, c))),
      Slot(4, Power, ApplyPowerDelta(2, 3)), Slot(5, PowerDelta, PowerDifference(4, 0))];
    Program("shifted", 0, LegacySweep(1, 1.0, 1.0, 1.0), [Gaps.HertzSweep(1)], 1, 2,
            [Measurement("power", MeasurePower, 2, Power, true)], values, [], [],
            Calibration("c", 5, [1], [Frequency], PowerDelta))
  }

  lemma OnlyFourCounted(c: real, family: V.Family)
    ensures var v := Shifted(c).values; V.Count(v, family) == V.Count([v[0], v[1], v[2], v[3]], family)
  {
    var v := Shifted(c).values;
    assert v == [v[0], v[1], v[2], v[3]] + [v[4]] + [v[5]];
    R.CountAppend([v[0], v[1], v[2], v[3]] + [v[4]], v[5], family);
    R.CountAppend([v[0], v[1], v[2], v[3]], v[4], family);
  }

  lemma ShiftedIsValid(c: real)
    ensures V.Valid(Shifted(c)) && Ordered(Shifted(c)) && OperandsPrecede(Shifted(c).values)
  {
    var p := Shifted(c);
    var v := p.values;
    OnlyFourCounted(c, V.References);
    OnlyFourCounted(c, V.Sweeps);
    OnlyFourCounted(c, V.Measurements);
    Gaps.CountsOfFour(v[0], v[1], v[2], v[3], V.References);
    Gaps.CountsOfFour(v[0], v[1], v[2], v[3], V.Sweeps);
    Gaps.CountsOfFour(v[0], v[1], v[2], v[3], V.Measurements);
    Gaps.OnePoint(p.sweeps);
    assert p.sweeps[..0] == [] && V.AxisCount(p.sweeps[..0], FrequencyAxis) ==
      V.AxisCount(p.sweeps[..0], TemperatureAxis) == 0;
    forall i | 0 <= i < 6 ensures V.ValidSlot(v, i) {}
    ValidOperandsPrecede(v);
  }

  /** The normal form of the correction names the slot of the applied delta, not what it holds. */
  lemma ShiftedCorrectionText(num: NumberFormat, c: real, d: real)
    requires OperandsPrecede(Shifted(c).values) && OperandsPrecede(Shifted(d).values)
    ensures NormOf(num, Shifted(c).values, 5) == NormOf(num, Shifted(d).values, 5)
    ensures NormOf(num, Shifted(c).values, 0) == NormOf(num, Shifted(d).values, 0)
  {
    var p, q := Shifted(c), Shifted(d);
    assert LinearOf(num, p.values, 4) == LinearOf(num, q.values, 4) == More(1, Atom(Power, SlotLeaf(4)), NoTerms);
    assert LinearOf(num, p.values, 0) == LinearOf(num, q.values, 0) ==
      More(1, Atom(Power, ReferenceLeaf(0.0)), NoTerms);
  }

  lemma ShiftedNamesSlot(num: NumberFormat, c: real)
    requires OperandsPrecede(Shifted(c).values)
    ensures !SlotFree(NormOf(num, Shifted(c).values, 5))
  {
    var v, slot, reference := Shifted(c).values, Atom(Power, SlotLeaf(4)), Atom(Power, ReferenceLeaf(0.0));
    assert Render(num, slot)[6] == 'v' && Render(num, reference)[6] == 'r';
    var kept := More(1, slot, NoTerms);
    assert LinearOf(num, v, 4) == kept && LinearOf(num, v, 0) == More(1, reference, NoTerms);
    assert LinearOf(num, v, 5) == AddScaled(num, kept, More(1, reference, NoTerms), -1);
    assert LinearOf(num, v, 5) == Accumulate(num, kept, reference, -1);
    assert !TermsSlotFree(Accumulate(num, kept, reference, -1));
    assert NormOf(num, v, 5) == Linear(LinearOf(num, v, 5));
  }

  lemma ShiftedLooksAlike(num: NumberFormat, c: real, d: real)
    requires OperandsPrecede(Shifted(c).values) && OperandsPrecede(Shifted(d).values)
    ensures Matches(num, Shifted(c), Shifted(d))
  {
    ShiftedCorrectionText(num, c, d);
    var p, q := Shifted(c), Shifted(d);
    assert MeasurementTexts(p, 0) == MeasurementTexts(q, 0) && MeasurementTexts(p, 1) == MeasurementTexts(q, 1);
    assert IndexTexts(p, 0) == IndexTexts(q, 0) && IndexTexts(p, 1) == IndexTexts(q, 1);
    assert SweepKeys(p) == SweepKeys(q);
  }

  /** Corrections over an applied delta match although they differ at every point: the corrections
      (power + c) - reference and (power + d) - reference are d - c apart. */
  lemma MatchOverAppliedDeltaIsUnsound(num: NumberFormat, c: real, d: real, point: Point)
    requires PointFits(Shifted(c), point)
    ensures V.Valid(Shifted(c)) && V.Valid(Shifted(d)) && PointFits(Shifted(d), point)
    ensures OperandsPrecede(Shifted(c).values) && OperandsPrecede(Shifted(d).values)
    ensures Matches(num, Shifted(c), Shifted(d)) && !PortableResults(num, Shifted(c))
    ensures CorrectionOf(Shifted(d), point) - CorrectionOf(Shifted(c), point) == d - c
  {
    ShiftedIsValid(c);
    ShiftedIsValid(d);
    ShiftedLooksAlike(num, c, d);
    ShiftedNamesSlot(num, c);
    ShiftedCorrection(c, point);
    ShiftedCorrection(d, point);
  }

  function CorrectionOf(p: Program, point: Point): real {
    var filled := Fold(p.values, point);
    if filled.Some? && p.calibration.correction < |filled.value| && filled.value[p.calibration.correction].Quantity?
    then filled.value[p.calibration.correction].amount else 0.0
  }

  lemma ShiftedCorrection(c: real, point: Point)
    requires PointFits(Shifted(c), point)
    ensures CorrectionOf(Shifted(c), point) == point.readings[0] + c
  {
    var p := Shifted(c);
    ShiftedIsValid(c);
    TypeSoundness(p, point);
    var v, filled := p.values, Fold(p.values, point).value;
    FoldSlot(v, 0, point);
    FoldSlot(v, 2, point);
    FoldSlot(v, 3, point);
    FoldSlot(v, 4, point);
    FoldSlot(v, 5, point);
    assert v[..2] == [] + [v[0]] + [v[1]];
    MeasureCountAppend([], v[0]);
    MeasureCountAppend([] + [v[0]], v[1]);
    assert filled[2] == Quantity(Power, point.readings[0]);
  }
}
