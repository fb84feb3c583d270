/** Facts projected from a program, and requirements verified against them. */
module Requirements {
  import opened Domain
  import opened Text
  import opened Ir
  import opened Points
  import opened Evaluator
  import opened NormalForms
  import opened LinearForms
  import opened Normalizing
  import opened NormalMeaning
  import opened NormalSemantics
  import opened LoweringPass
  import opened LoweringCorrectness
  import opened LoweredPrograms
  import Comparing
  import Lowering
  import Sampling
  import Soundness
  import V = Validator
  import S = Semantic

  datatype SweepFact = SweepFact(dimension: Axis, start: Scalar, end: Scalar, step: Scalar, pointCount: nat, order: nat)
  datatype MeasurementFact = MeasurementFact(name: string, operation: MeasurementOperation, typ: ValueType,
                                             legacy: bool)
  datatype DerivedFact = DerivedFact(name: string, typ: ValueType, expression: string)
  datatype AssertionFact = AssertionFact(ordinal: nat, op: ComparisonOperator, operandType: ValueType, left: string,
                                         right: string)
  datatype CalibrationFact = CalibrationFact(name: string, correction: string, indexes: seq<Axis>)

  datatype Facts = Facts(
    referencePower: real, sweeps: seq<SweepFact>, measurements: seq<MeasurementFact>, derived: seq<DerivedFact>,
    assertions: seq<AssertionFact>, calibration: CalibrationFact)

  // ----- Projection -----

  function SweepFacts(p: Program, n: nat): seq<SweepFact>
    requires n <= |p.sweeps|
  {
    if n == 0 then []
    else
      var s := p.sweeps[n - 1];
      SweepFacts(p, n - 1) + [SweepFact(s.dimension, s.start, s.end, s.step, s.pointCount, n - 1)]
  }

  function MeasurementFacts(p: Program, n: nat): seq<MeasurementFact>
    requires n <= |p.measurements|
  {
    if n == 0 then []
    else
      var m := p.measurements[n - 1];
      MeasurementFacts(p, n - 1) + [MeasurementFact(m.name, m.operation, m.typ, m.legacy)]
  }

  function DerivedFacts(num: NumberFormat, p: Program, n: nat): Option<seq<DerivedFact>>
    requires OperandsPrecede(p.values) && n <= |p.namedValues|
  {
    if n == 0 then Some([])
    else
      var before, named := DerivedFacts(num, p, n - 1), p.namedValues[n - 1];
      var text := Identity(num, p.values, named.value);
      if before.None? || text.None? then None
      else Some(before.value + [DerivedFact(named.name, named.typ, text.value)])
  }

  function AssertionFacts(num: NumberFormat, p: Program, n: nat): Option<seq<AssertionFact>>
    requires OperandsPrecede(p.values) && n <= |p.assertions|
  {
    if n == 0 then Some([])
    else
      var before, a := AssertionFacts(num, p, n - 1), p.assertions[n - 1];
      var left, right := Identity(num, p.values, a.left), Identity(num, p.values, a.right);
      if before.None? || left.None? || right.None? then None
      else Some(before.value + [AssertionFact(a.ordinal, a.op, a.operandType, left.value, right.value)])
  }

  function IndexFacts(p: Program, n: nat): Option<seq<Axis>>
    requires n <= |p.calibration.indexes|
  {
    if n == 0 then Some([])
    else
      var before, sweep := IndexFacts(p, n - 1), Comparing.SweepAt(p.sweeps, p.calibration.indexes[n - 1]);
      if before.None? || sweep.None? then None else Some(before.value + [sweep.value.dimension])
  }

  function FactsOf(num: NumberFormat, p: Program): Option<Facts>
    requires OperandsPrecede(p.values)
  {
    if p.reference >= |p.values| || !p.values[p.reference].definition.ReferencePower? then None
    else
      var derived, assertions := DerivedFacts(num, p, |p.namedValues|), AssertionFacts(num, p, |p.assertions|);
      var correction, indexes :=
        Identity(num, p.values, p.calibration.correction), IndexFacts(p, |p.calibration.indexes|);
      if derived.None? || assertions.None? || correction.None? || indexes.None? then None
      else Some(Facts(
        p.values[p.reference].definition.dbm, SweepFacts(p, |p.sweeps|), MeasurementFacts(p, |p.measurements|),
        derived.value, assertions.value, CalibrationFact(p.calibration.name, correction.value, indexes.value)))
  }

  method ProjectProgramFacts(num: NumberFormat, p: Program) returns (facts: Option<Facts>)
    requires OperandsPrecede(p.values)
    ensures facts == FactsOf(num, p)
  {
    if p.reference >= |p.values| || !p.values[p.reference].definition.ReferencePower? { return None; }
    var derived := ProjectDerived(num, p);
    if derived.None? { return None; }
    var assertions := ProjectAssertions(num, p);
    if assertions.None? { return None; }
    var correction := NormalizeExpression(p.values, num, p.calibration.correction);
    if correction.None? { return None; }
    var indexes := ProjectIndexes(p);
    if indexes.None? { return None; }
    facts := Some(Facts(
      p.values[p.reference].definition.dbm, SweepFacts(p, |p.sweeps|), MeasurementFacts(p, |p.measurements|),
      derived.value, assertions.value, CalibrationFact(p.calibration.name, correction.value, indexes.value)));
  }

  method ProjectDerived(num: NumberFormat, p: Program) returns (facts: Option<seq<DerivedFact>>)
    requires OperandsPrecede(p.values)
    ensures facts == DerivedFacts(num, p, |p.namedValues|)
  {
    var list: seq<DerivedFact> := [];
    for i := 0 to |p.namedValues|
      invariant DerivedFacts(num, p, i) == Some(list)
    {
      var named := p.namedValues[i];
      var text := NormalizeExpression(p.values, num, named.value);
      if text.None? {
        DerivedStops(num, p, i + 1, |p.namedValues|);
        return None;
      }
      list := list + [DerivedFact(named.name, named.typ, text.value)];
    }
    facts := Some(list);
  }

  lemma {:induction false} DerivedStops(num: NumberFormat, p: Program, m: nat, n: nat)
    requires OperandsPrecede(p.values) && m <= n <= |p.namedValues| && DerivedFacts(num, p, m).None?
    ensures DerivedFacts(num, p, n).None?
    decreases n
  {
    if m < n { DerivedStops(num, p, m, n - 1); }
  }

  method ProjectAssertions(num: NumberFormat, p: Program) returns (facts: Option<seq<AssertionFact>>)
    requires OperandsPrecede(p.values)
    ensures facts == AssertionFacts(num, p, |p.assertions|)
  {
    var list: seq<AssertionFact> := [];
    for i := 0 to |p.assertions|
      invariant AssertionFacts(num, p, i) == Some(list)
    {
      var a := p.assertions[i];
      var left := NormalizeExpression(p.values, num, a.left);
      var right := NormalizeExpression(p.values, num, a.right);
      if left.None? || right.None? {
        AssertionsStop(num, p, i + 1, |p.assertions|);
        return None;
      }
      list := list + [AssertionFact(a.ordinal, a.op, a.operandType, left.value, right.value)];
    }
    facts := Some(list);
  }

  lemma AssertionsStopNext(num: NumberFormat, p: Program, n: nat)
    requires OperandsPrecede(p.values) && n < |p.assertions| && AssertionFacts(num, p, n).None?
    ensures AssertionFacts(num, p, n + 1).None?
  {
  }

  lemma {:induction false} StaysNone<T>(f: nat -> Option<T>, m: nat, n: nat)
    requires m <= n && f(m).None? && forall k | m <= k < n && f(k).None? :: f(k + 1).None?
    ensures f(n).None?
    decreases n
  {
    if m < n { StaysNone(f, m, n - 1); }
  }

  lemma AssertionsStop(num: NumberFormat, p: Program, m: nat, n: nat)
    requires OperandsPrecede(p.values) && m <= n <= |p.assertions| && AssertionFacts(num, p, m).None?
    ensures AssertionFacts(num, p, n).None?
  {
    var f := (k: nat) => if k <= |p.assertions| then AssertionFacts(num, p, k) else None;
    forall k | m <= k < n && f(k).None? ensures f(k + 1).None? { AssertionsStopNext(num, p, k); }
    StaysNone(f, m, n);
  }

  method ProjectIndexes(p: Program) returns (indexes: Option<seq<Axis>>)
    ensures indexes == IndexFacts(p, |p.calibration.indexes|)
  {
    var list: seq<Axis> := [];
    for i := 0 to |p.calibration.indexes|
      invariant IndexFacts(p, i) == Some(list)
    {
      var sweep := Comparing.FindSweep(p.sweeps, p.calibration.indexes[i]);
      if sweep.None? {
        IndexesStop(p, i + 1, |p.calibration.indexes|);
        return None;
      }
      list := list + [sweep.value.dimension];
    }
    indexes := Some(list);
  }

  lemma {:induction false} IndexesStop(p: Program, m: nat, n: nat)
    requires m <= n <= |p.calibration.indexes| && IndexFacts(p, m).None?
    ensures IndexFacts(p, n).None?
    decreases n
  {
    if m < n { IndexesStop(p, m, n - 1); }
  }

  // ----- Projection succeeds on every lowered program -----

  lemma {:induction false} DerivedExist(num: NumberFormat, p: Program, n: nat)
    requires OperandsPrecede(p.values) && V.ValidNamedValues(p) && n <= |p.namedValues|
    ensures DerivedFacts(num, p, n).Some?
  {
    if n > 0 {
      DerivedExist(num, p, n - 1);
      assert p.namedValues[n - 1] in p.namedValues;
    }
  }

  lemma {:induction false} AssertionsExist(num: NumberFormat, p: Program, n: nat)
    requires OperandsPrecede(p.values) && V.ValidDefinitions(p.values) && V.ValidAssertions(p) && n <= |p.assertions|
    ensures AssertionFacts(num, p, n).Some?
  {
    if n > 0 {
      AssertionsExist(num, p, n - 1);
      assert V.ValidAssertion(p, n - 1);
      Sampling.ComparisonIsTyped(p.values, p.assertions[n - 1].value);
    }
  }

  lemma {:induction false} SweepFound(sweeps: seq<TypedSweep>, i: nat)
    requires i < |sweeps|
    ensures Comparing.SweepAt(sweeps, sweeps[i].value).Some?
  {
    if sweeps[0].value != sweeps[i].value { SweepFound(sweeps[1..], i - 1); }
  }

  lemma {:induction false} IndexesExist(p: Program, n: nat)
    requires n <= |p.calibration.indexes| && IndexesAreSweeps(p)
    ensures IndexFacts(p, n).Some?
  {
    if n > 0 {
      IndexesExist(p, n - 1);
      SweepFound(p.sweeps, n - 1);
    }
  }

  /** Normalization is total on lowered programs, so their facts are always projected, even when a
      late sweep makes the validator reject them. */
  lemma LoweredFactsExist(num: NumberFormat, p: S.Program)
    requires S.WellFormed(p) && LowerProgram(p).Some?
    ensures OperandsPrecede(LowerProgram(p).value.values) && FactsOf(num, LowerProgram(p).value).Some?
  {
    LoweredProgramsValidate(p);
    LoweringIsFaithful(p);
    var q := LowerProgram(p).value;
    var symbols :| Implements(p, q, symbols);
    ValidOperandsPrecede(q.values);
    IndexesNameSweeps(p, q, symbols);
    ValidFactsExist(num, q);
  }

  /** The calibration lists the slots of the leading sweeps. */
  predicate IndexesAreSweeps(p: Program) {
    |p.calibration.indexes| <= |p.sweeps| && forall i :: 0 <= i < |p.calibration.indexes| ==>
      p.calibration.indexes[i] == p.sweeps[i].value
  }

  lemma IndexesNameSweeps(p: S.Program, q: Program, symbols: map<S.SymbolId, Lowering.Binding>)
    requires S.WellFormed(p) && Implements(p, q, symbols)
    ensures IndexesAreSweeps(q)
  {
    assert forall i :: 0 <= i < |p.sweeps| ==> q.sweeps[i] == LoweredSweep(p, i);
  }

  lemma ValidFactsExist(num: NumberFormat, p: Program)
    requires OperandsPrecede(p.values) && V.ValidDefinitions(p.values) && V.ValidNamedValues(p) && V.ValidAssertions(p)
    requires IndexesAreSweeps(p) && p.calibration.correction < |p.values|
    requires p.reference < |p.values| && p.values[p.reference].definition.ReferencePower?
    ensures FactsOf(num, p).Some?
  {
    DerivedExist(num, p, |p.namedValues|);
    AssertionsExist(num, p, |p.assertions|);
    IndexesExist(p, |p.calibration.indexes|);
  }

  // ----- Requirements -----

  datatype Kind = ReferencePowerKind | SweepKind | MeasurementKind | AssertionKind | CalibrationKind

  datatype Relation = ReferenceMinusMeasured | MeasuredMinusReference

  datatype Requirement = Requirement(
    kind: Kind, referencePower: Option<real>, sweep: Option<SweepFact>, measurement: Option<MeasurementFact>,
    assertion: Option<AssertionFact>, calibration: Option<CalibrationFact>, relation: Option<Relation>,
    constrainSweepStep: bool, constrainSweepBounds: bool, constrainSweepOrder: bool, constrainMeasurementName: bool,
    constrainAssertionLeft: bool, constrainCorrection: bool, constrainIndexes: bool)

  datatype OverallStatus = AllSatisfied | SomeViolated | SomeUnknown | SomeUnsupported | NothingEvaluated

  /** The first sweep fact of a dimension. */
  function SweepOf(sweeps: seq<SweepFact>, dimension: Axis): Option<SweepFact> {
    if |sweeps| == 0 then None
    else if sweeps[0].dimension == dimension then Some(sweeps[0])
    else SweepOf(sweeps[1..], dimension)
  }

  function MeasurementOf(measurements: seq<MeasurementFact>, op: MeasurementOperation): Option<MeasurementFact> {
    if |measurements| == 0 then None
    else if measurements[0].operation == op then Some(measurements[0])
    else MeasurementOf(measurements[1..], op)
  }

  predicate Contains(text: string, part: string) {
    part <= text || (|text| > 0 && Contains(text[1..], part))
  }

  predicate AssertionMatches(r: Requirement, expected: AssertionFact, a: AssertionFact) {
    && a.op == expected.op && a.operandType == expected.operandType && a.right == expected.right
    && (if r.constrainAssertionLeft then a.left == expected.left
        else expected.left != "absolute" || Contains(a.left, "absolute("))
  }

  /** The text of reference minus measured power, or of the converse. */
  function RelationText(num: NumberFormat, relation: Relation, dbm: real): string {
    var k := if relation == ReferenceMinusMeasured then -1 else 1;
    var reference := "Power{reference_power:" + num.text(dbm) + "}";
    "linear(" + IntegerText(k) + "*" + "Power{measure:power}" + "," + IntegerText(-k) + "*" + reference + ")"
  }

  predicate CalibrationMatches(num: NumberFormat, r: Requirement, expected: CalibrationFact, facts: Facts) {
    var correction :=
      if r.relation.Some? then RelationText(num, r.relation.value, facts.referencePower) else expected.correction;
    && (r.constrainCorrection ==> facts.calibration.correction == correction)
    && (r.constrainIndexes ==> facts.calibration.indexes == expected.indexes)
  }

  predicate SweepMatches(r: Requirement, expected: SweepFact, facts: Facts) {
    var found := SweepOf(facts.sweeps, expected.dimension);
    && found.Some?
    && (r.constrainSweepBounds ==> found.value.start == expected.start && found.value.end == expected.end)
    && (r.constrainSweepStep ==> found.value.step == expected.step)
    && (r.constrainSweepOrder ==> found.value.order == expected.order)
  }

  predicate MeasurementMatches(r: Requirement, expected: MeasurementFact, facts: Facts) {
    var found := MeasurementOf(facts.measurements, expected.operation);
    found.Some? && (r.constrainMeasurementName ==> found.value.name == expected.name)
  }

  function StatusFor(holds: bool): OutcomeStatus {
    if holds then Satisfied else Violated
  }

  /** The outcome of one requirement; a clause without its typed fields stays unknown. */
  function Verify(num: NumberFormat, r: Requirement, facts: Facts): OutcomeStatus {
    match r.kind
    case ReferencePowerKind =>
      if r.referencePower.Some? then StatusFor(facts.referencePower == r.referencePower.value) else Unknown
    case SweepKind => if r.sweep.Some? then StatusFor(SweepMatches(r, r.sweep.value, facts)) else Unknown
    case MeasurementKind =>
      if r.measurement.Some? then StatusFor(MeasurementMatches(r, r.measurement.value, facts)) else Unknown
    case AssertionKind =>
      if r.assertion.Some?
      then StatusFor(exists a <- facts.assertions :: AssertionMatches(r, r.assertion.value, a)) else Unknown
    case CalibrationKind =>
      if r.calibration.Some? then StatusFor(CalibrationMatches(num, r, r.calibration.value, facts)) else Unknown
  }

  /** The overall status ranks its outcomes: any violation outweighs any unknown, and only a
      nonempty list of satisfied requirements is satisfied. */
  method VerifyRequirements(num: NumberFormat, requirements: seq<Requirement>, facts: Facts)
    returns (status: OverallStatus, outcomes: seq<OutcomeStatus>)
    ensures |outcomes| == |requirements|
    ensures forall i :: 0 <= i < |requirements| ==> outcomes[i] == Verify(num, requirements[i], facts)
    ensures status == NothingEvaluated <==> requirements == []
    ensures status == SomeViolated <==> Violated in outcomes
    ensures status == SomeUnknown <==> Violated !in outcomes && Unknown in outcomes
    ensures status == AllSatisfied <==> requirements != [] && forall o <- outcomes :: o == Satisfied
    ensures status != SomeUnsupported
  {
    status, outcomes := AllSatisfied, [];
    for i := 0 to |requirements|
      invariant |outcomes| == i
      invariant forall k :: 0 <= k < i ==> outcomes[k] == Verify(num, requirements[k], facts)
      invariant Unsupported !in outcomes && status in {AllSatisfied, SomeViolated, SomeUnknown}
      invariant status == SomeViolated <==> Violated in outcomes
      invariant status == SomeUnknown <==> Violated !in outcomes && Unknown in outcomes
      invariant status == AllSatisfied <==> forall o <- outcomes :: o == Satisfied
    {
      var item := Verify(num, requirements[i], facts);
      if item == Unsupported {
        status := SomeUnsupported;
      } else if item == Violated && status != SomeUnsupported {
        status := SomeViolated;
      } else if item == Unknown && status == AllSatisfied {
        status := SomeUnknown;
      }
      outcomes := outcomes + [item];
    }
    if requirements == [] { status := NothingEvaluated; }
  }

  // ----- What the calibration relation verifies -----

  function MeasuredTerm(): Norm { Atom(Power, MeasureLeaf(MeasurePower)) }

  function ReferenceTerm(dbm: real): Norm { Atom(Power, ReferenceLeaf(dbm)) }

  function RelationTerms(relation: Relation, dbm: real): Terms {
    var k := if relation == ReferenceMinusMeasured then -1 else 1;
    More(k, MeasuredTerm(), More(-k, ReferenceTerm(dbm), NoTerms))
  }

  lemma PrefixKeepsOrder(p: string, x: string, y: string)
    requires Before(x, y)
    ensures Before(p + x, p + y)
  {
    if |p| > 0 {
      PrefixKeepsOrder(p[1..], x, y);
      assert (p + x)[1..] == p[1..] + x && (p + y)[1..] == p[1..] + y;
    } else {
      assert p + x == x && p + y == y;
    }
  }

  lemma RelationIsCanonical(num: NumberFormat, relation: Relation, dbm: real)
    ensures Canonical(num, RelationTerms(relation, dbm))
  {
    var x, y := "measure:power}", "reference_power:" + num.text(dbm) + "}";
    assert x[0] == 'm' && y[0] == 'r';
    PrefixKeepsOrder("Power{", x, y);
    assert Render(num, MeasuredTerm()) == "Power{" + x;
    assert Render(num, ReferenceTerm(dbm)) == "Power{" + y;
  }

  lemma Regroup(l: string, a: string, s: string, m: string, c: string, b: string, r: string, e: string)
    ensures l + a + s + m + c + b + s + r + e == l + (a + s + m + (c + (b + s + r))) + e
  {
    var x, y := a + s + m, b + s + r;
    Chain3(l, a, s, m);
    Chain2(a, s, m);
    assert l + a + s + m == l + x;
    Chain3(l + x + c, b, s, r);
    Chain2(b, s, r);
    assert l + x + c + b + s + r == l + x + c + y;
    Chain2(l + x, c, y);
    Chain2(l, x, c + y);
  }

  lemma MeasuredRenders(num: NumberFormat)
    ensures Render(num, MeasuredTerm()) == "Power{measure:power}"
  {
  }

  lemma ReferenceRenders(num: NumberFormat, dbm: real)
    ensures Render(num, ReferenceTerm(dbm)) == "Power{reference_power:" + num.text(dbm) + "}"
  {
  }

  lemma RelationRenders(num: NumberFormat, relation: Relation, dbm: real)
    ensures RelationText(num, relation, dbm) == Render(num, Linear(RelationTerms(relation, dbm)))
  {
    var k := if relation == ReferenceMinusMeasured then -1 else 1;
    MeasuredRenders(num);
    ReferenceRenders(num, dbm);
    var m, r := Render(num, MeasuredTerm()), Render(num, ReferenceTerm(dbm));
    LastTermRenders(num, -k, ReferenceTerm(dbm));
    Regroup("linear(", IntegerText(k), "*", m, ",", IntegerText(-k), r, ")");
  }

  lemma LastTermRenders(num: NumberFormat, k: int, t: Norm)
    ensures RenderTerms(num, More(k, t, NoTerms)) == IntegerText(k) + "*" + Render(num, t)
  {
    var s := IntegerText(k) + "*" + Render(num, t);
    assert s + "" == s;
  }

  /** What the relation says of the correction, its leaves being unknowns. */
  ghost predicate CorrectionIs(num: NumberFormat, p: Program, relation: Relation, dbm: real)
    requires OperandsPrecede(p.values) && p.calibration.correction < |p.values|
  {
    forall w: Norm -> real ::
      UnderUnknowns(num, p.values, p.calibration.correction, w) ==
      if relation == ReferenceMinusMeasured then w(ReferenceTerm(dbm)) - w(MeasuredTerm())
      else w(MeasuredTerm()) - w(ReferenceTerm(dbm))
  }

  lemma RelationSums(relation: Relation, dbm: real, w: Norm -> real)
    ensures Sum(RelationTerms(relation, dbm), w) ==
      if relation == ReferenceMinusMeasured then w(ReferenceTerm(dbm)) - w(MeasuredTerm())
      else w(MeasuredTerm()) - w(ReferenceTerm(dbm))
  {
    var x, y := MeasuredTerm(), ReferenceTerm(dbm);
    UnitWeights(w, x);
    UnitWeights(w, y);
    if relation == ReferenceMinusMeasured {
      TwoTerms(-1, x, 1, y, Weighted(w));
    } else {
      TwoTerms(1, x, -1, y, Weighted(w));
    }
  }

  lemma TwoTerms(k: int, x: Norm, l: int, y: Norm, f: Weight)
    ensures Total(More(k, x, More(l, y, NoTerms)), f) == f(k, x) + f(l, y)
  {
    assert Total(More(l, y, NoTerms), f) == f(l, y);
  }

  lemma UnitWeights(w: Norm -> real, n: Norm)
    ensures Weighted(w)(1, n) == w(n) && Weighted(w)(-1, n) == -w(n)
  {
  }

  /** A correction has the relation's text exactly when it is that difference of reference and
      measured power, however it is written. */
  lemma RelationIsExact(num: NumberFormat, p: Program, relation: Relation, dbm: real)
    requires Faithful(num, p.values) && dbm in num.numbers && V.Valid(p)
    ensures OperandsPrecede(p.values) && p.calibration.correction < |p.values|
    ensures Identity(num, p.values, p.calibration.correction) == Some(RelationText(num, relation, dbm))
            <==> CorrectionIs(num, p, relation, dbm)
  {
    var id, terms := p.calibration.correction, RelationTerms(relation, dbm);
    RelationRenders(num, relation, dbm);
    RelationIsCanonical(num, relation, dbm);
    assert Writable(num, MeasuredTerm()) && Writable(num, ReferenceTerm(dbm)) && WritableTerms(num, terms.rest.rest);
    DeltaTextIsExact(num, p.values, id, terms);
    CorrectionReads(num, p, relation, dbm);
  }

  lemma CorrectionReads(num: NumberFormat, p: Program, relation: Relation, dbm: real)
    requires OperandsPrecede(p.values) && p.calibration.correction < |p.values|
    ensures CorrectionIs(num, p, relation, dbm) <==>
      ReadsAs(num, p.values, p.calibration.correction, RelationTerms(relation, dbm))
  {
    var id := p.calibration.correction;
    forall w: Norm -> real
      ensures Sum(RelationTerms(relation, dbm), w) ==
        if relation == ReferenceMinusMeasured then w(ReferenceTerm(dbm)) - w(MeasuredTerm())
        else w(MeasuredTerm()) - w(ReferenceTerm(dbm))
    {
      RelationSums(relation, dbm, w);
    }
    if CorrectionIs(num, p, relation, dbm) {
      forall w: Norm -> real ensures UnderUnknowns(num, p.values, id, w) == Sum(RelationTerms(relation, dbm), w) {}
    }
    if ReadsAs(num, p.values, id, RelationTerms(relation, dbm)) {
      forall w: Norm -> real
        ensures UnderUnknowns(num, p.values, id, w) ==
          if relation == ReferenceMinusMeasured then w(ReferenceTerm(dbm)) - w(MeasuredTerm())
          else w(MeasuredTerm()) - w(ReferenceTerm(dbm))
      {
        assert UnderUnknowns(num, p.values, id, w) == Sum(RelationTerms(relation, dbm), w);
      }
    }
  }
}
