/** What the analyzer establishes of every program it accepts. */
module AnalysisCorrectness {
  import opened Domain
  import opened Text
  import opened Ast
  import opened SweepLattice
  import opened Analysis
  import V = Validator
  import S = Semantic

  type Types = map<S.SymbolId, ValueType>

  // ----- The symbols declared so far, and their types -----

  function KnownCount(s: State): nat {
    (if s.reference.Some? then 1 else 0) + |s.sweeps| + |s.measurements| + |s.derived|
  }

  /** The types after a statement that reports nothing: declarations add the next symbol. */
  function StepTypes(s: State, types: Types, statement: Statement): Types {
    match statement
    case ReferenceStatement(_) => types[s.nextSymbol := Power]
    case SweepStatement(dimension, _, _, _) => types[s.nextSymbol := AxisType(DimensionAxis(dimension))]
    case MeasurementStatement(_, operation, _) =>
      var op := OperationNamed(operation);
      if op.Some? then types[s.nextSymbol := ResultType(op.value)] else types
    case DeriveStatement(_, expression) =>
      var x := Elaborate(expression, s.symbols, s.reference);
      if x.Some? then types[s.nextSymbol := x.value.typ] else types
    case AssertionStatement(_) => types
    case CalibrationStatement(_, _, _) => types
  }

  /** The next symbol is new, and no symbol was ever handed out twice. */
  predicate SymbolsDistinct(types: Types, count: nat, next: nat) {
    (forall id <- types :: id < next) && |types| == count
  }

  lemma DeclaringKeepsDistinct(types: Types, count: nat, next: nat, typ: ValueType)
    requires SymbolsDistinct(types, count, next)
    ensures SymbolsDistinct(types[next := typ], count + 1, next + 1) && Extends(types, types[next := typ])
  {
    assert types[next := typ].Keys == types.Keys + {next};
  }

  predicate Has(types: Types, id: S.SymbolId, typ: ValueType) {
    id in types && types[id] == typ
  }

  predicate Extends(types: Types, types': Types) {
    forall id <- types :: Has(types', id, types[id])
  }

  // ----- What the lists satisfy with respect to the known types -----

  /** Every name in scope denotes a symbol of the type it records. */
  predicate ScopeTyped(types: Types, symbols: map<string, Symbol>, reference: Option<Reference>) {
    && (forall name <- symbols :: symbols[name].expressionValue ==> Has(types, symbols[name].id, symbols[name].typ))
    && (forall name <- symbols :: symbols[name].sweep ==> symbols[name].expressionValue)
    && (reference.Some? ==> Has(types, reference.value.symbol, Power))
  }

  predicate SweepsTyped(types: Types, sweeps: seq<S.Sweep>) {
    forall sweep <- sweeps :: Has(types, sweep.symbol, AxisType(sweep.axis))
  }

  predicate DerivedTyped(types: Types, d: S.Derived) {
    && S.Typed(d.expression, types) && d.typ == d.expression.typ
    && forall m <- S.Mentions(d.expression) :: m < d.symbol
  }

  predicate DerivedsTyped(types: Types, derived: seq<S.Derived>, next: nat) {
    && (forall d <- derived :: DerivedTyped(types, d) && d.symbol < next)
    && forall j, k :: 0 <= j < k < |derived| ==> derived[j].symbol < derived[k].symbol
  }

  predicate AssertionTyped(types: Types, a: S.Assertion, i: nat) {
    && S.Typed(a.expression, types) && a.expression.typ == Boolean
    && a.id == "assertion-" + Decimal(i + 1) && a.ordinal == i + 1
  }

  predicate AssertionsTyped(types: Types, assertions: seq<S.Assertion>) {
    forall i :: 0 <= i < |assertions| ==> AssertionTyped(types, assertions[i], i)
  }

  predicate CalibrationTyped(types: Types, sweeps: seq<S.Sweep>, c: S.Calibration) {
    && S.Typed(c.correction, types) && c.correction.typ == c.correctionType == PowerDelta
    && |c.indexes| == |c.indexTypes| <= |sweeps|
    && (forall i :: 0 <= i < |c.indexes| ==>
          c.indexes[i] == sweeps[i].symbol && c.indexTypes[i] == AxisType(sweeps[i].axis))
    && c.symbol !in types
  }

  predicate CalibrationReady(types: Types, sweeps: seq<S.Sweep>, calibration: Option<S.Calibration>, next: nat) {
    calibration.Some? ==> CalibrationTyped(types, sweeps, calibration.value) && calibration.value.symbol < next
  }

  predicate WellTyped(types: Types, s: State) {
    && ScopeTyped(types, s.symbols, s.reference)
    && SweepsTyped(types, s.sweeps)
    && DerivedsTyped(types, s.derived, s.nextSymbol)
    && AssertionsTyped(types, s.assertions)
    && CalibrationReady(types, s.sweeps, s.calibration, s.nextSymbol)
  }

  lemma TypedExtends(e: S.Expression, types: Types, types': Types)
    requires S.Typed(e, types) && Extends(types, types')
    ensures S.Typed(e, types')
  {
    S.TypingIsMonotonic(e, types, types');
  }

  lemma DerivedsExtend(types: Types, types': Types, derived: seq<S.Derived>, next: nat)
    requires DerivedsTyped(types, derived, next) && Extends(types, types')
    ensures DerivedsTyped(types', derived, next)
  {
    forall d <- derived ensures DerivedTyped(types', d) {
      assert DerivedTyped(types, d);
      TypedExtends(d.expression, types, types');
    }
  }

  lemma AssertionsExtend(types: Types, types': Types, assertions: seq<S.Assertion>)
    requires AssertionsTyped(types, assertions) && Extends(types, types')
    ensures AssertionsTyped(types', assertions)
  {
    forall i | 0 <= i < |assertions| ensures AssertionTyped(types', assertions[i], i) {
      assert AssertionTyped(types, assertions[i], i);
      TypedExtends(assertions[i].expression, types, types');
    }
  }

  /** Declaring the next symbol keeps everything typed before it. */
  lemma DeclaringKeepsTyping(s: State, types: Types, typ: ValueType)
    requires WellTyped(types, s) && Extends(types, types[s.nextSymbol := typ])
    ensures WellTyped(types[s.nextSymbol := typ], s)
  {
    var types' := types[s.nextSymbol := typ];
    DerivedsExtend(types, types', s.derived, s.nextSymbol);
    AssertionsExtend(types, types', s.assertions);
    if s.calibration.Some? { TypedExtends(s.calibration.value.correction, types, types'); }
  }

  lemma {:induction false} MentionsTyped(e: S.Expression, types: Types)
    requires S.Typed(e, types)
    ensures forall m <- S.Mentions(e) :: m in types
  {
    match e.node
    case QuantityNode(_) =>
    case SymbolNode(_, _) =>
    case ReferenceNode(_, _) =>
    case NegateNode(operand, _) => MentionsTyped(operand, types);
    case BinaryNode(_, left, right, _) => MentionsTyped(left, types); MentionsTyped(right, types);
    case CallNode(_, argument, _) => MentionsTyped(argument, types);
    case ComparisonNode(_, left, right) => MentionsTyped(left, types); MentionsTyped(right, types);
  }

  /** The elaborated tree is well typed over the symbols in scope. */
  lemma {:induction false} ElaborationIsTyped(e: Expr, symbols: map<string, Symbol>, reference: Option<Reference>,
                                              types: Types)
    requires ScopeTyped(types, symbols, reference)
    ensures var x := Elaborate(e, symbols, reference); x.Some? ==> S.Typed(x.value, types)
  {
    match e
    case QuantityExpr(_) =>
    case IdentifierExpr(_) =>
    case ReferenceExpr(_, _) =>
    case NegateExpr(operand) => ElaborationIsTyped(operand, symbols, reference, types);
    case BinaryExpr(_, left, right) =>
      ElaborationIsTyped(left, symbols, reference, types);
      ElaborationIsTyped(right, symbols, reference, types);
    case CallExpr(_, argument) => ElaborationIsTyped(argument, symbols, reference, types);
    case ComparisonExpr(_, left, right) =>
      ElaborationIsTyped(left, symbols, reference, types);
      ElaborationIsTyped(right, symbols, reference, types);
  }

  // ----- The sweeps and the measurements -----

  predicate PlannedSweep(sweep: S.Sweep) {
    && sweep.step > 0.0 && sweep.start <= sweep.end
    && AxisPointCount(sweep.start, sweep.end, sweep.step) == Some(sweep.pointCount)
  }

  predicate SweepsPlanned(sweeps: seq<S.Sweep>, total: nat) {
    && (forall sweep <- sweeps :: PlannedSweep(sweep))
    && S.PartialProduct(sweeps, |sweeps|) == total <= MAXIMUM_POINTS
  }

  /** The dimensions seen are those of the sweeps, one sweep each. */
  predicate DimensionsSeen(seen: set<string>, sweeps: seq<S.Sweep>, frequency: Option<S.Sweep>) {
    && seen <= {"frequency", "temperature"}
    && (forall sweep <- sweeps :: AxisName(sweep.axis) in seen)
    && (forall i, j :: 0 <= i < j < |sweeps| ==> sweeps[i].axis != sweeps[j].axis)
    && (frequency.Some? ==> frequency.value in sweeps && frequency.value.axis == FrequencyAxis)
  }

  predicate FirstPower(measurements: seq<S.Measurement>, symbol: S.SymbolId, j: nat)
    requires j < |measurements|
  {
    && measurements[j].operation == MeasurePower && measurements[j].symbol == symbol
    && forall k :: 0 <= k < j ==> measurements[k].operation != MeasurePower
  }

  predicate MeasurementsTyped(measurements: seq<S.Measurement>, first: Option<S.SymbolId>) {
    && (forall m <- measurements :: m.name != "" && m.typ == ResultType(m.operation))
    && (first.None? ==> forall m <- measurements :: m.operation != MeasurePower)
    && (first.Some? ==> exists j :: 0 <= j < |measurements| && FirstPower(measurements, first.value, j))
  }

  /** Reserved names are never user names, and every name in scope has one owner. */
  predicate NamesApart(symbols: map<string, Symbol>, userNames: set<string>, seen: set<string>) {
    && userNames !! {"frequency", "temperature", "power", "abs"}
    && forall name <- symbols :: name in userNames || name in seen || name == "power"
  }

  /** The invariant of the pass. */
  predicate Invariant(s: State, types: Types) {
    && SymbolsDistinct(types, KnownCount(s), s.nextSymbol)
    && WellTyped(types, s)
    && SweepsPlanned(s.sweeps, s.totalPointCount)
    && DimensionsSeen(s.seenDimensions, s.sweeps, s.frequencySweep)
    && MeasurementsTyped(s.measurements, s.measurement)
    && NamesApart(s.symbols, s.userNames, s.seenDimensions)
    && Recorded(s)
  }

  // ----- Each statement keeps it -----

  lemma ReferenceKeeps(s: State, types: Types, power: Literal)
    requires Invariant(s, types) && DeclareReference(s, power).Some?
    ensures Invariant(DeclareReference(s, power).value, types[s.nextSymbol := Power])
  {
    DeclaringKeepsDistinct(types, KnownCount(s), s.nextSymbol, Power);
    DeclaringKeepsTyping(s, types, Power);
  }

  lemma {:induction false} ProductOfPrefix(sweeps: seq<S.Sweep>, more: seq<S.Sweep>, n: nat)
    requires n <= |sweeps|
    ensures S.PartialProduct(sweeps + more, n) == S.PartialProduct(sweeps, n)
  {
    if n > 0 { ProductOfPrefix(sweeps, more, n - 1); }
  }

  lemma SweepPlans(sweeps: seq<S.Sweep>, total: nat, sweep: S.Sweep)
    requires SweepsPlanned(sweeps, total) && PlannedSweep(sweep) && total <= MAXIMUM_POINTS / sweep.pointCount
    ensures SweepsPlanned(sweeps + [sweep], total * sweep.pointCount)
  {
    ProductOfPrefix(sweeps, [sweep], |sweeps|);
    V.QuotientTest(total, sweep.pointCount);
  }

  lemma SweepSeen(seen: set<string>, sweeps: seq<S.Sweep>, frequency: Option<S.Sweep>, sweep: S.Sweep)
    requires DimensionsSeen(seen, sweeps, frequency) && AxisName(sweep.axis) !in seen
    ensures DimensionsSeen(seen + {AxisName(sweep.axis)}, sweeps + [sweep],
                           if sweep.axis == FrequencyAxis then Some(sweep) else frequency)
  {
    forall i | 0 <= i < |sweeps| ensures sweeps[i].axis != sweep.axis { assert sweeps[i] in sweeps; }
  }

  lemma SweepKeeps(s: State, types: Types, dimension: string, start: Literal, end: Literal, step: Literal)
    requires Invariant(s, types) && DeclareSweep(s, dimension, start, end, step).Some?
    requires dimension == "frequency" || dimension == "temperature"
    ensures Invariant(DeclareSweep(s, dimension, start, end, step).value,
                      types[s.nextSymbol := AxisType(DimensionAxis(dimension))])
  {
    var t := DeclareSweep(s, dimension, start, end, step).value;
    var axis := DimensionAxis(dimension);
    var sweep := PlannedAxis(axis, start, end, step, s.nextSymbol).value;
    assert dimension == AxisName(axis);
    DeclaringKeepsDistinct(types, KnownCount(s), s.nextSymbol, AxisType(axis));
    DeclaringKeepsTyping(s, types, AxisType(axis));
    SweepPlans(s.sweeps, s.totalPointCount, sweep);
    SweepSeen(s.seenDimensions, s.sweeps, s.frequencySweep, sweep);
    SweepTyping(s, t, types[s.nextSymbol := AxisType(axis)], sweep);
  }

  lemma SweepTyping(s: State, t: State, types: Types, sweep: S.Sweep)
    requires WellTyped(types, s) && Has(types, s.nextSymbol, AxisType(sweep.axis))
    requires sweep.symbol == s.nextSymbol && t.sweeps == s.sweeps + [sweep]
    requires t.symbols == Emplace(s.symbols, AxisName(sweep.axis),
      Symbol(s.nextSymbol, AxisType(sweep.axis), true, true))
    requires t.reference == s.reference && t.derived == s.derived && t.assertions == s.assertions
    requires t.calibration == s.calibration && t.nextSymbol == s.nextSymbol + 1
    ensures WellTyped(types, t)
  {
  }

  lemma MeasurementKeeps(s: State, types: Types, name: string, operation: string, legacy: bool)
    requires Invariant(s, types) && DeclareMeasurement(s, name, operation, legacy).Some?
    requires name != "" && (legacy ==> name == "power")
    ensures Invariant(DeclareMeasurement(s, name, operation, legacy).value,
                      types[s.nextSymbol := ResultType(OperationNamed(operation).value)])
  {
    var typ := ResultType(OperationNamed(operation).value);
    var t := DeclareMeasurement(s, name, operation, legacy).value;
    DeclaringKeepsDistinct(types, KnownCount(s), s.nextSymbol, typ);
    DeclaringKeepsTyping(s, types, typ);
    MeasurementTyping(s.measurements, s.measurement, t.measurements[|s.measurements|]);
    MeasurementScope(s, t, types[s.nextSymbol := typ], name, typ);
  }

  lemma MeasurementScope(s: State, t: State, types: Types, name: string, typ: ValueType)
    requires WellTyped(types, s) && Has(types, s.nextSymbol, typ)
    requires t.symbols == Emplace(s.symbols, name, Symbol(s.nextSymbol, typ, false, true))
    requires t.reference == s.reference && t.sweeps == s.sweeps && t.derived == s.derived
    requires t.assertions == s.assertions && t.calibration == s.calibration && t.nextSymbol == s.nextSymbol + 1
    ensures WellTyped(types, t)
  {
  }

  lemma MeasurementTyping(measurements: seq<S.Measurement>, first: Option<S.SymbolId>, m: S.Measurement)
    requires MeasurementsTyped(measurements, first) && m.name != "" && m.typ == ResultType(m.operation)
    ensures MeasurementsTyped(measurements + [m],
                              if m.operation == MeasurePower && first.None? then Some(m.symbol) else first)
  {
    var all := measurements + [m];
    if first.Some? {
      var j :| 0 <= j < |measurements| && FirstPower(measurements, first.value, j);
      assert FirstPower(all, first.value, j);
    } else if m.operation == MeasurePower {
      assert forall k :: 0 <= k < |measurements| ==> measurements[k] in measurements;
      assert FirstPower(all, m.symbol, |measurements|);
    }
  }

  lemma DerivedKeeps(s: State, types: Types, name: string, expression: Expr)
    requires Invariant(s, types) && DeclareDerived(s, name, expression).Some?
    ensures Invariant(DeclareDerived(s, name, expression).value,
                      types[s.nextSymbol := Elaborate(expression, s.symbols, s.reference).value.typ])
  {
    var t := DeclareDerived(s, name, expression).value;
    var d := t.derived[|s.derived|];
    var types' := types[s.nextSymbol := d.typ];
    ElaborationIsTyped(expression, s.symbols, s.reference, types);
    MentionsTyped(d.expression, types);
    DeclaringKeepsDistinct(types, KnownCount(s), s.nextSymbol, d.typ);
    DeclaringKeepsTyping(s, types, d.typ);
    TypedExtends(d.expression, types, types');
    DerivedTyping(s, t, types', d);
  }

  lemma DerivedTyping(s: State, t: State, types: Types, d: S.Derived)
    requires WellTyped(types, s) && Has(types, s.nextSymbol, d.typ)
    requires DerivedTyped(types, d) && d.symbol == s.nextSymbol
    requires t.derived == s.derived + [d]
    requires t.symbols == Emplace(s.symbols, d.name, Symbol(s.nextSymbol, d.typ, false, true))
    requires t.reference == s.reference && t.sweeps == s.sweeps && t.assertions == s.assertions
    requires t.calibration == s.calibration && t.nextSymbol == s.nextSymbol + 1
    ensures WellTyped(types, t)
  {
  }

  lemma AssertionKeeps(s: State, types: Types, expression: Expr)
    requires Invariant(s, types) && DeclareAssertion(s, expression).Some?
    ensures Invariant(DeclareAssertion(s, expression).value, types)
  {
    ElaborationIsTyped(expression, s.symbols, s.reference, types);
  }

  lemma CalibrationKeeps(s: State, types: Types, name: string, correction: Expr, dimensions: seq<string>)
    requires Invariant(s, types) && DeclareCalibration(s, name, correction, dimensions).Some?
    ensures Invariant(DeclareCalibration(s, name, correction, dimensions).value, types)
  {
    var t := DeclareCalibration(s, name, correction, dimensions).value;
    ElaborationIsTyped(correction, s.symbols, s.reference, types);
    CalibrationIndexTypes(s, types, dimensions);
    assert CalibrationTyped(types, t.sweeps, t.calibration.value);
  }

  lemma CalibrationIndexTypes(s: State, types: Types, dimensions: seq<string>)
    requires ScopeTyped(types, s.symbols, s.reference) && SweepsTyped(types, s.sweeps)
      && ListsSweepsSoFar(s.symbols, s.sweeps, dimensions)
    ensures forall i :: 0 <= i < |dimensions| ==>
      dimensions[i] in s.symbols && s.symbols[dimensions[i]].typ == AxisType(s.sweeps[i].axis)
  {
    forall i | 0 <= i < |dimensions| ensures s.symbols[dimensions[i]].typ == AxisType(s.sweeps[i].axis) {
      assert s.sweeps[i] in s.sweeps;
    }
  }

  lemma StepKeeps(s: State, types: Types, statement: Statement)
    requires Invariant(s, types) && Grammatical(statement) && Step(s, statement).Some?
    ensures Invariant(Step(s, statement).value, StepTypes(s, types, statement))
  {
    match statement
    case ReferenceStatement(power) => ReferenceKeeps(s, types, power);
    case SweepStatement(dimension, start, end, step) => SweepKeeps(s, types, dimension, start, end, step);
    case MeasurementStatement(name, operation, legacy) => MeasurementKeeps(s, types, name, operation, legacy);
    case DeriveStatement(name, expression) => DerivedKeeps(s, types, name, expression);
    case AssertionStatement(expression) => AssertionKeeps(s, types, expression);
    case CalibrationStatement(name, correction, dimensions) => CalibrationKeeps(s, types, name, correction, dimensions);
  }
}
