/** Which scripts the analyzer accepts, stated over their statements and names. */
module Acceptance {
  import opened Domain
  import opened Ast
  import opened SweepLattice
  import opened Analysis
  import opened AnalysisCorrectness
  import opened AnalyzedPrograms
  import opened Declarations
  import S = Semantic
  import V = Validator

  // ----- Types over names -----

  /** The names an expression may use, with their types. */
  type Scope = map<string, ValueType>

  function UnitType(unit: string): Option<Dimension> {
    if unit in {"Hz", "kHz", "MHz", "GHz"} then Some(Frequency)
    else if unit == "dBm" then Some(Power)
    else if unit == "dB" then Some(PowerDelta)
    else if unit == "%" then Some(Ratio)
    else if unit in {"K", "degC"} then Some(Temperature)
    else if unit in {"deltaK", "deltaC"} then Some(TemperatureDelta)
    else None
  }

  /** Lower than any temperature there is. */
  predicate BelowZero(literal: Literal)
    requires literal.number.Parsed?
  {
    || (literal.unit == "K" && literal.number.value < 0.0)
    || (literal.unit == "degC" && literal.number.value < -273.15)
  }

  function LiteralType(literal: Literal): Option<ValueType> {
    if !literal.number.Parsed? || BelowZero(literal) || UnitType(literal.unit).None? then None
    else Some(UnitType(literal.unit).value)
  }

  /** Powers differ by a power delta, which can be added to a power or to another; the other deltas
      are added and subtracted among themselves. */
  function SumType(op: BinaryOperator, left: ValueType, right: ValueType): Option<ValueType> {
    match (left, right)
    case (Power, Power) => if op == Subtract then Some(PowerDelta) else None
    case (Power, PowerDelta) => if op == Add then Some(Power) else None
    case (PowerDelta, PowerDelta) => if op == Add then Some(PowerDelta) else None
    case (FrequencyDelta, FrequencyDelta) => Some(FrequencyDelta)
    case (TemperatureDelta, TemperatureDelta) => Some(TemperatureDelta)
    case (Ratio, Ratio) => Some(Ratio)
    case _ => None
  }

  /** Operands of a comparison have one type that is not Boolean; a literal in a unit of frequency
      may stand against a frequency delta. */
  predicate Comparable(left: Expr, a: ValueType, right: Expr, b: ValueType) {
    || (a == b && a != Boolean)
    || (a == FrequencyDelta && b == Frequency && right.QuantityExpr?)
    || (a == Frequency && b == FrequencyDelta && left.QuantityExpr?)
  }

  /** The type of an expression, None where it has none. */
  function TypeIn(e: Expr, scope: Scope, referenceKnown: bool): Option<ValueType> {
    match e
    case QuantityExpr(literal) => LiteralType(literal)
    case IdentifierExpr(name) => if name in scope then Some(scope[name]) else None
    case ReferenceExpr(object_, member) =>
      if object_ == "reference" && member == "power" && referenceKnown then Some(Power) else None
    case NegateExpr(operand) =>
      var a := TypeIn(operand, scope, referenceKnown);
      if a in {Some(PowerDelta), Some(FrequencyDelta), Some(TemperatureDelta), Some(Ratio)} then a else None
    case BinaryExpr(op, left, right) =>
      var a, b := TypeIn(left, scope, referenceKnown), TypeIn(right, scope, referenceKnown);
      if a.Some? && b.Some? then SumType(op, a.value, b.value) else None
    case CallExpr(f, argument) =>
      var a := TypeIn(argument, scope, referenceKnown);
      if f == "abs" && a in {Some(PowerDelta), Some(FrequencyDelta), Some(TemperatureDelta), Some(Ratio)} then a
      else None
    case ComparisonExpr(_, left, right) =>
      var a, b := TypeIn(left, scope, referenceKnown), TypeIn(right, scope, referenceKnown);
      if a.Some? && b.Some? && Comparable(left, a.value, right, b.value) then Some(Boolean) else None
  }

  /** The symbol table has exactly the names of the scope for expressions, with their types. */
  predicate ScopeIs(symbols: map<string, Symbol>, scope: Scope) {
    && (forall name <- scope ::
          name in symbols && symbols[name].expressionValue && symbols[name].typ == scope[name])
    && forall name <- symbols :: symbols[name].expressionValue ==> name in scope
  }

  function TypeOfTree(x: Option<S.Expression>): Option<ValueType> {
    if x.Some? then Some(x.value.typ) else None
  }

  lemma LiteralIsTyped(literal: Literal)
    ensures LiteralType(literal) ==
      if Convert(literal).Converted? then Some(Convert(literal).quantity.kind) else None
  {
  }

  lemma SumIsTyped(op: BinaryOperator, left: ValueType, right: ValueType)
    ensures SumType(op, left, right).None? <==> S.BinaryResult(op, left, right).None?
    ensures SumType(op, left, right).Some? ==> SumType(op, left, right).value == S.BinaryResult(op, left, right).value
  {
  }

  /** An expression is accepted exactly when it has a type over the names in scope, and its tree has
      that type. */
  lemma {:induction false} TypesDecide(e: Expr, symbols: map<string, Symbol>, reference: Option<Reference>,
                                       scope: Scope)
    requires ScopeIs(symbols, scope)
    ensures TypeOfTree(Elaborate(e, symbols, reference)) == TypeIn(e, scope, reference.Some?)
    ensures Elaborate(e, symbols, reference).Some? ==>
      (Elaborate(e, symbols, reference).value.node.QuantityNode? <==> e.QuantityExpr?)
    decreases e
  {
    match e
    case QuantityExpr(literal) => LiteralIsTyped(literal);
    case IdentifierExpr(_) =>
    case ReferenceExpr(_, _) =>
    case NegateExpr(operand) => TypesDecide(operand, symbols, reference, scope);
    case BinaryExpr(op, left, right) =>
      TypesDecide(left, symbols, reference, scope);
      TypesDecide(right, symbols, reference, scope);
      var a, b := Elaborate(left, symbols, reference), Elaborate(right, symbols, reference);
      if a.Some? && b.Some? { SumIsTyped(op, a.value.typ, b.value.typ); }
    case CallExpr(_, argument) => TypesDecide(argument, symbols, reference, scope);
    case ComparisonExpr(op, left, right) =>
      TypesDecide(left, symbols, reference, scope);
      TypesDecide(right, symbols, reference, scope);
      ComparisonIsTyped(op, left, right, symbols, reference, scope);
  }

  lemma ComparisonIsTyped(op: ComparisonOperator, left: Expr, right: Expr, symbols: map<string, Symbol>,
                          reference: Option<Reference>, scope: Scope)
    requires TypeOfTree(Elaborate(left, symbols, reference)) == TypeIn(left, scope, reference.Some?)
    requires TypeOfTree(Elaborate(right, symbols, reference)) == TypeIn(right, scope, reference.Some?)
    requires Elaborate(left, symbols, reference).Some? ==>
      (Elaborate(left, symbols, reference).value.node.QuantityNode? <==> left.QuantityExpr?)
    requires Elaborate(right, symbols, reference).Some? ==>
      (Elaborate(right, symbols, reference).value.node.QuantityNode? <==> right.QuantityExpr?)
    requires Elaborate(left, symbols, reference).Some? ==> QuantityKind(Elaborate(left, symbols, reference).value)
    requires Elaborate(right, symbols, reference).Some? ==> QuantityKind(Elaborate(right, symbols, reference).value)
    ensures TypeOfTree(Elaborate(ComparisonExpr(op, left, right), symbols, reference))
            == TypeIn(ComparisonExpr(op, left, right), scope, reference.Some?)
  {
  }

  /** A quantity node has the type of its quantity. */
  predicate QuantityKind(x: S.Expression) {
    x.node.QuantityNode? ==> x.node.value.kind == x.typ
  }

  // ----- Statements -----

  /** The name a statement takes for itself, once and for all. */
  predicate Takes(statement: Statement, name: string) {
    match statement
    case MeasurementStatement(own, _, legacy) => own == name && !legacy
    case DeriveStatement(own, _) => own == name
    case CalibrationStatement(own, _, _) => own == name
    case _ => false
  }

  /** The name is not reserved, and none of the first n statements takes it. */
  predicate Fresh(statements: seq<Statement>, n: nat, name: string)
    requires n <= |statements|
  {
    name !in {"frequency", "temperature", "power", "abs"} && forall j :: 0 <= j < n ==> !Takes(statements[j], name)
  }

  function MeasuredType(word: string): Option<ValueType> {
    match word
    case "power" => Some(Power)
    case "evm" => Some(Ratio)
    case "frequency_error" => Some(FrequencyDelta)
    case _ => None
  }

  function Enter(scope: Scope, name: string, typ: Option<ValueType>): Scope {
    if typ.Some? then scope[name := typ.value] else scope
  }

  predicate KindBefore(statements: seq<Statement>, n: nat, kind: StatementKind)
    requires n <= |statements|
  {
    exists j :: 0 <= j < n && KindOf(statements[j]) == kind
  }

  /** The names in scope after n statements: dimensions, measurements and derived quantities. */
  function ScopeAfter(statements: seq<Statement>, n: nat): Scope
    requires n <= |statements|
  {
    if n == 0 then map[]
    else
      var scope := ScopeAfter(statements, n - 1);
      match statements[n - 1]
      case SweepStatement(dimension, _, _, _) =>
        Enter(scope, dimension, Some(if dimension == "frequency" then Frequency else Temperature))
      case MeasurementStatement(name, operation, _) => Enter(scope, name, MeasuredType(operation))
      case DeriveStatement(name, expression) =>
        Enter(scope, name, TypeIn(expression, scope, KindBefore(statements, n - 1, AReference)))
      case _ => scope
  }

  /** How many points the axis of a sweep statement has, none where it is no axis. */
  function PointsOf(statement: Statement): Option<nat>
    requires statement.SweepStatement?
  {
    var axis := if statement.dimension == "frequency" then FrequencyAxis else TemperatureAxis;
    var start, end, step := ReadAs(statement.start, AxisType(axis)), ReadAs(statement.end, AxisType(axis)),
      ReadAs(statement.step, StepType(axis));
    if start.None? || end.None? || step.None? || step.value <= 0.0 || end.value < start.value then None
    else AxisPointCount(start.value, end.value, step.value)
  }

  /** The counts are those of lattices between bounds the statement gives, within the limit. */
  lemma PointsAreLattice(statement: Statement)
    requires statement.SweepStatement? && Grammatical(statement)
    ensures PointsOf(statement).Some? <==>
      exists axis, start, end, step, count: nat ::
        ReadsBounds(statement, axis, start, end, step) && MakesLattice(start, end, step, count)
    ensures forall axis, start, end, step, count: nat ::
      ReadsBounds(statement, axis, start, end, step) && MakesLattice(start, end, step, count) ==>
        PointsOf(statement) == Some(count)
  {
    var axis := if statement.dimension == "frequency" then FrequencyAxis else TemperatureAxis;
    if PointsOf(statement).Some? {
      var start, end, step := ReadAs(statement.start, AxisType(axis)).value,
        ReadAs(statement.end, AxisType(axis)).value, ReadAs(statement.step, StepType(axis)).value;
      CountExact(start, end, step);
      assert ReadsBounds(statement, axis, start, end, step)
             && MakesLattice(start, end, step, PointsOf(statement).value);
    }
    forall axis, start, end, step, count: nat |
      ReadsBounds(statement, axis, start, end, step) && MakesLattice(start, end, step, count)
      ensures PointsOf(statement) == Some(count)
    {
      LatticeIsCounted(start, end, step, count);
    }
  }

  lemma LatticeIsCounted(start: real, end: real, step: real, count: nat)
    requires MakesLattice(start, end, step, count)
    ensures AxisPointCount(start, end, step) == Some(count)
  {
    CountExact(start, end, step);
    assert !InLattice(start, end, step, count);
    var n := AxisPointCount(start, end, step).value;
    assert n < count <==> InLattice(start, end, step, n);
    assert count < n <==> InLattice(start, end, step, count);
  }

  /** The points of the grid of the first n statements. */
  function PointsAfter(statements: seq<Statement>, n: nat): nat
    requires n <= |statements|
  {
    if n == 0 then 1
    else if statements[n - 1].SweepStatement? && PointsOf(statements[n - 1]).Some?
    then PointsAfter(statements, n - 1) * PointsOf(statements[n - 1]).value
    else PointsAfter(statements, n - 1)
  }

  predicate SweptBefore(statements: seq<Statement>, n: nat, dimension: string)
    requires n <= |statements|
  {
    exists j :: 0 <= j < n && statements[j].SweepStatement? && statements[j].dimension == dimension
  }

  predicate ShortBefore(statements: seq<Statement>, n: nat)
    requires n <= |statements|
  {
    exists j :: 0 <= j < n && statements[j].MeasurementStatement? && statements[j].legacy
  }

  function DimensionsOf(sweeps: seq<Statement>): (dimensions: seq<string>)
    requires forall statement <- sweeps :: statement.SweepStatement?
    ensures |dimensions| == |sweeps| && forall i :: 0 <= i < |sweeps| ==> dimensions[i] == sweeps[i].dimension
  {
    seq(|sweeps|, i requires 0 <= i < |sweeps| => sweeps[i].dimension)
  }

  /** The statement is in order after those before it. */
  predicate Admitted(statements: seq<Statement>, n: nat)
    requires n < |statements|
  {
    var scope, known := ScopeAfter(statements, n), KindBefore(statements, n, AReference);
    match statements[n]
    case ReferenceStatement(power) => !known && LiteralType(power) == Some(Power)
    case SweepStatement(dimension, _, _, _) =>
      && !SweptBefore(statements, n, dimension) && !KindBefore(statements, n, AMeasurement)
      && PointsOf(statements[n]).Some? && PointsAfter(statements, n + 1) <= MAXIMUM_POINTS
    case MeasurementStatement(name, operation, legacy) =>
      && known && MeasuredType(operation).Some?
      && if legacy then !ShortBefore(statements, n) else Fresh(statements, n, name)
    case DeriveStatement(name, expression) => Fresh(statements, n, name) && TypeIn(expression, scope, known).Some?
    case AssertionStatement(expression) => TypeIn(expression, scope, known) == Some(Boolean)
    case CalibrationStatement(name, correction, dimensions) =>
      && !KindBefore(statements, n, ACalibration) && Fresh(statements, n, name)
      && TypeIn(correction, scope, known) == Some(PowerDelta)
      && dimensions == DimensionsOf(Listed(statements, n, ASweep))
  }

  // ----- What the analyzer knows after n statements -----

  ghost predicate NamesKnown(statements: seq<Statement>, n: nat, s: State)
    requires n <= |statements|
  {
    && ScopeIs(s.symbols, ScopeAfter(statements, n))
    && (forall name :: name in s.userNames <==> exists j :: 0 <= j < n && Takes(statements[j], name))
    && ("power" in s.symbols <==> ShortBefore(statements, n))
  }

  ghost predicate KindsKnown(statements: seq<Statement>, n: nat, s: State)
    requires n <= |statements|
  {
    && (s.seenReference <==> KindBefore(statements, n, AReference))
    && (s.seenMeasurement <==> KindBefore(statements, n, AMeasurement))
    && (s.seenCalibration <==> KindBefore(statements, n, ACalibration))
    && (forall dimension :: dimension in s.seenDimensions <==> SweptBefore(statements, n, dimension))
    && s.totalPointCount == PointsAfter(statements, n)
  }

  /** Each dimension names the symbol of its sweep, and no other name does. */
  predicate SweepsKnown(s: State) {
    && (forall i :: 0 <= i < |s.sweeps| ==>
          && AxisName(s.sweeps[i].axis) in s.symbols && s.symbols[AxisName(s.sweeps[i].axis)].sweep
          && s.symbols[AxisName(s.sweeps[i].axis)].id == s.sweeps[i].symbol && s.sweeps[i].symbol < s.nextSymbol)
    && (forall i, j :: 0 <= i < j < |s.sweeps| ==> s.sweeps[i].symbol != s.sweeps[j].symbol)
    && (forall name <- s.symbols :: s.symbols[name].sweep ==> SomeSweep(s.sweeps, name))
  }

  predicate SomeSweep(sweeps: seq<S.Sweep>, name: string) {
    exists i :: 0 <= i < |sweeps| && AxisName(sweeps[i].axis) == name
  }

  ghost predicate Knows(statements: seq<Statement>, n: nat, s: State)
    requires n <= |statements|
  {
    && NamesKnown(statements, n, s) && KindsKnown(statements, n, s) && SweepsKnown(s) && Records(statements, n, s)
    && NamesApart(s.symbols, s.userNames, s.seenDimensions) && Recorded(s)
    && DimensionsSeen(s.seenDimensions, s.sweeps, s.frequencySweep) && s.totalPointCount >= 1
  }

  // ----- One statement more -----

  lemma KindNext(statements: seq<Statement>, n: nat, kind: StatementKind)
    requires n < |statements|
    ensures KindBefore(statements, n + 1, kind) <==> KindBefore(statements, n, kind) || KindOf(statements[n]) == kind
  {
    if j :| 0 <= j < n && KindOf(statements[j]) == kind { assert j < n + 1 && KindOf(statements[j]) == kind; }
    if KindOf(statements[n]) == kind { assert n < n + 1 && KindOf(statements[n]) == kind; }
  }

  lemma SweptNext(statements: seq<Statement>, n: nat, dimension: string)
    requires n < |statements|
    ensures SweptBefore(statements, n + 1, dimension) <==>
      SweptBefore(statements, n, dimension) || (statements[n].SweepStatement? && statements[n].dimension == dimension)
  {
  }

  lemma ShortNext(statements: seq<Statement>, n: nat)
    requires n < |statements|
    ensures ShortBefore(statements, n + 1) <==>
      ShortBefore(statements, n) || (statements[n].MeasurementStatement? && statements[n].legacy)
  {
  }

  lemma TakenNext(statements: seq<Statement>, n: nat, name: string)
    requires n < |statements|
    ensures (exists j :: 0 <= j < n + 1 && Takes(statements[j], name)) <==>
      (exists j :: 0 <= j < n && Takes(statements[j], name)) || Takes(statements[n], name)
  {
    if j :| 0 <= j < n && Takes(statements[j], name) { assert j < n + 1 && Takes(statements[j], name); }
    if Takes(statements[n], name) { assert n < n + 1 && Takes(statements[n], name); }
  }

  /** Which kinds and dimensions have been seen, and how many points there are, one statement later. */
  lemma KindsNext(statements: seq<Statement>, n: nat, s: State, t: State)
    requires n < |statements| && Grammatical(statements[n]) && KindsKnown(statements, n, s)
    requires Step(s, statements[n]) == Some(t)
    ensures KindsKnown(statements, n + 1, t)
  {
    KindNext(statements, n, AReference);
    KindNext(statements, n, AMeasurement);
    KindNext(statements, n, ACalibration);
    forall dimension ensures dimension in t.seenDimensions <==> SweptBefore(statements, n + 1, dimension) {
      SweptNext(statements, n, dimension);
    }
  }

  lemma DimensionIsNew(s: State, dimension: string)
    requires NamesApart(s.symbols, s.userNames, s.seenDimensions)
    requires dimension in {"frequency", "temperature"} && dimension !in s.seenDimensions
    ensures dimension !in s.symbols
  {
  }

  lemma FreshIsNew(s: State, name: string)
    requires NamesApart(s.symbols, s.userNames, s.seenDimensions) && s.seenDimensions <= {"frequency", "temperature"}
    requires NameAvailable(s, name)
    ensures name !in s.symbols
  {
  }

  /** A new name enters the scope. */
  lemma ScopeGrows(symbols: map<string, Symbol>, scope: Scope, name: string, symbol: Symbol)
    requires ScopeIs(symbols, scope) && name !in symbols && symbol.expressionValue
    ensures ScopeIs(Emplace(symbols, name, symbol), Enter(scope, name, Some(symbol.typ)))
  {
  }

  lemma TakenNames(statements: seq<Statement>, n: nat, s: State, t: State)
    requires n < |statements| && NamesKnown(statements, n, s) && Step(s, statements[n]) == Some(t)
    ensures forall name :: name in t.userNames <==> exists j :: 0 <= j < n + 1 && Takes(statements[j], name)
  {
    forall name ensures name in t.userNames <==> exists j :: 0 <= j < n + 1 && Takes(statements[j], name) {
      TakenNext(statements, n, name);
    }
  }

  lemma SweepNamesNext(statements: seq<Statement>, n: nat, s: State, t: State)
    requires n < |statements| && statements[n].SweepStatement? && Grammatical(statements[n])
    requires Knows(statements, n, s) && Step(s, statements[n]) == Some(t)
    ensures NamesKnown(statements, n + 1, t)
  {
    var dimension := statements[n].dimension;
    var axis := DimensionAxis(dimension);
    TakenNames(statements, n, s, t);
    ShortNext(statements, n);
    DimensionIsNew(s, dimension);
    ScopeGrows(s.symbols, ScopeAfter(statements, n), dimension, Symbol(s.nextSymbol, AxisType(axis), true, true));
  }

  lemma MeasuredScope(statements: seq<Statement>, n: nat, op: MeasurementOperation)
    requires n < |statements| && statements[n].MeasurementStatement?
    requires OperationNamed(statements[n].operation) == Some(op)
    ensures ScopeAfter(statements, n + 1) == Enter(ScopeAfter(statements, n), statements[n].name, Some(ResultType(op)))
  {
  }

  lemma MeasuredSymbols(s: State, t: State, statement: Statement) returns (op: MeasurementOperation)
    requires statement.MeasurementStatement? && Grammatical(statement) && Step(s, statement) == Some(t)
    requires NamesApart(s.symbols, s.userNames, s.seenDimensions) && s.seenDimensions <= {"frequency", "temperature"}
    ensures OperationNamed(statement.operation) == Some(op) && statement.name !in s.symbols
    ensures t.symbols == Emplace(s.symbols, statement.name, Symbol(s.nextSymbol, ResultType(op), false, true))
    ensures statement.name == "power" <==> statement.legacy
  {
    op := OperationNamed(statement.operation).value;
    if !statement.legacy { FreshIsNew(s, statement.name); }
  }

  lemma MeasurementNamesNext(statements: seq<Statement>, n: nat, s: State, t: State)
    requires n < |statements| && statements[n].MeasurementStatement? && Grammatical(statements[n])
    requires Knows(statements, n, s) && Step(s, statements[n]) == Some(t)
    ensures NamesKnown(statements, n + 1, t)
  {
    var op := MeasuredSymbols(s, t, statements[n]);
    TakenNames(statements, n, s, t);
    ShortNext(statements, n);
    MeasuredScope(statements, n, op);
    ScopeGrows(s.symbols, ScopeAfter(statements, n), statements[n].name,
               Symbol(s.nextSymbol, ResultType(op), false, true));
  }

  lemma DerivedNamesNext(statements: seq<Statement>, n: nat, s: State, t: State)
    requires n < |statements| && statements[n].DeriveStatement?
    requires Knows(statements, n, s) && Step(s, statements[n]) == Some(t)
    ensures NamesKnown(statements, n + 1, t)
  {
    var name, e := statements[n].name, statements[n].expression;
    TakenNames(statements, n, s, t);
    ShortNext(statements, n);
    FreshIsNew(s, name);
    TypesDecide(e, s.symbols, s.reference, ScopeAfter(statements, n));
    var x := Elaborate(e, s.symbols, s.reference).value;
    ScopeGrows(s.symbols, ScopeAfter(statements, n), name, Symbol(s.nextSymbol, x.typ, false, true));
  }

  lemma CalibrationNamesNext(statements: seq<Statement>, n: nat, s: State, t: State)
    requires n < |statements| && statements[n].CalibrationStatement?
    requires Knows(statements, n, s) && Step(s, statements[n]) == Some(t)
    ensures NamesKnown(statements, n + 1, t)
  {
    var name := statements[n].name;
    TakenNames(statements, n, s, t);
    ShortNext(statements, n);
    FreshIsNew(s, name);
    ScopeKept(s.symbols, ScopeAfter(statements, n), name, Symbol(s.nextSymbol, PowerDelta, false, false));
  }

  /** A calibration's name is none for expressions. */
  lemma ScopeKept(symbols: map<string, Symbol>, scope: Scope, name: string, symbol: Symbol)
    requires ScopeIs(symbols, scope) && name !in symbols && !symbol.expressionValue
    ensures ScopeIs(Emplace(symbols, name, symbol), scope)
  {
  }

  lemma SilentNamesNext(statements: seq<Statement>, n: nat, s: State, t: State)
    requires n < |statements| && (statements[n].ReferenceStatement? || statements[n].AssertionStatement?)
    requires NamesKnown(statements, n, s) && Step(s, statements[n]) == Some(t)
    ensures NamesKnown(statements, n + 1, t)
  {
    TakenNames(statements, n, s, t);
    ShortNext(statements, n);
    assert t.symbols == s.symbols && ScopeAfter(statements, n + 1) == ScopeAfter(statements, n);
  }

  lemma NamesNext(statements: seq<Statement>, n: nat, s: State, t: State)
    requires n < |statements| && Grammatical(statements[n])
    requires Knows(statements, n, s) && Step(s, statements[n]) == Some(t)
    ensures NamesKnown(statements, n + 1, t)
  {
    if statements[n].SweepStatement? {
      SweepNamesNext(statements, n, s, t);
    } else if statements[n].MeasurementStatement? {
      MeasurementNamesNext(statements, n, s, t);
    } else if statements[n].DeriveStatement? {
      DerivedNamesNext(statements, n, s, t);
    } else if statements[n].CalibrationStatement? {
      CalibrationNamesNext(statements, n, s, t);
    } else {
      SilentNamesNext(statements, n, s, t);
    }
  }

  /** A statement that declares no sweep declares at most one name, and that names no sweep. */
  predicate NamesOne(s: State, t: State, name: string, symbol: Symbol) {
    t.symbols == s.symbols || (name !in s.symbols && !symbol.sweep && t.symbols == s.symbols[name := symbol])
  }

  lemma SweepsKept(s: State, t: State, name: string, symbol: Symbol)
    requires SweepsKnown(s) && t.sweeps == s.sweeps && t.nextSymbol >= s.nextSymbol && NamesOne(s, t, name, symbol)
    ensures SweepsKnown(t)
  {
  }

  lemma NamesOneAtMost(s: State, t: State, statement: Statement) returns (name: string, symbol: Symbol)
    requires Step(s, statement) == Some(t) && !statement.SweepStatement?
    requires NamesApart(s.symbols, s.userNames, s.seenDimensions) && s.seenDimensions <= {"frequency", "temperature"}
    ensures t.nextSymbol >= s.nextSymbol && NamesOne(s, t, name, symbol)
  {
    name, symbol := "", Symbol(s.nextSymbol, Power, false, false);
    match statement
    case MeasurementStatement(own, operation, legacy) =>
      if !legacy { FreshIsNew(s, own); }
      name, symbol := own, Symbol(s.nextSymbol, ResultType(OperationNamed(operation).value), false, true);
    case DeriveStatement(own, e) =>
      FreshIsNew(s, own);
      name, symbol := own, Symbol(s.nextSymbol, Elaborate(e, s.symbols, s.reference).value.typ, false, true);
    case CalibrationStatement(own, _, _) =>
      FreshIsNew(s, own);
      name, symbol := own, Symbol(s.nextSymbol, PowerDelta, false, false);
    case _ =>
  }

  lemma SweepsNext(statements: seq<Statement>, n: nat, s: State, t: State)
    requires n < |statements| && Grammatical(statements[n])
    requires Knows(statements, n, s) && Step(s, statements[n]) == Some(t)
    ensures SweepsKnown(t)
  {
    var statement := statements[n];
    if statement.SweepStatement? {
      DimensionIsNew(s, statement.dimension);
      SweepAdded(s, t, statement.dimension);
    } else {
      OthersUntouched(s, statement);
      var name, symbol := NamesOneAtMost(s, t, statement);
      SweepsKept(s, t, name, symbol);
    }
  }

  lemma SweepAdded(s: State, t: State, dimension: string)
    requires SweepsKnown(s) && dimension in {"frequency", "temperature"} && dimension !in s.symbols
    requires t.nextSymbol == s.nextSymbol + 1 && |t.sweeps| == |s.sweeps| + 1 && t.sweeps[..|s.sweeps|] == s.sweeps
    requires t.sweeps[|s.sweeps|].symbol == s.nextSymbol && AxisName(t.sweeps[|s.sweeps|].axis) == dimension
    requires t.symbols ==
      s.symbols[dimension := Symbol(s.nextSymbol, AxisType(t.sweeps[|s.sweeps|].axis), true, true)]
    ensures SweepsKnown(t)
  {
    assert forall i :: 0 <= i < |s.sweeps| ==> t.sweeps[i] == s.sweeps[i];
    forall name | name in t.symbols && t.symbols[name].sweep ensures SomeSweep(t.sweeps, name) {
      if name == dimension {
        assert AxisName(t.sweeps[|s.sweeps|].axis) == name;
      } else {
        assert SomeSweep(s.sweeps, name);
        var i :| 0 <= i < |s.sweeps| && AxisName(s.sweeps[i].axis) == name;
        assert AxisName(t.sweeps[i].axis) == name;
      }
    }
  }

  // ----- Each statement is accepted exactly when it is in order -----

  lemma FreshIsAvailable(statements: seq<Statement>, n: nat, s: State, name: string)
    requires n <= |statements| && NamesKnown(statements, n, s)
    ensures NameAvailable(s, name) <==> Fresh(statements, n, name)
  {
  }

  lemma AxisIsPlanned(s: State, statement: Statement)
    requires statement.SweepStatement? && Grammatical(statement)
    ensures var sweep := PlannedAxis(DimensionAxis(statement.dimension), statement.start, statement.end,
                                     statement.step, s.nextSymbol);
      && (sweep.Some? <==> PointsOf(statement).Some?)
      && (sweep.Some? ==> sweep.value.pointCount == PointsOf(statement).value >= 1)
  {
    var axis := DimensionAxis(statement.dimension);
    var start, end, step := ReadAs(statement.start, AxisType(axis)), ReadAs(statement.end, AxisType(axis)),
      ReadAs(statement.step, StepType(axis));
    if PointsOf(statement).Some? {
      CountExact(start.value, end.value, step.value);
      assert InLattice(start.value, end.value, step.value, 0);
    }
  }

  lemma SweepDecided(statements: seq<Statement>, n: nat, s: State)
    requires n < |statements| && statements[n].SweepStatement? && Grammatical(statements[n])
    requires KindsKnown(statements, n, s)
    ensures Step(s, statements[n]).Some? <==> Admitted(statements, n)
  {
    AxisIsPlanned(s, statements[n]);
    if PointsOf(statements[n]).Some? { V.QuotientTest(s.totalPointCount, PointsOf(statements[n]).value); }
  }

  lemma DimensionSymbols(s: State, name: string, i: nat)
    requires SweepsKnown(s) && i < |s.sweeps| && name in s.symbols && s.symbols[name].sweep
    ensures s.symbols[name].id == s.sweeps[i].symbol <==> name == AxisName(s.sweeps[i].axis)
  {
    assert SomeSweep(s.sweeps, name);
    var k :| 0 <= k < |s.sweeps| && AxisName(s.sweeps[k].axis) == name;
    assert k < i ==> s.sweeps[k].symbol != s.sweeps[i].symbol;
    assert i < k ==> s.sweeps[i].symbol != s.sweeps[k].symbol;
  }

  lemma AxisOfStatement(statement: Statement, sweep: S.Sweep)
    requires DeclaresSweep(statement, sweep) && Grammatical(statement)
    ensures AxisName(sweep.axis) == statement.dimension
  {
  }

  lemma SweepNamed(statements: seq<Statement>, n: nat, s: State, i: nat)
    requires n <= |statements| && AllGrammatical(statements) && i < |s.sweeps|
    requires SweepsDeclared(Listed(statements, n, ASweep), s.sweeps)
    ensures DimensionsOf(Listed(statements, n, ASweep))[i] == AxisName(s.sweeps[i].axis)
  {
    ListedAre(statements, n, ASweep, i);
    AxisOfStatement(Listed(statements, n, ASweep)[i], s.sweeps[i]);
  }

  lemma {:induction false} ListedAre(statements: seq<Statement>, n: nat, kind: StatementKind, i: nat)
    requires n <= |statements| && i < |Listed(statements, n, kind)|
    ensures Listed(statements, n, kind)[i] in statements
    decreases n
  {
    if i < |Listed(statements, n - 1, kind)| { ListedAre(statements, n - 1, kind, i); }
  }

  /** A calibration lists the sweeps so far exactly when it names their dimensions in order. */
  lemma ListingIsNaming(statements: seq<Statement>, n: nat, s: State, dimensions: seq<string>)
    requires n <= |statements| && AllGrammatical(statements) && SweepsKnown(s)
    requires SweepsDeclared(Listed(statements, n, ASweep), s.sweeps)
    requires DimensionsSeen(s.seenDimensions, s.sweeps, s.frequencySweep)
    ensures ListsSweepsSoFar(s.symbols, s.sweeps, dimensions)
            <==> dimensions == DimensionsOf(Listed(statements, n, ASweep))
  {
    var names := DimensionsOf(Listed(statements, n, ASweep));
    forall i | 0 <= i < |s.sweeps| ensures names[i] == AxisName(s.sweeps[i].axis) { SweepNamed(statements, n, s, i); }
    if ListsSweepsSoFar(s.symbols, s.sweeps, dimensions) {
      forall i | 0 <= i < |s.sweeps| ensures dimensions[i] == names[i] { DimensionSymbols(s, dimensions[i], i); }
    }
    if dimensions == names {
      forall i | 0 <= i < |s.sweeps|
        ensures dimensions[i] !in dimensions[..i] && dimensions[i] in s.symbols && s.symbols[dimensions[i]].sweep
        ensures s.symbols[dimensions[i]].id == s.sweeps[i].symbol
      {
        assert dimensions[i] == AxisName(s.sweeps[i].axis);
        forall k | 0 <= k < i ensures dimensions[k] != dimensions[i] {
          assert dimensions[k] == AxisName(s.sweeps[k].axis) && s.sweeps[k].axis != s.sweeps[i].axis;
        }
      }
    }
  }

  lemma CalibrationDecided(statements: seq<Statement>, n: nat, s: State)
    requires n < |statements| && statements[n].CalibrationStatement? && AllGrammatical(statements)
    requires Knows(statements, n, s)
    ensures Step(s, statements[n]).Some? <==> Admitted(statements, n)
  {
    FreshIsAvailable(statements, n, s, statements[n].name);
    TypesDecide(statements[n].correction, s.symbols, s.reference, ScopeAfter(statements, n));
    ListingIsNaming(statements, n, s, statements[n].dimensions);
  }

  lemma ReferenceDecided(statements: seq<Statement>, n: nat, s: State)
    requires n < |statements| && statements[n].ReferenceStatement? && KindsKnown(statements, n, s)
    ensures Step(s, statements[n]).Some? <==> Admitted(statements, n)
  {
    LiteralIsTyped(statements[n].power);
  }

  lemma MeasurementDecided(statements: seq<Statement>, n: nat, s: State)
    requires n < |statements| && statements[n].MeasurementStatement?
    requires KindsKnown(statements, n, s) && NamesKnown(statements, n, s)
    ensures Step(s, statements[n]).Some? <==> Admitted(statements, n)
  {
    FreshIsAvailable(statements, n, s, statements[n].name);
  }

  lemma ExpressionDecided(statements: seq<Statement>, n: nat, s: State)
    requires n < |statements| && (statements[n].DeriveStatement? || statements[n].AssertionStatement?)
    requires KindsKnown(statements, n, s) && NamesKnown(statements, n, s) && (s.seenReference <==> s.reference.Some?)
    ensures Step(s, statements[n]).Some? <==> Admitted(statements, n)
  {
    TypesDecide(statements[n].expression, s.symbols, s.reference, ScopeAfter(statements, n));
    if statements[n].DeriveStatement? { FreshIsAvailable(statements, n, s, statements[n].name); }
  }

  lemma StepDecided(statements: seq<Statement>, n: nat, s: State)
    requires n < |statements| && AllGrammatical(statements) && Knows(statements, n, s)
    ensures Step(s, statements[n]).Some? <==> Admitted(statements, n)
  {
    assert statements[n] in statements;
    if statements[n].ReferenceStatement? {
      ReferenceDecided(statements, n, s);
    } else if statements[n].SweepStatement? {
      SweepDecided(statements, n, s);
    } else if statements[n].MeasurementStatement? {
      MeasurementDecided(statements, n, s);
    } else if statements[n].CalibrationStatement? {
      CalibrationDecided(statements, n, s);
    } else {
      ExpressionDecided(statements, n, s);
    }
  }

  /** What the analyzer's own invariant says of a state. */
  ghost predicate Sound(statements: seq<Statement>, n: nat, t: State)
    requires n <= |statements|
  {
    && Records(statements, n, t) && NamesApart(t.symbols, t.userNames, t.seenDimensions) && Recorded(t)
    && DimensionsSeen(t.seenDimensions, t.sweeps, t.frequencySweep) && t.totalPointCount >= 1
    && MeasurementsTyped(t.measurements, t.measurement)
  }

  lemma KnowsNext(statements: seq<Statement>, n: nat, s: State, t: State)
    requires n < |statements| && AllGrammatical(statements) && Knows(statements, n, s)
    requires Step(s, statements[n]) == Some(t) && Sound(statements, n + 1, t)
    ensures Knows(statements, n + 1, t)
  {
    assert statements[n] in statements;
    KindsNext(statements, n, s, t);
    NamesNext(statements, n, s, t);
    SweepsNext(statements, n, s, t);
  }

  lemma AnalysisSound(statements: seq<Statement>, n: nat, t: State)
    requires n <= |statements| && AllGrammatical(statements) && Analyzed(statements, n) == Some(t)
    ensures Sound(statements, n, t)
  {
    InvariantHolds(statements, n);
    AnalyzerRecords(statements, n);
    PointsPositive(t);
  }

  lemma PointsPositive(s: State)
    requires SweepsPlanned(s.sweeps, s.totalPointCount)
    ensures s.totalPointCount >= 1
  {
    ProductPositive(s.sweeps, |s.sweeps|);
  }

  lemma {:induction false} ProductPositive(sweeps: seq<S.Sweep>, n: nat)
    requires n <= |sweeps| && forall sweep <- sweeps :: PlannedSweep(sweep)
    ensures S.PartialProduct(sweeps, n) >= 1
  {
    if n > 0 {
      ProductPositive(sweeps, n - 1);
      var sweep := sweeps[n - 1];
      assert sweep in sweeps;
      CountsAgree(sweep.start, sweep.end, sweep.step);
      assert S.PartialProduct(sweeps, n - 1) * sweep.pointCount >= 1 * 1;
    }
  }

  /** The analyzer gets through the first n statements, knowing what they declare. */
  ghost predicate Through(statements: seq<Statement>, n: nat)
    requires n <= |statements|
  {
    exists s :: Analyzed(statements, n) == Some(s) && Knows(statements, n, s)
  }

  /** One statement further, where both states are known. */
  ghost predicate Ahead(statements: seq<Statement>, n: nat)
    requires n < |statements|
  {
    exists s, t ::
      && Knows(statements, n, s) && Sound(statements, n + 1, t)
      && Step(s, statements[n]) == Some(t) && Analyzed(statements, n + 1) == Some(t)
  }

  lemma ThroughAhead(statements: seq<Statement>, n: nat)
    requires n < |statements| && AllGrammatical(statements) && Through(statements, n) && Admitted(statements, n)
    ensures Ahead(statements, n)
  {
    var s :| Analyzed(statements, n) == Some(s) && Knows(statements, n, s);
    StepDecided(statements, n, s);
    StepAhead(statements, n, s);
  }

  lemma NextSound(statements: seq<Statement>, n: nat, s: State) returns (t: State)
    requires n < |statements| && AllGrammatical(statements) && Analyzed(statements, n) == Some(s)
    requires Step(s, statements[n]).Some?
    ensures Step(s, statements[n]) == Some(t) && Analyzed(statements, n + 1) == Some(t) && Sound(statements, n + 1, t)
  {
    AnalyzedNext(statements, n, s);
    t := Step(s, statements[n]).value;
    AnalysisSound(statements, n + 1, t);
  }

  lemma StepAhead(statements: seq<Statement>, n: nat, s: State)
    requires n < |statements| && AllGrammatical(statements) && Analyzed(statements, n) == Some(s)
    requires Step(s, statements[n]).Some? && Knows(statements, n, s)
    ensures Ahead(statements, n)
  {
    var t := NextSound(statements, n, s);
  }

  lemma AheadThrough(statements: seq<Statement>, n: nat, m: nat)
    requires m == n + 1 <= |statements| && AllGrammatical(statements) && Ahead(statements, n)
    ensures Through(statements, m)
  {
    var s, t :| Knows(statements, n, s) && Sound(statements, n + 1, t)
      && Step(s, statements[n]) == Some(t) && Analyzed(statements, n + 1) == Some(t);
    KnowsNext(statements, n, s, t);
  }

  lemma ThroughDecides(statements: seq<Statement>, n: nat)
    requires n < |statements| && AllGrammatical(statements) && Through(statements, n)
    ensures Analyzed(statements, n + 1).Some? <==> Admitted(statements, n)
  {
    var s :| Analyzed(statements, n) == Some(s) && Knows(statements, n, s);
    AnalyzedNext(statements, n, s);
    StepDecided(statements, n, s);
  }

  lemma AnalyzedNext(statements: seq<Statement>, n: nat, s: State)
    requires n < |statements| && Analyzed(statements, n) == Some(s)
    ensures Analyzed(statements, n + 1) == Step(s, statements[n])
  {
  }

  lemma ThroughNothing(statements: seq<Statement>)
    ensures Through(statements, 0)
  {
    assert Knows(statements, 0, Initial());
  }

  predicate AllAdmitted(statements: seq<Statement>, n: nat)
    requires n <= |statements|
  {
    forall i :: 0 <= i < n ==> Admitted(statements, i)
  }

  ghost predicate Decided(statements: seq<Statement>, n: nat)
    requires n <= |statements|
  {
    && (Analyzed(statements, n).Some? <==> AllAdmitted(statements, n))
    && (Analyzed(statements, n).Some? ==> Through(statements, n))
  }

  lemma StopsForGood(statements: seq<Statement>, n: nat)
    requires n < |statements| && Analyzed(statements, n).None?
    ensures Analyzed(statements, n + 1).None?
  {
  }

  lemma NothingDecided(statements: seq<Statement>, n: nat)
    requires n == 0
    ensures Decided(statements, n)
  {
    ThroughNothing(statements);
  }

  lemma AdmittedNext(statements: seq<Statement>, m: nat, n: nat)
    requires n == m + 1 <= |statements|
    ensures AllAdmitted(statements, n) <==> AllAdmitted(statements, m) && Admitted(statements, m)
  {
  }

  lemma DecidedFurther(statements: seq<Statement>, m: nat, n: nat)
    requires n == m + 1 <= |statements| && AllGrammatical(statements)
    requires AllAdmitted(statements, m) && Through(statements, m)
    ensures Decided(statements, n)
  {
    AdmittedNext(statements, m, n);
    ThroughDecides(statements, m);
    if Admitted(statements, m) {
      ThroughAhead(statements, m);
      AheadThrough(statements, m, n);
    }
  }

  lemma DecidedStopped(statements: seq<Statement>, m: nat, n: nat)
    requires n == m + 1 <= |statements| && Analyzed(statements, m).None? && !AllAdmitted(statements, m)
    ensures Decided(statements, n)
  {
    AdmittedNext(statements, m, n);
    StopsForGood(statements, m);
  }

  /** From m statements to the next n. */
  lemma DecidedNext(statements: seq<Statement>, m: nat, n: nat)
    requires n == m + 1 <= |statements| && AllGrammatical(statements) && Decided(statements, m)
    ensures Decided(statements, n)
  {
    if Analyzed(statements, m).Some? {
      DecidedFurther(statements, m, n);
    } else {
      DecidedStopped(statements, m, n);
    }
  }

  /** The first n statements report nothing exactly when each is in order after those before it. */
  lemma {:induction false} PrefixDecided(statements: seq<Statement>, n: nat)
    requires n <= |statements| && AllGrammatical(statements)
    ensures Decided(statements, n)
  {
    if n == 0 {
      NothingDecided(statements, n);
    } else {
      PrefixDecided(statements, n - 1);
      DecidedNext(statements, n - 1, n);
    }
  }

  predicate MeasuresPower(statements: seq<Statement>) {
    exists j :: 0 <= j < |statements| && statements[j].MeasurementStatement? && statements[j].operation == "power"
  }

  /** Something is there for each of the four demands. */
  predicate Demanded(statements: seq<Statement>) {
    var n := |statements|;
    && KindBefore(statements, n, AReference) && SweptBefore(statements, n, "frequency")
    && MeasuresPower(statements) && KindBefore(statements, n, ACalibration)
  }

  lemma CompleteIsDemanded(statements: seq<Statement>, n: nat, s: State)
    requires n == |statements| && KindsKnown(statements, n, s)
    requires Records(statements, n, s) && MeasurementsTyped(s.measurements, s.measurement)
    ensures Complete(s) <==> Demanded(statements)
  {
    PowerIsMeasured(statements, n, s);
  }

  lemma CompletenessDecided(statements: seq<Statement>, n: nat)
    requires n == |statements| && AllGrammatical(statements) && Through(statements, n)
    ensures Analyzed(statements, n).Some? && (Complete(Analyzed(statements, n).value) <==> Demanded(statements))
  {
    var s :| Analyzed(statements, n) == Some(s) && Knows(statements, n, s);
    AnalysisSound(statements, n, s);
    CompleteIsDemanded(statements, n, s);
  }

  /** Acceptance is exact: the analyzer accepts a script if and only if every statement is in order
      after those before it, and there are a reference, a frequency sweep, a power measurement and a
      calibration. */
  lemma AcceptanceIsExact(program: Ast.Program)
    requires GrammaticalProgram(program)
    ensures Analyze(program).Some? <==>
      Demanded(program.statements) &&
      forall i :: 0 <= i < |program.statements| ==> Admitted(program.statements, i)
  {
    var statements, n := program.statements, |program.statements|;
    PrefixDecided(statements, n);
    if Analyzed(statements, n).Some? { CompletenessDecided(statements, n); }
  }

  lemma PowerIsMeasured(statements: seq<Statement>, n: nat, s: State)
    requires n == |statements| && Records(statements, n, s) && MeasurementsTyped(s.measurements, s.measurement)
    ensures s.measurement.Some? <==> MeasuresPower(statements)
  {
    var list := Listed(statements, n, AMeasurement);
    if s.measurement.Some? {
      var j :| 0 <= j < |s.measurements| && FirstPower(s.measurements, s.measurement.value, j);
      assert DeclaresMeasurement(list[j], s.measurements[j]);
      ListedAre(statements, n, AMeasurement, j);
    }
    if j :| 0 <= j < |statements| && statements[j].MeasurementStatement? && statements[j].operation == "power" {
      var i := ListedAt(statements, n, j);
      assert DeclaresMeasurement(list[i], s.measurements[i]);
      assert s.measurements[i] in s.measurements;
    }
  }

  lemma {:induction false} ListedAt(statements: seq<Statement>, n: nat, j: nat) returns (i: nat)
    requires j < n <= |statements|
    ensures i < |Listed(statements, n, KindOf(statements[j]))|
    ensures Listed(statements, n, KindOf(statements[j]))[i] == statements[j]
    decreases n
  {
    if j == n - 1 {
      i := |Listed(statements, n - 1, KindOf(statements[j]))|;
    } else {
      i := ListedAt(statements, n - 1, j);
    }
  }
}
