/** The semantic analyzer: one pass over the statements, resolving names and checking types. */
module Analysis {
  import opened Domain
  import opened Text
  import opened Ast
  import opened SweepLattice
  import S = Semantic

  datatype AnalysisError =
    | InvalidNumericLiteral | UnexpectedQuantityType | DuplicateDeclaration | MissingReference
    | MissingSweep | MissingMeasurement | UnknownMeasurementOperation | MissingCalibration
    | UnknownIdentifier | UnknownReferenceMember | ReferenceNotAvailable | InvalidUnaryOperand
    | InvalidBinaryOperands | UnknownFunction | InvalidFunctionArgument | InvalidComparisonOperands
    | AssertionRequiresBoolean | InvalidSweepRange | InvalidSweepStep | SweepTooLarge
    | UnknownCalibrationDimension | NonSweepCalibrationDimension | DuplicateCalibrationDimension
    | InvalidCalibrationDimensions | InvalidCalibrationCorrection

  datatype Symbol = Symbol(id: S.SymbolId, typ: ValueType, sweep: bool, expressionValue: bool)

  datatype Reference = Reference(symbol: S.SymbolId, dbm: real)

  // ----- Expressions -----

  /** A frequency literal set against a frequency delta is read as a delta. */
  function Contextualize(e: S.Expression): S.Expression {
    if e.node.QuantityNode? && e.node.value.kind == Frequency
    then S.Expression(S.QuantityNode(Scalar(FrequencyDelta, e.node.value.amount)), FrequencyDelta)
    else e
  }

  /** The typed tree of an expression in a scope; None where a diagnostic is reported. */
  function Elaborate(e: Expr, symbols: map<string, Symbol>, reference: Option<Reference>): Option<S.Expression> {
    match e
    case QuantityExpr(literal) =>
      var c := Convert(literal);
      if c.Converted? then Some(S.Expression(S.QuantityNode(c.quantity), c.quantity.kind)) else None
    case IdentifierExpr(name) =>
      if name in symbols && symbols[name].expressionValue
      then Some(S.Expression(S.SymbolNode(symbols[name].id, symbols[name].typ), symbols[name].typ)) else None
    case ReferenceExpr(object_, member) =>
      if object_ == "reference" && member == "power" && reference.Some?
      then Some(S.Expression(S.ReferenceNode(reference.value.symbol, Power), Power)) else None
    case NegateExpr(operand) =>
      var x := Elaborate(operand, symbols, reference);
      if x.Some? && Negatable(x.value.typ)
        then Some(S.Expression(S.NegateNode(x.value, x.value.typ), x.value.typ)) else None
    case BinaryExpr(op, left, right) =>
      var a, b := Elaborate(left, symbols, reference), Elaborate(right, symbols, reference);
      if a.None? || b.None? then None
      else
        var typ := S.BinaryResult(op, a.value.typ, b.value.typ);
        if typ.Some? then Some(S.Expression(S.BinaryNode(op, a.value, b.value, typ.value), typ.value)) else None
    case CallExpr(f, argument) =>
      if f != "abs" then None
      else
        var x := Elaborate(argument, symbols, reference);
        if x.Some? && Negatable(x.value.typ)
          then Some(S.Expression(S.CallNode(f, x.value, x.value.typ), x.value.typ)) else None
    case ComparisonExpr(op, left, right) =>
      var a, b := Elaborate(left, symbols, reference), Elaborate(right, symbols, reference);
      if a.None? || b.None? then None
      else
        var y := if a.value.typ == FrequencyDelta && b.value.typ == Frequency then Contextualize(b.value) else b.value;
        var x := if y.typ == FrequencyDelta && a.value.typ == Frequency then Contextualize(a.value) else a.value;
        if x.typ == y.typ && x.typ != Boolean
        then Some(S.Expression(S.ComparisonNode(op, x, y), Boolean)) else None
  }

  // ----- Statements -----

  /** What the analyzer knows while no diagnostic has been reported. */
  datatype State = State(
    symbols: map<string, Symbol>, userNames: set<string>, reference: Option<Reference>,
    frequencySweep: Option<S.Sweep>, sweeps: seq<S.Sweep>, totalPointCount: nat,
    measurement: Option<S.SymbolId>, measurements: seq<S.Measurement>, derived: seq<S.Derived>,
    assertions: seq<S.Assertion>, calibration: Option<S.Calibration>, nextSymbol: nat,
    seenReference: bool, seenDimensions: set<string>, seenMeasurement: bool, seenCalibration: bool)

  function Initial(): State {
    State(map[], {}, None, None, [], 1, None, [], [], [], None, 0, false, {}, false, false)
  }

  /** Insertion into an unordered_map leaves an existing entry alone. */
  function Emplace(symbols: map<string, Symbol>, name: string, symbol: Symbol): map<string, Symbol> {
    if name in symbols then symbols else symbols[name := symbol]
  }

  function ReadAs(literal: Literal, kind: Dimension): Option<real> {
    var c := Convert(literal);
    if c.Converted? && c.quantity.kind == kind then Some(c.quantity.amount) else None
  }

  function DimensionAxis(dimension: string): Axis {
    if dimension == "frequency" then FrequencyAxis else TemperatureAxis
  }

  function OperationNamed(name: string): Option<MeasurementOperation> {
    match name
    case "power" => Some(MeasurePower)
    case "evm" => Some(MeasureEvm)
    case "frequency_error" => Some(MeasureFrequencyError)
    case _ => None
  }

  predicate NameAvailable(s: State, name: string) {
    name !in {"frequency", "temperature", "power", "abs"} && name !in s.userNames
  }

  function DeclareReference(s: State, power: Literal): Option<State> {
    var dbm := ReadAs(power, Power);
    if s.seenReference || dbm.None? then None
    else Some(s.(seenReference := true, reference := Some(Reference(s.nextSymbol, dbm.value)),
                 nextSymbol := s.nextSymbol + 1))
  }

  /** The sweep a statement describes, if its bounds make a lattice of a representable size. */
  function PlannedAxis(axis: Axis, start: Literal, end: Literal, step: Literal, symbol: S.SymbolId): Option<S.Sweep> {
    var first, last, increment := ReadAs(start, AxisType(axis)), ReadAs(end, AxisType(axis)),
      ReadAs(step, StepType(axis));
    if first.None? || last.None? || increment.None? || increment.value <= 0.0 || last.value < first.value then None
    else
      var count := AxisPointCount(first.value, last.value, increment.value);
      if count.None? then None
      else Some(S.Sweep(symbol, axis, first.value, last.value, increment.value, count.value))
  }

  function WithSweep(s: State, axis: Axis, sweep: S.Sweep): State {
    s.(sweeps := s.sweeps + [sweep],
       frequencySweep := if axis == FrequencyAxis then Some(sweep) else s.frequencySweep,
       symbols := Emplace(s.symbols, AxisName(axis), Symbol(s.nextSymbol, AxisType(axis), true, true)),
       nextSymbol := s.nextSymbol + 1)
  }

  function DeclareSweep(s: State, dimension: string, start: Literal, end: Literal, step: Literal): Option<State> {
    var axis := DimensionAxis(dimension);
    var sweep := PlannedAxis(axis, start, end, step, s.nextSymbol);
    if dimension in s.seenDimensions || s.seenMeasurement || sweep.None?
       || s.totalPointCount > MAXIMUM_POINTS / sweep.value.pointCount then None
    else
      var counted := s.(seenDimensions := s.seenDimensions + {dimension},
                        totalPointCount := s.totalPointCount * sweep.value.pointCount);
      Some(WithSweep(counted, axis, sweep.value))
  }

  function WithMeasurement(s: State, name: string, op: MeasurementOperation, legacy: bool): State {
    s.(measurements := s.measurements + [S.Measurement(s.nextSymbol, name, op, ResultType(op), legacy)],
       symbols := Emplace(s.symbols, name, Symbol(s.nextSymbol, ResultType(op), false, true)),
       measurement := if op == MeasurePower && s.measurement.None? then Some(s.nextSymbol) else s.measurement,
       nextSymbol := s.nextSymbol + 1)
  }

  function DeclareMeasurement(s: State, name: string, operation: string, legacy: bool): Option<State> {
    var op := OperationNamed(operation);
    if !s.seenReference || op.None? || (if legacy then "power" in s.symbols else !NameAvailable(s, name)) then None
    else
      var named := s.(seenMeasurement := true, userNames := if legacy then s.userNames else s.userNames + {name});
      Some(WithMeasurement(named, name, op.value, legacy))
  }

  function WithDerived(s: State, name: string, x: S.Expression): State {
    s.(derived := s.derived + [S.Derived(s.nextSymbol, name, x, x.typ)],
       symbols := Emplace(s.symbols, name, Symbol(s.nextSymbol, x.typ, false, true)),
       nextSymbol := s.nextSymbol + 1)
  }

  function DeclareDerived(s: State, name: string, expression: Expr): Option<State> {
    var x := Elaborate(expression, s.symbols, s.reference);
    if !NameAvailable(s, name) || x.None? then None
    else Some(WithDerived(s.(userNames := s.userNames + {name}), name, x.value))
  }

  function DeclareAssertion(s: State, expression: Expr): Option<State> {
    var x := Elaborate(expression, s.symbols, s.reference);
    var ordinal := |s.assertions| + 1;
    if x.None? || x.value.typ != Boolean then None
    else Some(s.(assertions := s.assertions + [S.Assertion("assertion-" + Decimal(ordinal), ordinal, x.value)]))
  }

  /** The dimensions of a calibration name distinct sweeps, and all those declared so far in order. */
  predicate ListsSweepsSoFar(symbols: map<string, Symbol>, sweeps: seq<S.Sweep>, dimensions: seq<string>) {
    && |dimensions| == |sweeps|
    && (forall i :: 0 <= i < |dimensions| ==>
          && dimensions[i] !in dimensions[..i]
          && dimensions[i] in symbols && symbols[dimensions[i]].sweep
          && symbols[dimensions[i]].id == sweeps[i].symbol)
  }

  function SweepSymbols(sweeps: seq<S.Sweep>): (symbols: seq<S.SymbolId>)
    ensures |symbols| == |sweeps| && forall i :: 0 <= i < |sweeps| ==> symbols[i] == sweeps[i].symbol
  {
    seq(|sweeps|, i requires 0 <= i < |sweeps| => sweeps[i].symbol)
  }

  function NamedTypes(symbols: map<string, Symbol>, names: seq<string>): (types: seq<ValueType>)
    requires forall name <- names :: name in symbols
    ensures |types| == |names| && forall i :: 0 <= i < |names| ==> types[i] == symbols[names[i]].typ
  {
    seq(|names|, i requires 0 <= i < |names| => symbols[names[i]].typ)
  }

  function WithCalibration(s: State, name: string, correction: S.Expression, indexes: seq<S.SymbolId>,
                           types: seq<ValueType>): State {
    s.(calibration := Some(S.Calibration(s.nextSymbol, name, correction, indexes, types, PowerDelta)),
       symbols := Emplace(s.symbols, name, Symbol(s.nextSymbol, PowerDelta, false, false)),
       nextSymbol := s.nextSymbol + 1)
  }

  /** The correction of a calibration whose name, correction and dimensions are accepted. */
  function CalibrationRead(s: State, name: string, correction: Expr, dimensions: seq<string>): Option<S.Expression> {
    var x := Elaborate(correction, s.symbols, s.reference);
    if !NameAvailable(s, name) || x.None? || x.value.typ != PowerDelta
       || !ListsSweepsSoFar(s.symbols, s.sweeps, dimensions) then None else x
  }

  function DeclareCalibration(s: State, name: string, correction: Expr, dimensions: seq<string>): Option<State> {
    var x := CalibrationRead(s, name, correction, dimensions);
    if s.seenCalibration || x.None? then None
    else
      var named := s.(seenCalibration := true, userNames := s.userNames + {name});
      Some(WithCalibration(named, name, x.value, SweepSymbols(s.sweeps), NamedTypes(s.symbols, dimensions)))
  }

  function Step(s: State, statement: Statement): Option<State> {
    match statement
    case ReferenceStatement(power) => DeclareReference(s, power)
    case SweepStatement(dimension, start, end, step) => DeclareSweep(s, dimension, start, end, step)
    case MeasurementStatement(name, operation, legacy) => DeclareMeasurement(s, name, operation, legacy)
    case DeriveStatement(name, expression) => DeclareDerived(s, name, expression)
    case AssertionStatement(expression) => DeclareAssertion(s, expression)
    case CalibrationStatement(name, correction, dimensions) => DeclareCalibration(s, name, correction, dimensions)
  }

  /** The state after n statements; None once a diagnostic has been reported. */
  function Analyzed(statements: seq<Statement>, n: nat): Option<State>
    requires n <= |statements|
  {
    if n == 0 then Some(Initial())
    else
      var s := Analyzed(statements, n - 1);
      if s.None? then None else Step(s.value, statements[n - 1])
  }

  /** Nothing is missing at the end. */
  predicate Complete(s: State) {
    s.seenReference && "frequency" in s.seenDimensions && s.measurement.Some? && s.seenCalibration
  }

  /** What was seen without a report is there. */
  predicate Recorded(s: State) {
    && (s.seenReference <==> s.reference.Some?)
    && ("frequency" in s.seenDimensions <==> s.frequencySweep.Some?)
    && (s.seenCalibration <==> s.calibration.Some?)
  }

  function Assemble(name: string, s: State): S.Program
    requires Complete(s) && Recorded(s)
  {
    S.Program(name, s.reference.value.symbol, s.reference.value.dbm, s.frequencySweep.value, s.sweeps,
              s.totalPointCount, s.measurement.value, s.measurements, s.derived, s.assertions, s.calibration.value)
  }

  lemma StepRecords(s: State, statement: Statement)
    requires Recorded(s) && Step(s, statement).Some?
    ensures Recorded(Step(s, statement).value)
  {
    match statement
    case SweepStatement(dimension, _, _, _) => assert "frequency" in s.seenDimensions + {dimension} <==>
      "frequency" in s.seenDimensions || dimension == "frequency";
    case _ =>
  }

  lemma {:induction false} EverythingRecorded(statements: seq<Statement>, n: nat)
    requires n <= |statements| && Analyzed(statements, n).Some?
    ensures Recorded(Analyzed(statements, n).value)
  {
    if n > 0 {
      EverythingRecorded(statements, n - 1);
      StepRecords(Analyzed(statements, n - 1).value, statements[n - 1]);
    }
  }

  /** The analyzed program; None where a diagnostic is reported. */
  function Analyze(program: Program): Option<S.Program> {
    var s := Analyzed(program.statements, |program.statements|);
    if s.None? || !Complete(s.value) then None
    else
      EverythingRecorded(program.statements, |program.statements|);
      Some(Assemble(program.name, s.value))
  }

  // ----- The pass itself -----

  class Analyzer {
    const input: Program
    var diagnostics: seq<AnalysisError>
    var symbols: map<string, Symbol>
    var declaredUserNames: set<string>
    var futureDerived: set<string>
    var futureMeasurements: set<string>
    var reference: Option<Reference>
    var frequencySweep: Option<S.Sweep>
    var sweeps: seq<S.Sweep>
    var totalPointCount: nat
    var measurement: Option<S.SymbolId>
    var measurements: seq<S.Measurement>
    var derived: seq<S.Derived>
    var assertions: seq<S.Assertion>
    var calibration: Option<S.Calibration>
    var nextSymbol: nat
    var seenReference: bool
    var seenDimensions: set<string>
    var seenMeasurement: bool
    var seenCalibration: bool

    /** The names still to be declared only choose between two diagnostics. */
    ghost function View(): State
      reads this
    {
      State(symbols, declaredUserNames, reference, frequencySweep, sweeps, totalPointCount, measurement,
            measurements, derived, assertions, calibration, nextSymbol, seenReference, seenDimensions,
            seenMeasurement, seenCalibration)
    }

    constructor (input: Program)
      ensures this.input == input && View() == Initial() && diagnostics == []
    {
      this.input := input;
      diagnostics, symbols, declaredUserNames, reference, frequencySweep := [], map[], {}, None, None;
      sweeps, totalPointCount, measurement, measurements, derived := [], 1, None, [], [];
      assertions, calibration, nextSymbol := [], None, 0;
      seenReference, seenDimensions, seenMeasurement, seenCalibration := false, {}, false, false;
      var ders: set<string>, meas: set<string> := {}, {};
      for i := 0 to |input.statements| {
        match input.statements[i] {
          case DeriveStatement(name, _) => ders := ders + {name};
          case MeasurementStatement(name, _, _) => meas := meas + {name};
          case _ =>
        }
      }
      futureDerived, futureMeasurements := ders, meas;
    }

    /** Succeeds without a report, or fails with one. */
    twostate predicate Reports(ok: bool)
      reads this
    {
      if ok then diagnostics == old(diagnostics) else old(diagnostics) < diagnostics
    }

    twostate predicate Follows(expected: Option<State>)
      reads this
    {
      Reports(expected.Some?) && (expected.Some? ==> View() == expected.value)
    }

    method Report(code: AnalysisError)
      modifies this`diagnostics
      ensures old(diagnostics) < diagnostics
    {
      diagnostics := diagnostics + [code];
    }

    method NextSymbol() returns (id: S.SymbolId)
      modifies this`nextSymbol
      ensures id == old(nextSymbol) && nextSymbol == id + 1
    {
      id := nextSymbol;
      nextSymbol := nextSymbol + 1;
    }

    method ReadQuantity(literal: Literal, kind: Dimension) returns (value: Option<real>)
      modifies this`diagnostics
      ensures value == ReadAs(literal, kind) && Reports(value.Some?)
    {
      var c := Convert(literal);
      value := None;
      if c.Rejected? {
        Report(InvalidNumericLiteral);
      } else if c.quantity.kind == kind {
        value := Some(c.quantity.amount);
      } else {
        Report(UnexpectedQuantityType);
      }
    }

    method AnalyzeExpression(e: Expr) returns (result: Option<S.Expression>)
      modifies this`diagnostics
      ensures result == Elaborate(e, symbols, reference) && Reports(result.Some?)
      decreases e
    {
      result := None;
      match e {
        case QuantityExpr(literal) =>
          var c := Convert(literal);
          if c.Converted? {
            result := Some(S.Expression(S.QuantityNode(c.quantity), c.quantity.kind));
          } else {
            Report(InvalidNumericLiteral);
          }
        case IdentifierExpr(name) =>
          if name in symbols && symbols[name].expressionValue {
            result := Some(S.Expression(S.SymbolNode(symbols[name].id, symbols[name].typ), symbols[name].typ));
          } else if name == "power" || name == "frequency" || name in futureDerived || name in futureMeasurements {
            Report(ReferenceNotAvailable);
          } else {
            Report(UnknownIdentifier);
          }
        case ReferenceExpr(object_, member) =>
          if object_ != "reference" || member != "power" {
            Report(UnknownReferenceMember);
          } else if reference.None? {
            Report(ReferenceNotAvailable);
          } else {
            result := Some(S.Expression(S.ReferenceNode(reference.value.symbol, Power), Power));
          }
        case NegateExpr(operand) =>
          var x := AnalyzeExpression(operand);
          if x.Some? {
            if Negatable(x.value.typ) {
              result := Some(S.Expression(S.NegateNode(x.value, x.value.typ), x.value.typ));
            } else {
              Report(InvalidUnaryOperand);
            }
          }
        case BinaryExpr(op, left, right) =>
          var a := AnalyzeExpression(left);
          var b := AnalyzeExpression(right);
          if a.Some? && b.Some? {
            var typ := S.BinaryResult(op, a.value.typ, b.value.typ);
            if typ.Some? {
              result := Some(S.Expression(S.BinaryNode(op, a.value, b.value, typ.value), typ.value));
            } else {
              Report(InvalidBinaryOperands);
            }
          }
        case CallExpr(f, argument) =>
          if f != "abs" {
            Report(UnknownFunction);
          } else {
            var x := AnalyzeExpression(argument);
            if x.Some? {
              if Negatable(x.value.typ) {
                result := Some(S.Expression(S.CallNode(f, x.value, x.value.typ), x.value.typ));
              } else {
                Report(InvalidFunctionArgument);
              }
            }
          }
        case ComparisonExpr(op, left, right) =>
          var a := AnalyzeExpression(left);
          var b := AnalyzeExpression(right);
          if a.Some? && b.Some? {
            var x, y := a.value, b.value;
            if x.typ == FrequencyDelta && y.typ == Frequency { y := Contextualize(y); }
            if y.typ == FrequencyDelta && x.typ == Frequency { x := Contextualize(x); }
            if x.typ != y.typ || x.typ == Boolean {
              Report(InvalidComparisonOperands);
            } else {
              result := Some(S.Expression(S.ComparisonNode(op, x, y), Boolean));
            }
          }
      }
    }

    method AnalyzeReference(power: Literal)
      modifies this
      ensures Follows(DeclareReference(old(View()), power))
    {
      if seenReference {
        Report(DuplicateDeclaration);
        return;
      }
      seenReference := true;
      var dbm := ReadQuantity(power, Power);
      if dbm.None? { return; }
      var id := NextSymbol();
      reference := Some(Reference(id, dbm.value));
    }

    method AddSweepPoints(count: nat) returns (ok: bool)
      requires 1 <= count <= MAXIMUM_POINTS
      modifies this`diagnostics, this`totalPointCount
      ensures ok == (old(totalPointCount) <= MAXIMUM_POINTS / count) && Reports(ok)
      ensures totalPointCount == if ok then old(totalPointCount) * count else old(totalPointCount)
    {
      ok := totalPointCount <= MAXIMUM_POINTS / count;
      if ok {
        totalPointCount := totalPointCount * count;
      } else {
        Report(SweepTooLarge);
      }
    }

    /** Reads the bounds of an axis and counts its points. The two axes check their bounds in
        different orders, and report more or fewer of the faults, but accept the same bounds. */
    method ReadFrequencyAxis(start: Literal, end: Literal, step: Literal) returns (sweep: Option<S.Sweep>)
      modifies this`diagnostics
      ensures sweep == PlannedAxis(FrequencyAxis, start, end, step, nextSymbol) && Reports(sweep.Some?)
    {
      var first := ReadQuantity(start, Frequency);
      var last := ReadQuantity(end, Frequency);
      var increment := ReadQuantity(step, Frequency);
      var valid := first.Some? && last.Some? && increment.Some?;
      if increment.Some? && increment.value <= 0.0 {
        Report(InvalidSweepStep);
        valid := false;
      }
      if first.Some? && last.Some? && last.value < first.value {
        Report(InvalidSweepRange);
        valid := false;
      }
      if !valid { return None; }
      var count := AxisPointCount(first.value, last.value, increment.value);
      if count.None? {
        Report(SweepTooLarge);
        return None;
      }
      sweep := Some(S.Sweep(nextSymbol, FrequencyAxis, first.value, last.value, increment.value, count.value));
    }

    method ReadTemperatureAxis(start: Literal, end: Literal, step: Literal) returns (sweep: Option<S.Sweep>)
      modifies this`diagnostics
      ensures sweep == PlannedAxis(TemperatureAxis, start, end, step, nextSymbol) && Reports(sweep.Some?)
    {
      var first := ReadQuantity(start, Temperature);
      var last := ReadQuantity(end, Temperature);
      var increment := ReadQuantity(step, TemperatureDelta);
      if first.None? || last.None? || increment.None? { return None; }
      if increment.value <= 0.0 {
        Report(InvalidSweepStep);
        return None;
      }
      if last.value < first.value {
        Report(InvalidSweepRange);
        return None;
      }
      var count := AxisPointCount(first.value, last.value, increment.value);
      if count.None? {
        Report(SweepTooLarge);
        return None;
      }
      sweep := Some(S.Sweep(nextSymbol, TemperatureAxis, first.value, last.value, increment.value, count.value));
    }

    method ReadAxis(axis: Axis, start: Literal, end: Literal, step: Literal) returns (sweep: Option<S.Sweep>)
      modifies this`diagnostics
      ensures sweep == PlannedAxis(axis, start, end, step, nextSymbol) && Reports(sweep.Some?)
    {
      if axis == FrequencyAxis {
        sweep := ReadFrequencyAxis(start, end, step);
      } else {
        sweep := ReadTemperatureAxis(start, end, step);
      }
    }

    method RecordSweep(axis: Axis, sweep: S.Sweep)
      modifies this
      ensures View() == WithSweep(old(View()), axis, sweep) && diagnostics == old(diagnostics)
    {
      var id := NextSymbol();
      if axis == FrequencyAxis {
        frequencySweep := Some(sweep);
      }
      sweeps := sweeps + [sweep];
      symbols := Emplace(symbols, AxisName(axis), Symbol(id, AxisType(axis), true, true));
    }

    method AnalyzeSweep(dimension: string, start: Literal, end: Literal, step: Literal)
      modifies this
      ensures Follows(DeclareSweep(old(View()), dimension, start, end, step))
    {
      if dimension in seenDimensions {
        Report(DuplicateDeclaration);
        return;
      }
      if seenMeasurement {
        Report(ReferenceNotAvailable);
        return;
      }
      seenDimensions := seenDimensions + {dimension};
      var axis := DimensionAxis(dimension);
      var sweep := ReadAxis(axis, start, end, step);
      if sweep.None? { return; }
      var ok := AddSweepPoints(sweep.value.pointCount);
      if !ok { return; }
      assert View() == old(View()).(seenDimensions := seenDimensions, totalPointCount := totalPointCount);
      RecordSweep(axis, sweep.value);
    }

    method UserNameAvailable(name: string) returns (ok: bool)
      modifies this`diagnostics, this`declaredUserNames
      ensures ok == NameAvailable(old(View()), name) && Reports(ok)
      ensures declaredUserNames == if ok then old(declaredUserNames) + {name} else old(declaredUserNames)
    {
      ok := name !in {"frequency", "temperature", "power", "abs"} && name !in declaredUserNames;
      if ok {
        declaredUserNames := declaredUserNames + {name};
      } else {
        Report(DuplicateDeclaration);
      }
    }

    /** The short form claims the reserved name 'power'. */
    method MeasurementNameAvailable(name: string, legacy: bool) returns (ok: bool)
      modifies this`diagnostics, this`declaredUserNames
      ensures ok == (if legacy then "power" !in symbols else NameAvailable(old(View()), name)) && Reports(ok)
      ensures declaredUserNames == if ok && !legacy then old(declaredUserNames) + {name} else old(declaredUserNames)
    {
      if !legacy {
        ok := UserNameAvailable(name);
      } else {
        ok := "power" !in symbols;
        if !ok { Report(DuplicateDeclaration); }
      }
    }

    method RecordMeasurement(name: string, op: MeasurementOperation, legacy: bool)
      modifies this
      ensures View() == WithMeasurement(old(View()), name, op, legacy) && diagnostics == old(diagnostics)
    {
      var id := NextSymbol();
      measurements := measurements + [S.Measurement(id, name, op, ResultType(op), legacy)];
      symbols := Emplace(symbols, name, Symbol(id, ResultType(op), false, true));
      if op == MeasurePower && measurement.None? {
        measurement := Some(id);
      }
    }

    method AnalyzeMeasurement(name: string, operation: string, legacy: bool)
      modifies this
      ensures Follows(DeclareMeasurement(old(View()), name, operation, legacy))
    {
      futureMeasurements := futureMeasurements - {name};
      seenMeasurement := true;
      if !seenReference {
        Report(ReferenceNotAvailable);
      }
      var nameValid := MeasurementNameAvailable(name, legacy);
      if !nameValid { return; }
      var op := OperationNamed(operation);
      if op.None? {
        Report(UnknownMeasurementOperation);
        return;
      }
      RecordMeasurement(name, op.value, legacy);
    }

    method RecordDerived(name: string, x: S.Expression)
      modifies this
      ensures View() == WithDerived(old(View()), name, x) && diagnostics == old(diagnostics)
    {
      var id := NextSymbol();
      derived := derived + [S.Derived(id, name, x, x.typ)];
      symbols := Emplace(symbols, name, Symbol(id, x.typ, false, true));
    }

    method AnalyzeDerived(name: string, expression: Expr)
      modifies this
      ensures Follows(DeclareDerived(old(View()), name, expression))
    {
      futureDerived := futureDerived - {name};
      var nameValid := UserNameAvailable(name);
      var x := AnalyzeExpression(expression);
      if !nameValid || x.None? { return; }
      RecordDerived(name, x.value);
    }

    method AnalyzeAssertion(expression: Expr)
      modifies this
      ensures Follows(DeclareAssertion(old(View()), expression))
    {
      var x := AnalyzeExpression(expression);
      if x.None? { return; }
      if x.value.typ != Boolean {
        Report(AssertionRequiresBoolean);
        return;
      }
      var ordinal := |assertions| + 1;
      assertions := assertions + [S.Assertion("assertion-" + Decimal(ordinal), ordinal, x.value)];
    }

    /** Resolves the listed dimensions; a fault is reported for each one that is repeated, unknown
        or not a sweep. */
    method ResolveDimensions(dimensions: seq<string>)
      returns (ok: bool, indexes: seq<S.SymbolId>, types: seq<ValueType>)
      modifies this`diagnostics
      ensures Reports(ok)
      ensures |indexes| == |types|
      ensures ok ==> |indexes| == |dimensions|
      ensures ok <==> forall i :: 0 <= i < |dimensions| ==>
        dimensions[i] !in dimensions[..i] && dimensions[i] in symbols && symbols[dimensions[i]].sweep
      ensures ok ==> forall i :: 0 <= i < |dimensions| ==>
        indexes[i] == symbols[dimensions[i]].id && types[i] == symbols[dimensions[i]].typ
    {
      ok, indexes, types := true, [], [];
      var used: set<string> := {};
      for i := 0 to |dimensions|
        invariant Reports(ok)
        invariant |indexes| == |types| <= i
        invariant ok ==> |indexes| == i
        invariant used == set d | d in dimensions[..i]
        invariant ok <==> forall k :: 0 <= k < i ==>
          dimensions[k] !in dimensions[..k] && dimensions[k] in symbols && symbols[dimensions[k]].sweep
        invariant ok ==> forall k :: 0 <= k < i ==>
          indexes[k] == symbols[dimensions[k]].id && types[k] == symbols[dimensions[k]].typ
      {
        var name := dimensions[i];
        assert dimensions[..i + 1] == dimensions[..i] + [name];
        if name in used {
          Report(DuplicateCalibrationDimension);
          ok := false;
        } else {
          used := used + {name};
          if name !in symbols {
            Report(UnknownCalibrationDimension);
            ok := false;
          } else if !symbols[name].sweep {
            Report(NonSweepCalibrationDimension);
            ok := false;
          } else {
            indexes := indexes + [symbols[name].id];
            types := types + [symbols[name].typ];
          }
        }
      }
    }

    /** Compares the resolved indexes with the sweeps declared so far. */
    method MatchSweeps(indexes: seq<S.SymbolId>) returns (ok: bool)
      modifies this`diagnostics
      ensures Reports(ok)
      ensures ok <==> |indexes| == |sweeps| && forall i :: 0 <= i < |sweeps| ==> indexes[i] == sweeps[i].symbol
    {
      ok := |indexes| == |sweeps|;
      if !ok {
        Report(InvalidCalibrationDimensions);
        return;
      }
      for i := 0 to |indexes|
        invariant ok && diagnostics == old(diagnostics)
        invariant forall k :: 0 <= k < i ==> indexes[k] == sweeps[k].symbol
      {
        if indexes[i] != sweeps[i].symbol {
          Report(InvalidCalibrationDimensions);
          return false;
        }
      }
    }

    method ReadDimensions(dimensions: seq<string>) returns (ok: bool, indexes: seq<S.SymbolId>, types: seq<ValueType>)
      modifies this`diagnostics
      ensures Reports(ok) && (ok <==> ListsSweepsSoFar(symbols, sweeps, dimensions))
      ensures ok ==> indexes == SweepSymbols(sweeps) && types == NamedTypes(symbols, dimensions)
    {
      var resolved, matched: bool;
      resolved, indexes, types := ResolveDimensions(dimensions);
      matched := MatchSweeps(indexes);
      ok := resolved && matched;
    }

    method ReadCorrection(correction: Expr) returns (x: Option<S.Expression>)
      modifies this`diagnostics
      ensures Reports(x.Some?)
      ensures var e := Elaborate(correction, symbols, reference);
        x == if e.Some? && e.value.typ == PowerDelta then e else None
    {
      x := AnalyzeExpression(correction);
      if x.Some? && x.value.typ != PowerDelta {
        Report(InvalidCalibrationCorrection);
        x := None;
      }
    }

    /** The correction, symbols and types of a calibration, None where its name, its correction or
        its dimensions are refused. */
    method ReadCalibration(name: string, correction: Expr, dimensions: seq<string>)
      returns (x: Option<S.Expression>, indexes: seq<S.SymbolId>, types: seq<ValueType>)
      modifies this`diagnostics, this`declaredUserNames
      ensures Reports(x.Some?) && x == CalibrationRead(old(View()), name, correction, dimensions)
      ensures x.Some? ==> declaredUserNames == old(declaredUserNames) + {name}
      ensures x.Some? ==> indexes == SweepSymbols(sweeps) && types == NamedTypes(symbols, dimensions)
    {
      var nameValid := UserNameAvailable(name);
      x := ReadCorrection(correction);
      var listed;
      listed, indexes, types := ReadDimensions(dimensions);
      if !nameValid || !listed { x := None; }
    }

    method RecordCalibration(name: string, correction: S.Expression, indexes: seq<S.SymbolId>, types: seq<ValueType>)
      modifies this
      ensures View() == WithCalibration(old(View()), name, correction, indexes, types)
        && diagnostics == old(diagnostics)
    {
      var id := NextSymbol();
      calibration := Some(S.Calibration(id, name, correction, indexes, types, PowerDelta));
      symbols := Emplace(symbols, name, Symbol(id, PowerDelta, false, false));
    }

    method AnalyzeCalibration(name: string, correction: Expr, dimensions: seq<string>)
      modifies this
      ensures Follows(DeclareCalibration(old(View()), name, correction, dimensions))
    {
      if seenCalibration {
        Report(DuplicateDeclaration);
        return;
      }
      seenCalibration := true;
      var x, indexes, types := ReadCalibration(name, correction, dimensions);
      if x.None? { return; }
      assert View() == old(View()).(seenCalibration := true, userNames := old(declaredUserNames) + {name});
      RecordCalibration(name, x.value, indexes, types);
    }

    method AnalyzeStatement(statement: Statement)
      modifies this
      ensures Follows(Step(old(View()), statement))
    {
      match statement {
        case ReferenceStatement(power) => AnalyzeReference(power);
        case SweepStatement(dimension, start, end, step) => AnalyzeSweep(dimension, start, end, step);
        case MeasurementStatement(name, operation, legacy) => AnalyzeMeasurement(name, operation, legacy);
        case DeriveStatement(name, expression) => AnalyzeDerived(name, expression);
        case AssertionStatement(expression) => AnalyzeAssertion(expression);
        case CalibrationStatement(name, correction, dimensions) => AnalyzeCalibration(name, correction, dimensions);
      }
    }

    method AddMissingDeclarations()
      modifies this`diagnostics
      ensures Reports(Complete(View()))
    {
      if !seenReference { Report(MissingReference); }
      if "frequency" !in seenDimensions { Report(MissingSweep); }
      if measurement.None? { Report(MissingMeasurement); }
      if !seenCalibration { Report(MissingCalibration); }
    }

    method AnalyzeStatements()
      requires View() == Initial() && diagnostics == []
      modifies this
      ensures AgreesWith(Analyzed(input.statements, |input.statements|))
    {
      for i := 0 to |input.statements|
        invariant AgreesWith(Analyzed(input.statements, i))
      {
        AnalyzeStatement(input.statements[i]);
      }
    }

    ghost predicate AgreesWith(s: Option<State>)
      reads this
    {
      if s.Some? then diagnostics == [] && View() == s.value else diagnostics != []
    }

    /** A program is produced exactly when nothing is reported. */
    method Run() returns (result: Option<S.Program>)
      requires View() == Initial() && diagnostics == []
      modifies this
      ensures result == Analyze(input)
      ensures result.Some? <==> diagnostics == []
    {
      AnalyzeStatements();
      AddMissingDeclarations();
      if diagnostics != [] { return None; }
      EverythingRecorded(input.statements, |input.statements|);
      result := Some(S.Program(
        input.name, reference.value.symbol, reference.value.dbm, frequencySweep.value, sweeps, totalPointCount,
        measurement.value, measurements, derived, assertions, calibration.value));
    }
  }
}
