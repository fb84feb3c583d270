/** The analyzed program: typed expression trees over symbols, and their direct evaluation. */
module Semantic {
  import opened Domain
  import opened Points
  import opened Text

  type SymbolId = nat

  /** Every node repeats its type beside the type of the enclosing expression. */
  datatype Expression = Expression(node: Node, typ: ValueType)

  datatype Node =
    | QuantityNode(value: Scalar)
    | SymbolNode(symbol: SymbolId, typ: ValueType)
    | ReferenceNode(symbol: SymbolId, typ: ValueType)
    | NegateNode(operand: Expression, typ: ValueType)
    | BinaryNode(op: BinaryOperator, left: Expression, right: Expression, typ: ValueType)
    | CallNode(function_: string, argument: Expression, typ: ValueType)
    | ComparisonNode(comparison: ComparisonOperator, left: Expression, right: Expression)

  /** The typing table of the binary operators. */
  function BinaryResult(op: BinaryOperator, left: ValueType, right: ValueType): Option<Dimension> {
    if op == Add && left == Power && right == PowerDelta then Some(Power)
    else if op == Add && left == PowerDelta && right == PowerDelta then Some(PowerDelta)
    else if op == Subtract && left == Power && right == Power then Some(PowerDelta)
    else if left == right && PlainDelta(left) then Some(left)
    else None
  }

  predicate Typed(e: Expression, types: map<SymbolId, ValueType>) {
    match e.node
    case QuantityNode(value) => e.typ == value.kind
    case SymbolNode(symbol, typ) => symbol in types && types[symbol] == typ == e.typ
    case ReferenceNode(symbol, typ) => symbol in types && types[symbol] == typ == e.typ
    case NegateNode(operand, typ) => Typed(operand, types) && operand.typ == typ == e.typ && Negatable(typ)
    case BinaryNode(op, left, right, typ) =>
      && Typed(left, types) && Typed(right, types)
      && BinaryResult(op, left.typ, right.typ) == Some(typ) && typ == e.typ
    case CallNode(f, argument, typ) =>
      f == "abs" && Typed(argument, types) && argument.typ == typ == e.typ && Negatable(typ)
    case ComparisonNode(_, left, right) =>
      && Typed(left, types) && Typed(right, types)
      && left.typ == right.typ && left.typ != Boolean && e.typ == Boolean
  }

  /** The symbols an expression mentions. */
  function Mentions(e: Expression): set<SymbolId> {
    match e.node
    case QuantityNode(_) => {}
    case SymbolNode(symbol, _) => {symbol}
    case ReferenceNode(symbol, _) => {symbol}
    case NegateNode(operand, _) => Mentions(operand)
    case BinaryNode(_, left, right, _) => Mentions(left) + Mentions(right)
    case CallNode(_, argument, _) => Mentions(argument)
    case ComparisonNode(_, left, right) => Mentions(left) + Mentions(right)
  }

  function Arithmetic(op: BinaryOperator, a: real, b: real): real {
    if op == Add then a + b else a - b
  }

  /** Direct evaluation of the tree. */
  function Evaluate(e: Expression, env: map<SymbolId, Value>): Option<Value> {
    match e.node
    case QuantityNode(value) => Some(Quantity(value.kind, value.amount))
    case SymbolNode(symbol, _) => if symbol in env then Some(env[symbol]) else None
    case ReferenceNode(symbol, _) => if symbol in env then Some(env[symbol]) else None
    case NegateNode(operand, _) =>
      var v := Evaluate(operand, env);
      if v.Some? && v.value.Quantity? then Some(Quantity(v.value.kind, -v.value.amount)) else None
    case BinaryNode(op, left, right, _) =>
      var a, b := Evaluate(left, env), Evaluate(right, env);
      if a.Some? && a.value.Quantity? && b.Some? && b.value.Quantity? then
        var kind := BinaryResult(op, a.value.kind, b.value.kind);
        if kind.Some? then Some(Quantity(kind.value, Arithmetic(op, a.value.amount, b.value.amount))) else None
      else None
    case CallNode(_, argument, _) =>
      var v := Evaluate(argument, env);
      if v.Some? && v.value.Quantity? then Some(Quantity(v.value.kind, Abs(v.value.amount))) else None
    case ComparisonNode(op, left, right) =>
      var a, b := Evaluate(left, env), Evaluate(right, env);
      if a.Some? && a.value.Quantity? && b.Some? && b.value.Quantity?
      then Some(Truth(Compares(op, a.value.amount, b.value.amount))) else None
  }

  predicate EnvironmentTyped(env: map<SymbolId, Value>, types: map<SymbolId, ValueType>) {
    forall s <- types :: s in env && TypeOf(env[s]) == types[s]
  }

  /** A typed tree evaluates to a value of its type. */
  lemma {:induction false} EvaluationIsTyped(e: Expression, types: map<SymbolId, ValueType>, env: map<SymbolId, Value>)
    requires Typed(e, types) && EnvironmentTyped(env, types)
    ensures Evaluate(e, env).Some? && TypeOf(Evaluate(e, env).value) == e.typ
  {
    match e.node
    case QuantityNode(_) =>
    case SymbolNode(_, _) =>
    case ReferenceNode(_, _) =>
    case NegateNode(operand, _) => EvaluationIsTyped(operand, types, env);
    case BinaryNode(_, left, right, _) =>
      EvaluationIsTyped(left, types, env);
      EvaluationIsTyped(right, types, env);
    case CallNode(_, argument, _) => EvaluationIsTyped(argument, types, env);
    case ComparisonNode(_, left, right) =>
      EvaluationIsTyped(left, types, env);
      EvaluationIsTyped(right, types, env);
  }

  /** Evaluation and typing depend only on the symbols mentioned. */
  lemma {:induction false} EvaluationIsLocal(e: Expression, env: map<SymbolId, Value>, env': map<SymbolId, Value>)
    requires forall s <- Mentions(e) :: s in env && s in env' && env[s] == env'[s]
    ensures Evaluate(e, env) == Evaluate(e, env')
  {
    match e.node
    case QuantityNode(_) =>
    case SymbolNode(s, _) => assert s in Mentions(e);
    case ReferenceNode(s, _) => assert s in Mentions(e);
    case NegateNode(operand, _) => EvaluationIsLocal(operand, env, env');
    case BinaryNode(_, left, right, _) =>
      EvaluationIsLocal(left, env, env');
      EvaluationIsLocal(right, env, env');
    case CallNode(_, argument, _) => EvaluationIsLocal(argument, env, env');
    case ComparisonNode(_, left, right) =>
      EvaluationIsLocal(left, env, env');
      EvaluationIsLocal(right, env, env');
  }

  lemma {:induction false} TypingIsMonotonic(e: Expression, types: map<SymbolId, ValueType>,
                                             types': map<SymbolId, ValueType>)
    requires Typed(e, types)
    requires forall s <- Mentions(e) :: s in types ==> s in types' && types'[s] == types[s]
    ensures Typed(e, types') && Mentions(e) <= types.Keys
  {
    match e.node
    case QuantityNode(_) =>
    case SymbolNode(s, _) => assert s in Mentions(e);
    case ReferenceNode(s, _) => assert s in Mentions(e);
    case NegateNode(operand, _) => TypingIsMonotonic(operand, types, types');
    case BinaryNode(_, left, right, _) =>
      TypingIsMonotonic(left, types, types');
      TypingIsMonotonic(right, types, types');
    case CallNode(_, argument, _) => TypingIsMonotonic(argument, types, types');
    case ComparisonNode(_, left, right) =>
      TypingIsMonotonic(left, types, types');
      TypingIsMonotonic(right, types, types');
  }

  // ----- Programs -----

  datatype Sweep = Sweep(
    symbol: SymbolId, axis: Axis, start: real, end: real, step: real, pointCount: nat)

  datatype Measurement = Measurement(
    symbol: SymbolId, name: string, operation: MeasurementOperation, typ: ValueType, legacy: bool)

  datatype Derived = Derived(symbol: SymbolId, name: string, expression: Expression, typ: ValueType)

  datatype Assertion = Assertion(id: string, ordinal: nat, expression: Expression)

  datatype Calibration = Calibration(
    symbol: SymbolId, name: string, correction: Expression, indexes: seq<SymbolId>,
    indexTypes: seq<ValueType>, correctionType: ValueType)

  datatype Program = Program(
    name: string, referenceSymbol: SymbolId, reference: real, sweep: Sweep, sweeps: seq<Sweep>,
    totalPointCount: nat, measurement: SymbolId, measurements: seq<Measurement>,
    derived: seq<Derived>, assertions: seq<Assertion>, calibration: Calibration)

  // ----- Declarations in the order of the program's lists: sweeps, measurements, derived -----

  function DeclarationCount(p: Program): nat {
    |p.sweeps| + |p.measurements| + |p.derived|
  }

  function DeclaredSymbol(p: Program, i: nat): SymbolId
    requires i < DeclarationCount(p)
  {
    if i < |p.sweeps| then p.sweeps[i].symbol
    else if i < |p.sweeps| + |p.measurements| then p.measurements[i - |p.sweeps|].symbol
    else p.derived[i - |p.sweeps| - |p.measurements|].symbol
  }

  function DeclaredType(p: Program, i: nat): ValueType
    requires i < DeclarationCount(p)
  {
    if i < |p.sweeps| then AxisType(p.sweeps[i].axis)
    else if i < |p.sweeps| + |p.measurements| then p.measurements[i - |p.sweeps|].typ
    else p.derived[i - |p.sweeps| - |p.measurements|].typ
  }

  /** The types of the reference and of the first n declarations. */
  function Types(p: Program, n: nat): map<SymbolId, ValueType>
    requires n <= DeclarationCount(p)
  {
    if n == 0 then map[p.referenceSymbol := Power]
    else Types(p, n - 1)[DeclaredSymbol(p, n - 1) := DeclaredType(p, n - 1)]
  }

  /** The point has one coordinate per sweep and one reading per measurement. */
  predicate PointMatches(p: Program, point: Point) {
    && |point.coordinates| == |p.sweeps|
    && (forall i :: 0 <= i < |p.sweeps| ==>
          && point.coordinates[i].name == AxisName(p.sweeps[i].axis)
          && point.coordinates[i].axis == p.sweeps[i].axis
          && point.coordinates[i].value.kind == AxisType(p.sweeps[i].axis))
    && |point.readings| == |p.measurements|
  }

  /** What the i-th declaration denotes: a sweep its own coordinate, a measurement its own
      reading, a derived quantity the direct evaluation of its tree. */
  function DeclaredValue(p: Program, point: Point, i: nat, env: map<SymbolId, Value>): Option<Value>
    requires i < DeclarationCount(p) && PointMatches(p, point)
  {
    if i < |p.sweeps| then
      Some(Quantity(point.coordinates[i].value.kind, point.coordinates[i].value.amount))
    else if i < |p.sweeps| + |p.measurements| then
      Some(Quantity(ResultType(p.measurements[i - |p.sweeps|].operation), point.readings[i - |p.sweeps|]))
    else Evaluate(p.derived[i - |p.sweeps| - |p.measurements|].expression, env)
  }

  /** The direct semantics of a program at a point: the values of the reference and of the first
      n declarations. */
  function Environment(p: Program, point: Point, n: nat): map<SymbolId, Value>
    requires n <= DeclarationCount(p) && PointMatches(p, point)
  {
    if n == 0 then map[p.referenceSymbol := Quantity(Power, p.reference)]
    else
      var env := Environment(p, point, n - 1);
      var v := DeclaredValue(p, point, n - 1, env);
      if v.Some? then env[DeclaredSymbol(p, n - 1) := v.value] else env
  }

  function AllTypes(p: Program): map<SymbolId, ValueType> {
    Types(p, DeclarationCount(p))
  }

  function FullEnvironment(p: Program, point: Point): map<SymbolId, Value>
    requires PointMatches(p, point)
  {
    Environment(p, point, DeclarationCount(p))
  }

  // ----- Well-formed programs -----

  predicate Fresh(p: Program, i: nat)
    requires i < DeclarationCount(p)
  {
    DeclaredSymbol(p, i) !in Types(p, i)
  }

  /** Symbols are pairwise distinct: each declaration is new to those before it. */
  predicate DistinctSymbols(p: Program) {
    && (forall i :: 0 <= i < DeclarationCount(p) ==> Fresh(p, i))
    && p.calibration.symbol !in AllTypes(p)
  }

  predicate WellTypedMeasurements(p: Program) {
    && (forall m <- p.measurements :: m.name != "" && m.typ == ResultType(m.operation))
    && exists j :: 0 <= j < |p.measurements| && FirstPower(p, j)
  }

  /** The j-th measurement is the first one of power, and the program names it. */
  predicate FirstPower(p: Program, j: nat)
    requires j < |p.measurements|
  {
    && p.measurements[j].operation == MeasurePower && p.measurements[j].symbol == p.measurement
    && forall k :: 0 <= k < j ==> p.measurements[k].operation != MeasurePower
  }

  /** A derived quantity uses only the declarations before it. */
  predicate WellTypedDerived(p: Program, k: nat)
    requires k < |p.derived|
  {
    && Typed(p.derived[k].expression, Types(p, |p.sweeps| + |p.measurements| + k))
    && p.derived[k].typ == p.derived[k].expression.typ
  }

  predicate WellTypedAssertion(p: Program, i: nat)
    requires i < |p.assertions|
  {
    && Typed(p.assertions[i].expression, AllTypes(p))
    && p.assertions[i].expression.typ == Boolean
    && p.assertions[i].id == "assertion-" + Decimal(i + 1)
    && p.assertions[i].ordinal == i + 1
  }

  /** The calibration lists the leading sweeps, in order. */
  predicate WellFormedCalibration(p: Program) {
    && Typed(p.calibration.correction, AllTypes(p))
    && p.calibration.correction.typ == p.calibration.correctionType == PowerDelta
    && |p.calibration.indexes| == |p.calibration.indexTypes| <= |p.sweeps|
    && forall i :: 0 <= i < |p.calibration.indexes| ==>
         && p.calibration.indexes[i] == p.sweeps[i].symbol
         && p.calibration.indexTypes[i] == AxisType(p.sweeps[i].axis)
  }

  function PartialProduct(sweeps: seq<Sweep>, n: nat): nat
    requires n <= |sweeps|
  {
    if n == 0 then 1 else PartialProduct(sweeps, n - 1) * sweeps[n - 1].pointCount
  }

  /** One frequency sweep and at most one temperature sweep. */
  predicate SweepAxes(p: Program) {
    && 1 <= |p.sweeps| <= 2
    && (|p.sweeps| == 2 ==> p.sweeps[0].axis != p.sweeps[1].axis)
    && p.sweep in p.sweeps && p.sweep.axis == FrequencyAxis
  }

  /** Every axis has points, and the total is their product, within the limit. */
  predicate SweepCounts(p: Program) {
    && (forall sweep <- p.sweeps :: sweep.pointCount > 0)
    && PartialProduct(p.sweeps, |p.sweeps|) == p.totalPointCount <= MAXIMUM_POINTS
  }

  predicate WellDeclared(p: Program) {
    && DistinctSymbols(p)
    && SweepAxes(p)
    && WellTypedMeasurements(p)
    && (forall k :: 0 <= k < |p.derived| ==> WellTypedDerived(p, k))
  }

  predicate WellFormed(p: Program) {
    && WellDeclared(p)
    && SweepCounts(p)
    && (forall i :: 0 <= i < |p.assertions| ==> WellTypedAssertion(p, i))
    && WellFormedCalibration(p)
  }
}
