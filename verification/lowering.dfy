/** Lowering of analyzed programs to the IR. */
module Lowering {
  import opened Domain
  import opened Ir
  import opened Points
  import opened Evaluator
  import opened Validator
  import opened Soundness
  import S = Semantic

  datatype LoweringError =
    | DuplicateSymbol | UnknownSymbol | TypeMismatch | InvalidDefinitionOrder
    | InvalidCalibrationIndex | UnsupportedExpression

  datatype Binding = Binding(value: ValueId, typ: ValueType)

  // ----- Expressions: the specification of the recursive descent -----

  datatype Lowered = Lowered(values: seq<Slot>, id: ValueId, typ: ValueType)

  function Emit(values: seq<Slot>, typ: ValueType, definition: Definition): Lowered {
    Lowered(values + [Slot(|values|, typ, definition)], |values|, typ)
  }

  /** The definition chosen for a binary operator, when its operand types allow one. */
  function BinaryDefinition(op: BinaryOperator, left: Binding, right: Binding): Option<Definition> {
    if op == Add && left.typ == Power && right.typ == PowerDelta then Some(ApplyPowerDelta(left.value, right.value))
    else if op == Add && left.typ == PowerDelta && right.typ == PowerDelta
      then Some(AddPowerDelta(left.value, right.value))
    else if op == Subtract && left.typ == Power && right.typ == Power
      then Some(PowerDifference(left.value, right.value))
    else if left.typ == right.typ && PlainDelta(left.typ) then
      Some(if op == Add then AddDelta(left.value, right.value) else SubtractDelta(left.value, right.value))
    else None
  }

  function Negation(typ: ValueType, id: ValueId): Definition {
    if typ == PowerDelta then NegatePowerDelta(id) else NegateDelta(id)
  }

  /** The node emitted once the operands are lowered, when every type agrees. */
  function EmitNegation(a: Lowered, typ: ValueType, outer: ValueType): Option<Lowered> {
    if a.typ == typ == outer && Negatable(typ) then Some(Emit(a.values, typ, Negation(typ, a.id))) else None
  }

  function EmitAbsolute(a: Lowered, typ: ValueType, outer: ValueType): Option<Lowered> {
    if a.typ == typ == outer && Negatable(typ) then Some(Emit(a.values, typ, AbsoluteValue(a.id))) else None
  }

  function EmitBinary(op: BinaryOperator, a: Lowered, b: Lowered, typ: ValueType, outer: ValueType): Option<Lowered> {
    var d := BinaryDefinition(op, Binding(a.id, a.typ), Binding(b.id, b.typ));
    if d.Some? && S.BinaryResult(op, a.typ, b.typ) == Some(typ) && typ == outer then Some(Emit(b.values, typ, d.value))
    else None
  }

  function EmitComparison(op: ComparisonOperator, a: Lowered, b: Lowered, outer: ValueType): Option<Lowered> {
    if outer == Boolean && a.typ == b.typ && a.typ != Boolean
    then Some(Emit(b.values, Boolean, Compare(op, a.id, b.id, a.typ))) else None
  }

  function Lower(e: S.Expression, symbols: map<S.SymbolId, Binding>, values: seq<Slot>): Option<Lowered> {
    match e.node
    case QuantityNode(q) =>
      if e.typ == q.kind then Some(Emit(values, e.typ, Constant(Quantity(q.kind, q.amount)))) else None
    case SymbolNode(s, typ) => LowerLeaf(s, typ, e.typ, symbols, values)
    case ReferenceNode(s, typ) => LowerLeaf(s, typ, e.typ, symbols, values)
    case NegateNode(operand, typ) =>
      var a := Lower(operand, symbols, values);
      if a.None? then None else EmitNegation(a.value, typ, e.typ)
    case BinaryNode(op, left, right, typ) =>
      var a := Lower(left, symbols, values);
      if a.None? then None else
      var b := Lower(right, symbols, a.value.values);
      if b.None? then None else EmitBinary(op, a.value, b.value, typ, e.typ)
    case CallNode(f, argument, typ) =>
      if f != "abs" then None else
      var a := Lower(argument, symbols, values);
      if a.None? then None else EmitAbsolute(a.value, typ, e.typ)
    case ComparisonNode(op, left, right) =>
      var a := Lower(left, symbols, values);
      if a.None? then None else
      var b := Lower(right, symbols, a.value.values);
      if b.None? then None else EmitComparison(op, a.value, b.value, e.typ)
  }

  function LowerLeaf(symbol: S.SymbolId, typ: ValueType, outer: ValueType,
                     symbols: map<S.SymbolId, Binding>, values: seq<Slot>): Option<Lowered>
  {
    if symbol in symbols && typ == symbols[symbol].typ == outer && symbols[symbol].value < |values|
    then Some(Lowered(values, symbols[symbol].value, symbols[symbol].typ)) else None
  }

  function SymbolTypes(symbols: map<S.SymbolId, Binding>): map<S.SymbolId, ValueType> {
    map s | s in symbols :: symbols[s].typ
  }

  predicate BindingsMatch(symbols: map<S.SymbolId, Binding>, values: seq<Slot>) {
    forall s <- symbols :: symbols[s].value < |values| && values[symbols[s].value].typ == symbols[s].typ
  }

  /** Quantities and combinations of earlier slots: what lowering an expression may emit. */
  predicate Pure(d: Definition) {
    !d.ReferencePower? && !d.SweepValue? && !d.Measure? && (d.Constant? ==> d.value.Quantity?)
  }

  /** The slots grew by pure definitions only. */
  predicate Extends(before: seq<Slot>, after: seq<Slot>) {
    && |before| <= |after| && after[..|before|] == before
    && forall i :: |before| <= i < |after| ==> Pure(after[i].definition)
  }

  /** The slots stay valid, grow by pure definitions, and the returned slot has the given type. */
  predicate GoodResult(before: seq<Slot>, r: Lowered, typ: ValueType) {
    && ValidDefinitions(r.values) && Extends(before, r.values)
    && r.id < |r.values| && r.values[r.id].typ == r.typ == typ
  }

  lemma GoodThenGood(values: seq<Slot>, a: Lowered, b: Lowered, s: ValueType, t: ValueType)
    requires GoodResult(values, a, s) && GoodResult(a.values, b, t)
    ensures Extends(values, b.values) && a.id < |b.values| && b.values[a.id].typ == s
  {
    assert b.values[..|values|] == b.values[..|a.values|][..|values|];
    assert b.values[a.id] == b.values[..|a.values|][a.id];
    forall i | |values| <= i < |b.values| ensures Pure(b.values[i].definition) {
      if i < |a.values| { assert b.values[i] == b.values[..|a.values|][i]; }
    }
  }

  /** Emitting a pure definition whose operands are in place and of the right types. */
  lemma EmitIsGood(before: seq<Slot>, values: seq<Slot>, typ: ValueType, definition: Definition)
    requires ValidDefinitions(values) && Extends(before, values) && Pure(definition)
    requires ValidDefinition(values + [Slot(|values|, typ, definition)], |values|)
    ensures GoodResult(before, Emit(values, typ, definition), typ)
  {
    var after := values + [Slot(|values|, typ, definition)];
    assert after[..|before|] == values[..|before|];
    forall i | 0 <= i < |after| ensures ValidSlot(after, i) {
      if i < |values| { assert ValidSlot(values, i); }
    }
  }

  lemma BinaryIsGood(before: seq<Slot>, values: seq<Slot>, op: BinaryOperator, left: Binding, right: Binding)
    requires ValidDefinitions(values) && Extends(before, values)
    requires left.value < |values| && values[left.value].typ == left.typ
    requires right.value < |values| && values[right.value].typ == right.typ
    requires BinaryDefinition(op, left, right).Some?
    ensures S.BinaryResult(op, left.typ, right.typ).Some?
    ensures GoodResult(before, Emit(values, S.BinaryResult(op, left.typ, right.typ).value,
                                    BinaryDefinition(op, left, right).value),
                       S.BinaryResult(op, left.typ, right.typ).value)
  {
    EmitIsGood(before, values, S.BinaryResult(op, left.typ, right.typ).value, BinaryDefinition(op, left, right).value);
  }

  /** Lowering succeeds exactly on well-typed trees, keeps the slots valid, and returns a slot of
      the tree's type. */
  lemma {:induction false} LoweringAcceptsTyped(e: S.Expression, symbols: map<S.SymbolId, Binding>, values: seq<Slot>)
    requires ValidDefinitions(values) && BindingsMatch(symbols, values)
    ensures Lower(e, symbols, values).Some? <==> S.Typed(e, SymbolTypes(symbols))
    ensures Lower(e, symbols, values).Some? ==> GoodResult(values, Lower(e, symbols, values).value, e.typ)
    decreases e, 1
  {
    var r := Lower(e, symbols, values);
    match e.node
    case QuantityNode(q) =>
      if r.Some? { EmitIsGood(values, values, e.typ, Constant(Quantity(q.kind, q.amount))); }
    case SymbolNode(_, _) =>
    case ReferenceNode(_, _) =>
    case NegateNode(operand, typ) =>
      LoweringAcceptsTyped(operand, symbols, values);
      if r.Some? {
        var a := Lower(operand, symbols, values).value;
        EmitIsGood(values, a.values, typ, Negation(typ, a.id));
      }
    case BinaryNode(op, left, right, typ) =>
      OperandsLower(e, left, right, symbols, values);
      if r.Some? {
        var a := Lower(left, symbols, values).value;
        var b := Lower(right, symbols, a.values).value;
        BinaryIsGood(values, b.values, op, Binding(a.id, a.typ), Binding(b.id, b.typ));
      }
    case CallNode(_, argument, typ) =>
      LoweringAcceptsTyped(argument, symbols, values);
      if r.Some? {
        var a := Lower(argument, symbols, values).value;
        EmitIsGood(values, a.values, typ, AbsoluteValue(a.id));
      }
    case ComparisonNode(op, left, right) =>
      OperandsLower(e, left, right, symbols, values);
      if r.Some? {
        var a := Lower(left, symbols, values).value;
        var b := Lower(right, symbols, a.values).value;
        EmitIsGood(values, b.values, Boolean, Compare(op, a.id, b.id, a.typ));
      }
  }

  /** Two operands lowered left to right: both slots are in place after the second. */
  lemma {:induction false} OperandsLower(e: S.Expression, left: S.Expression, right: S.Expression,
                                         symbols: map<S.SymbolId, Binding>, values: seq<Slot>)
    requires ValidDefinitions(values) && BindingsMatch(symbols, values)
    requires (e.node.BinaryNode? || e.node.ComparisonNode?) && left == e.node.left && right == e.node.right
    ensures Lower(left, symbols, values).Some? <==> S.Typed(left, SymbolTypes(symbols))
    ensures Lower(left, symbols, values).Some? ==>
      var a := Lower(left, symbols, values).value;
      && a.typ == left.typ
      && (Lower(right, symbols, a.values).Some? <==> S.Typed(right, SymbolTypes(symbols)))
      && (Lower(right, symbols, a.values).Some? ==>
           var b := Lower(right, symbols, a.values).value;
           && ValidDefinitions(b.values) && Extends(values, b.values)
           && a.id < |b.values| && b.values[a.id].typ == left.typ
           && b.id < |b.values| && b.values[b.id].typ == b.typ == right.typ)
    decreases e, 0
  {
    LoweringAcceptsTyped(left, symbols, values);
    if Lower(left, symbols, values).Some? {
      var a := Lower(left, symbols, values).value;
      LoweringAcceptsTyped(right, symbols, a.values);
      if Lower(right, symbols, a.values).Some? {
        GoodThenGood(values, a, Lower(right, symbols, a.values).value, left.typ, right.typ);
      }
    }
  }

  // ----- Lowering preserves the meaning of expressions -----

  /** What the symbols denote once the slots are filled. */
  function SlotEnvironment(symbols: map<S.SymbolId, Binding>, filled: seq<Value>): map<S.SymbolId, Value> {
    map s | s in symbols && symbols[s].value < |filled| :: filled[symbols[s].value]
  }

  lemma {:induction false} PureCount(before: seq<Slot>, after: seq<Slot>)
    requires Extends(before, after)
    ensures MeasureCount(after) == MeasureCount(before)
    ensures forall family :: Count(after, family) == Count(before, family)
    decreases |after|
  {
    if |after| == |before| {
      assert after == before;
    } else {
      var shorter := after[..|after| - 1];
      assert shorter[..|before|] == after[..|before|];
      PureCount(before, shorter);
      assert Pure(after[|after| - 1].definition);
    }
  }

  lemma ExtensionFills(before: seq<Slot>, after: seq<Slot>, point: Point)
    requires ValidDefinitions(after) && Extends(before, after) && Answerable(before, point)
    ensures Answerable(after, point)
    ensures Fold(after, point).Some? && WellTyped(after, Fold(after, point).value)
    ensures Fold(before, point).Some? && Fold(after, point).value[..|before|] == Fold(before, point).value
  {
    PureCount(before, after);
    forall i | 0 <= i < |after| && after[i].definition.SweepValue?
      ensures CoordinateOf(point.coordinates, after[i].definition.axis).Some?
    {
      assert i < |before|;
      assert after[i] == after[..|before|][i];
    }
    FoldIsTyped(after, point);
    FoldPrefix(after, |before|, point);
  }

  lemma EnvironmentStable(symbols: map<S.SymbolId, Binding>, before: seq<Slot>, after: seq<Slot>, point: Point)
    requires BindingsMatch(symbols, before)
    requires ValidDefinitions(after) && Extends(before, after) && Answerable(before, point)
    ensures Fold(before, point).Some? && Fold(after, point).Some?
    ensures SlotEnvironment(symbols, Fold(after, point).value) == SlotEnvironment(symbols, Fold(before, point).value)
  {
    ExtensionFills(before, after, point);
    var a, b := Fold(after, point).value, Fold(before, point).value;
    forall s <- symbols ensures a[symbols[s].value] == b[symbols[s].value] {
      assert a[symbols[s].value] == a[..|before|][symbols[s].value];
    }
  }

  /** The slot emitted for a tree holds, at every point, the value of the tree. */
  ghost predicate Means(e: S.Expression, symbols: map<S.SymbolId, Binding>, values: seq<Slot>, r: Lowered,
                        point: Point) {
    && Fold(values, point).Some? && Fold(r.values, point).Some?
    && r.id < |r.values|
    && S.Evaluate(e, SlotEnvironment(symbols, Fold(values, point).value)) == Some(Fold(r.values, point).value[r.id])
  }

  lemma {:induction false} LoweringPreservesMeaning(e: S.Expression, symbols: map<S.SymbolId, Binding>,
                                                    values: seq<Slot>, point: Point)
    requires ValidDefinitions(values) && BindingsMatch(symbols, values) && Answerable(values, point)
    requires Lower(e, symbols, values).Some?
    ensures Means(e, symbols, values, Lower(e, symbols, values).value, point)
    decreases e, 1
  {
    LoweringAcceptsTyped(e, symbols, values);
    var r := Lower(e, symbols, values).value;
    ExtensionFills(values, r.values, point);
    match e.node
    case QuantityNode(q) => FoldAppend(values, r.values[|values|], point);
    case SymbolNode(_, _) =>
    case ReferenceNode(_, _) =>
    case NegateNode(operand, typ) => NegateMeaning(e, symbols, values, point);
    case BinaryNode(_, left, right, _) => BinaryMeaning(e, left, right, symbols, values, point);
    case CallNode(_, argument, typ) => AbsoluteMeaning(e, symbols, values, point);
    case ComparisonNode(_, left, right) => BinaryMeaning(e, left, right, symbols, values, point);
  }

  /** The emitted slot holds v. */
  predicate Holds(r: Lowered, point: Point, v: Value) {
    r.id < |r.values| && Fold(r.values, point).Some? && Fold(r.values, point).value[r.id] == v
  }

  lemma EmitHolds(values: seq<Slot>, typ: ValueType, d: Definition, point: Point, filled: seq<Value>, v: Value)
    requires Fold(values, point) == Some(filled)
    requires EvaluateDefinition(d, point, MeasureCount(values), filled) == Some(v)
    ensures Holds(Emit(values, typ, d), point, v)
  {
    FoldAppend(values, Slot(|values|, typ, d), point);
  }

  lemma NegationHolds(values: seq<Slot>, typ: Dimension, id: ValueId, point: Point, filled: seq<Value>)
    requires Fold(values, point) == Some(filled)
    requires Negatable(typ) && id < |filled| && filled[id].Quantity? && filled[id].kind == typ
    ensures Holds(Emit(values, typ, Negation(typ, id)), point, Quantity(typ, -filled[id].amount))
  {
    EmitHolds(values, typ, Negation(typ, id), point, filled, Quantity(typ, -filled[id].amount));
  }

  lemma AbsoluteHolds(values: seq<Slot>, typ: Dimension, id: ValueId, point: Point, filled: seq<Value>)
    requires Fold(values, point) == Some(filled)
    requires Negatable(typ) && id < |filled| && filled[id].Quantity? && filled[id].kind == typ
    ensures Holds(Emit(values, typ, AbsoluteValue(id)), point, Quantity(typ, Abs(filled[id].amount)))
  {
    EmitHolds(values, typ, AbsoluteValue(id), point, filled, Quantity(typ, Abs(filled[id].amount)));
  }

  lemma BinaryHolds(values: seq<Slot>, op: BinaryOperator, left: ValueId, right: ValueId, point: Point,
                    filled: seq<Value>)
    requires Fold(values, point) == Some(filled)
    requires left < |filled| && right < |filled| && filled[left].Quantity? && filled[right].Quantity?
    requires S.BinaryResult(op, filled[left].kind, filled[right].kind).Some?
    ensures
      var typ := S.BinaryResult(op, filled[left].kind, filled[right].kind).value;
      var d := BinaryDefinition(op, Binding(left, filled[left].kind), Binding(right, filled[right].kind));
      && d.Some?
      && Holds(Emit(values, typ, d.value), point,
               Quantity(typ, S.Arithmetic(op, filled[left].amount, filled[right].amount)))
  {
    var typ := S.BinaryResult(op, filled[left].kind, filled[right].kind).value;
    var d := BinaryDefinition(op, Binding(left, filled[left].kind), Binding(right, filled[right].kind)).value;
    EmitHolds(values, typ, d, point, filled,
      Quantity(typ, S.Arithmetic(op, filled[left].amount, filled[right].amount)));
  }

  lemma CompareHolds(values: seq<Slot>, op: ComparisonOperator, left: ValueId, right: ValueId, t: ValueType,
                     point: Point, filled: seq<Value>)
    requires Fold(values, point) == Some(filled)
    requires left < |filled| && right < |filled| && filled[left].Quantity? && filled[right].Quantity?
    ensures Holds(Emit(values, Boolean, Compare(op, left, right, t)), point,
                  Truth(Compares(op, filled[left].amount, filled[right].amount)))
  {
    EmitHolds(values, Boolean, Compare(op, left, right, t), point, filled,
              Truth(Compares(op, filled[left].amount, filled[right].amount)));
  }

  lemma {:induction false} OperandMeaning(e: S.Expression, operand: S.Expression, symbols: map<S.SymbolId, Binding>,
                                          values: seq<Slot>, point: Point)
    requires ValidDefinitions(values) && BindingsMatch(symbols, values) && Answerable(values, point)
    requires Lower(e, symbols, values).Some?
    requires (e.node.NegateNode? && operand == e.node.operand) || (e.node.CallNode? && operand == e.node.argument)
    ensures Lower(operand, symbols, values).Some?
    ensures var a := Lower(operand, symbols, values).value;
      && Fold(values, point).Some? && Fold(a.values, point).Some? && a.id < |a.values|
      && var v := Fold(a.values, point).value[a.id];
      && v.Quantity? && v.kind == a.typ == operand.typ == e.node.typ == e.typ && Negatable(e.typ)
      && S.Evaluate(operand, SlotEnvironment(symbols, Fold(values, point).value)) == Some(v)
    decreases e, 0
  {
    LoweringAcceptsTyped(operand, symbols, values);
    LoweringPreservesMeaning(operand, symbols, values, point);
    var a := Lower(operand, symbols, values).value;
    ExtensionFills(values, a.values, point);
    assert TypeOf(Fold(a.values, point).value[a.id]) == operand.typ;
  }

  lemma HoldsMeans(e: S.Expression, symbols: map<S.SymbolId, Binding>, values: seq<Slot>, r: Lowered, point: Point,
                   v: Value)
    requires Fold(values, point).Some? && Holds(r, point, v)
    requires S.Evaluate(e, SlotEnvironment(symbols, Fold(values, point).value)) == Some(v)
    ensures Means(e, symbols, values, r, point)
  {
  }

  lemma {:induction false} NegateMeaning(e: S.Expression, symbols: map<S.SymbolId, Binding>, values: seq<Slot>,
                                         point: Point)
    requires ValidDefinitions(values) && BindingsMatch(symbols, values) && Answerable(values, point)
    requires Lower(e, symbols, values).Some? && e.node.NegateNode?
    ensures Means(e, symbols, values, Lower(e, symbols, values).value, point)
    decreases e, 1, 0
  {
    OperandMeaning(e, e.node.operand, symbols, values, point);
    var a := Lower(e.node.operand, symbols, values).value;
    var filled := Fold(a.values, point).value;
    NegationHolds(a.values, e.typ, a.id, point, filled);
    var v := Quantity(e.typ, -filled[a.id].amount);
    assert S.Evaluate(e, SlotEnvironment(symbols, Fold(values, point).value)) == Some(v);
    HoldsMeans(e, symbols, values, EmitNegation(a, e.node.typ, e.typ).value, point, v);
  }

  lemma {:induction false} AbsoluteMeaning(e: S.Expression, symbols: map<S.SymbolId, Binding>, values: seq<Slot>,
                                           point: Point)
    requires ValidDefinitions(values) && BindingsMatch(symbols, values) && Answerable(values, point)
    requires Lower(e, symbols, values).Some? && e.node.CallNode?
    ensures Means(e, symbols, values, Lower(e, symbols, values).value, point)
    decreases e, 1, 0
  {
    OperandMeaning(e, e.node.argument, symbols, values, point);
    var a := Lower(e.node.argument, symbols, values).value;
    var filled := Fold(a.values, point).value;
    AbsoluteHolds(a.values, e.typ, a.id, point, filled);
    var v := Quantity(e.typ, Abs(filled[a.id].amount));
    assert S.Evaluate(e, SlotEnvironment(symbols, Fold(values, point).value)) == Some(v);
    HoldsMeans(e, symbols, values, EmitAbsolute(a, e.node.typ, e.typ).value, point, v);
  }

  /** After both operands are lowered, their slots hold their values. */
  lemma {:induction false} OperandMeanings(e: S.Expression, left: S.Expression, right: S.Expression,
                                           symbols: map<S.SymbolId, Binding>, values: seq<Slot>, point: Point)
    requires ValidDefinitions(values) && BindingsMatch(symbols, values) && Answerable(values, point)
    requires Lower(e, symbols, values).Some?
    requires (e.node.BinaryNode? || e.node.ComparisonNode?) && left == e.node.left && right == e.node.right
    ensures Lower(left, symbols, values).Some?
    ensures var a := Lower(left, symbols, values).value;
      && Lower(right, symbols, a.values).Some?
      && var b := Lower(right, symbols, a.values).value;
      && Fold(values, point).Some? && Fold(b.values, point).Some?
      && a.id < |b.values| && b.id < |b.values|
      && var filled := Fold(b.values, point).value;
      && TypeOf(filled[a.id]) == a.typ == left.typ && TypeOf(filled[b.id]) == b.typ == right.typ
      && var env := SlotEnvironment(symbols, Fold(values, point).value);
      && S.Evaluate(left, env) == Some(filled[a.id]) && S.Evaluate(right, env) == Some(filled[b.id])
    decreases e, 0
  {
    LoweringAcceptsTyped(left, symbols, values);
    LoweringPreservesMeaning(left, symbols, values, point);
    var a := Lower(left, symbols, values).value;
    ExtensionFills(values, a.values, point);
    LoweringAcceptsTyped(right, symbols, a.values);
    LoweringPreservesMeaning(right, symbols, a.values, point);
    var b := Lower(right, symbols, a.values).value;
    EnvironmentStable(symbols, values, a.values, point);
    ExtensionFills(a.values, b.values, point);
    var filled := Fold(b.values, point).value;
    assert filled[a.id] == filled[..|a.values|][a.id];
  }

  lemma {:induction false} BinaryMeaning(e: S.Expression, left: S.Expression, right: S.Expression,
                                         symbols: map<S.SymbolId, Binding>, values: seq<Slot>, point: Point)
    requires ValidDefinitions(values) && BindingsMatch(symbols, values) && Answerable(values, point)
    requires Lower(e, symbols, values).Some?
    requires (e.node.BinaryNode? || e.node.ComparisonNode?) && left == e.node.left && right == e.node.right
    ensures Means(e, symbols, values, Lower(e, symbols, values).value, point)
    decreases e, 1, 0
  {
    OperandMeanings(e, left, right, symbols, values, point);
    var a := Lower(left, symbols, values).value;
    var b := Lower(right, symbols, a.values).value;
    var filled := Fold(b.values, point).value;
    if e.node.BinaryNode? {
      BinaryHolds(b.values, e.node.op, a.id, b.id, point, filled);
    } else {
      CompareHolds(b.values, e.node.comparison, a.id, b.id, a.typ, point, filled);
    }
  }
}
