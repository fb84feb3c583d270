/** The lowering pass: one run over an analyzed program, filling the slots of the output. */
module LoweringPass {
  import opened Domain
  import opened Points
  import opened Ir
  import opened Evaluator
  import opened Validator
  import opened Soundness
  import opened Lowering
  import opened Representation
  import S = Semantic

  // ----- The output, list by list -----

  function LoweredSweep(p: S.Program, i: nat): TypedSweep
    requires i < |p.sweeps|
  {
    var s := p.sweeps[i];
    TypedSweep(1 + i, AxisName(s.axis), s.axis, Scalar(AxisType(s.axis), s.start),
               Scalar(AxisType(s.axis), s.end), Scalar(StepType(s.axis), s.step), s.pointCount)
  }

  function LoweredMeasurement(p: S.Program, j: nat): Measurement
    requires j < |p.measurements|
  {
    var m := p.measurements[j];
    Measurement(m.name, m.operation, 1 + |p.sweeps| + j, m.typ, m.legacy)
  }

  predicate NamesDerived(p: S.Program, k: nat, symbols: map<S.SymbolId, Binding>, named: NamedValue)
    requires k < |p.derived|
  {
    var d := p.derived[k];
    d.symbol in symbols && named == NamedValue(d.name, symbols[d.symbol].value, symbols[d.symbol].typ)
  }

  /** The slot evaluates, at every point, as the tree does in the full environment. */
  ghost predicate Denotes(p: S.Program, values: seq<Slot>, id: ValueId, e: S.Expression) {
    && id < |values| && values[id].typ == e.typ
    && forall point | S.PointMatches(p, point) ::
         && Fold(values, point).Some?
         && Some(Fold(values, point).value[id]) == S.Evaluate(e, S.FullEnvironment(p, point))
  }

  ghost predicate LowersAssertion(p: S.Program, i: nat, values: seq<Slot>, a: Assertion)
    requires i < |p.assertions|
  {
    && a.id == p.assertions[i].id && a.ordinal == p.assertions[i].ordinal
    && Denotes(p, values, a.value, p.assertions[i].expression)
    && Comparison(values, a.value) == Some(Compare(a.op, a.left, a.right, a.operandType))
  }

  predicate ListsSweeps(p: S.Program, c: Calibration) {
    && |c.indexes| == |c.indexTypes| == |p.calibration.indexes| <= |p.sweeps|
    && forall i :: 0 <= i < |c.indexes| ==> c.indexes[i] == 1 + i && c.indexTypes[i] == AxisType(p.sweeps[i].axis)
  }

  predicate LowersSweeps(p: S.Program, sweeps: seq<TypedSweep>, n: nat) {
    n <= |p.sweeps| && |sweeps| == n && forall i :: 0 <= i < n ==> sweeps[i] == LoweredSweep(p, i)
  }

  predicate LastFrequency(p: S.Program, i: nat, n: nat)
    requires i < n <= |p.sweeps|
  {
    p.sweeps[i].axis == FrequencyAxis && forall k :: i < k < n ==> p.sweeps[k].axis != FrequencyAxis
  }

  /** The legacy sweep copies the last frequency sweep so far. */
  predicate LegacyCopies(p: S.Program, legacy: LegacySweep, n: nat) {
    && n <= |p.sweeps|
    && forall i | 0 <= i < n && LastFrequency(p, i, n) ::
         legacy == LegacySweep(1 + i, p.sweeps[i].start, p.sweeps[i].end, p.sweeps[i].step)
  }

  predicate LowersMeasurements(p: S.Program, measurements: seq<Measurement>, n: nat) {
    n <= |p.measurements| && |measurements| == n && forall j :: 0 <= j < n ==>
      measurements[j] == LoweredMeasurement(p, j)
  }

  /** The chosen measurement is the first power measurement, once that one is lowered. */
  predicate PicksFirstPower(p: S.Program, measurement: ValueId, n: nat) {
    n <= |p.measurements| && forall j :: 0 <= j < n && S.FirstPower(p, j) ==> measurement == 1 + |p.sweeps| + j
  }

  ghost predicate LowersAssertions(p: S.Program, values: seq<Slot>, assertions: seq<Assertion>, n: nat) {
    && n <= |p.assertions| && |assertions| == n
    && forall i :: 0 <= i < n ==> LowersAssertion(p, i, values, assertions[i])
  }

  predicate NamesAll(p: S.Program, symbols: map<S.SymbolId, Binding>, named: seq<NamedValue>, n: nat) {
    n <= |p.derived| && |named| == n && forall k :: 0 <= k < n ==> NamesDerived(p, k, symbols, named[k])
  }

  /** The IR program is a faithful lowering of the analyzed one. */
  ghost predicate Implements(p: S.Program, q: Program, symbols: map<S.SymbolId, Binding>) {
    && Represents(p, S.DeclarationCount(p), q.values, symbols)
    && q.name == p.name && q.reference == 0 && q.totalPointCount == p.totalPointCount
    && LowersSweeps(p, q.sweeps, |p.sweeps|)
    && LegacyCopies(p, q.sweep, |p.sweeps|)
    && LowersMeasurements(p, q.measurements, |p.measurements|)
    && PicksFirstPower(p, q.measurement, |p.measurements|)
    && NamesAll(p, symbols, q.namedValues, |p.derived|)
    && LowersAssertions(p, q.values, q.assertions, |p.assertions|)
    && q.calibration.name == p.calibration.name && q.calibration.correctionType == PowerDelta
    && Denotes(p, q.values, q.calibration.correction, p.calibration.correction)
    && ListsSweeps(p, q.calibration)
  }

  // ----- What the pass computes, declaration by declaration -----

  /** The output so far, and the symbols bound or reserved. */
  datatype State = State(
    values: seq<Slot>, symbols: map<S.SymbolId, Binding>, used: set<S.SymbolId>,
    sweeps: seq<TypedSweep>, legacy: LegacySweep, measurement: ValueId, measurements: seq<Measurement>,
    named: seq<NamedValue>, assertions: seq<Assertion>)

  function Start(p: S.Program): State {
    State([], map[], {}, [], LegacySweep(0, p.sweep.start, p.sweep.end, p.sweep.step), 0, [], [], [])
  }

  /** Emits a slot and binds a fresh symbol to it. */
  function BindSlot(s: State, symbol: S.SymbolId, typ: ValueType, definition: Definition): Option<State> {
    if symbol in s.used then None
    else
      var r := Emit(s.values, typ, definition);
      Some(s.(values := r.values, used := s.used + {symbol},
              symbols := if symbol in s.symbols then s.symbols else s.symbols[symbol := Binding(r.id, typ)]))
  }

  function DeclareSweep(p: S.Program, i: nat, s: State): Option<State>
    requires i < |p.sweeps|
  {
    var sweep, id := p.sweeps[i], |s.values|;
    var bound := BindSlot(s, sweep.symbol, AxisType(sweep.axis), SweepValue(sweep.axis));
    if bound.None? then None
    else Some(bound.value.(
      sweeps := s.sweeps + [TypedSweep(id, AxisName(sweep.axis), sweep.axis, Scalar(AxisType(sweep.axis), sweep.start),
                                       Scalar(AxisType(sweep.axis), sweep.end),
                                       Scalar(StepType(sweep.axis), sweep.step), sweep.pointCount)],
      legacy := if sweep.axis == FrequencyAxis then LegacySweep(id, sweep.start, sweep.end, sweep.step) else s.legacy))
  }

  function DeclareMeasurement(p: S.Program, j: nat, s: State): Option<State>
    requires j < |p.measurements|
  {
    var m, id := p.measurements[j], |s.values|;
    var bound := BindSlot(s, m.symbol, m.typ, Measure(m.operation));
    if bound.None? then None
    else Some(bound.value.(
      measurements := s.measurements + [Measurement(m.name, m.operation, id, m.typ, m.legacy)],
      measurement := if m.symbol == p.measurement then id else s.measurement))
  }

  function DeclareDerived(p: S.Program, k: nat, s: State): Option<State>
    requires k < |p.derived|
  {
    var d := p.derived[k];
    if d.symbol in s.used then None
    else
      var r := LoweredDerived(d, s.symbols, s.values);
      if r.None? || r.value.typ != d.typ then None
      else Some(s.(
        values := r.value.values, used := s.used + {d.symbol},
        symbols := if d.symbol in s.symbols then s.symbols else s.symbols[d.symbol := Binding(r.value.id, r.value.typ)],
        named := s.named + [NamedValue(d.name, r.value.id, r.value.typ)]))
  }

  /** The state after the reference and the first n sweeps. */
  function Swept(p: S.Program, n: nat): Option<State>
    requires n <= |p.sweeps|
  {
    if n == 0 then BindSlot(Start(p), p.referenceSymbol, Power, ReferencePower(p.reference))
    else
      var s := Swept(p, n - 1);
      if s.None? then None else DeclareSweep(p, n - 1, s.value)
  }

  /** The state after the sweeps and the first n measurements. */
  function Measured(p: S.Program, n: nat): Option<State>
    requires n <= |p.measurements|
  {
    if n == 0 then Swept(p, |p.sweeps|)
    else
      var s := Measured(p, n - 1);
      if s.None? then None else DeclareMeasurement(p, n - 1, s.value)
  }

  /** The state after the measurements and the first n derived quantities. */
  function Derived(p: S.Program, n: nat): Option<State>
    requires n <= |p.derived|
  {
    if n == 0 then Measured(p, |p.measurements|)
    else
      var s := Derived(p, n - 1);
      if s.None? then None else DeclareDerived(p, n - 1, s.value)
  }

  function DeclareAssertion(p: S.Program, i: nat, s: State): Option<State>
    requires i < |p.assertions|
  {
    var a := p.assertions[i];
    var r := Lower(a.expression, s.symbols, s.values);
    if r.None? || r.value.typ != Boolean then None
    else
      var c := Comparison(r.value.values, r.value.id);
      if c.None? || !c.value.Compare? then None
      else Some(s.(
        values := r.value.values,
        assertions := s.assertions + [Assertion(a.id, a.ordinal, r.value.id, c.value.left, c.value.right,
                                                c.value.operandType, c.value.op)]))
  }

  /** The state after every declaration and the first n assertions. */
  function Asserted(p: S.Program, n: nat): Option<State>
    requires n <= |p.assertions|
  {
    if n == 0 then Derived(p, |p.derived|)
    else
      var s := Asserted(p, n - 1);
      if s.None? then None else DeclareAssertion(p, n - 1, s.value)
  }

  /** The i-th calibration index is bound, new, and the i-th sweep of a matching type. */
  predicate IndexAccepted(p: S.Program, i: nat, s: State)
    requires i < |p.calibration.indexes| == |p.calibration.indexTypes|
  {
    var symbol, typ := p.calibration.indexes[i], p.calibration.indexTypes[i];
    && symbol in s.symbols
    && (forall k :: 0 <= k < i ==> p.calibration.indexes[k] != symbol)
    && i < |s.sweeps| && s.symbols[symbol] == Binding(s.sweeps[i].value, typ)
    && typ in {Frequency, Temperature}
  }

  predicate CalibrationAccepted(p: S.Program, s: State) {
    && |p.calibration.indexes| == |p.calibration.indexTypes| > 0
    && forall i :: 0 <= i < |p.calibration.indexes| ==> IndexAccepted(p, i, s)
  }

  function IndexSlots(s: State, indexes: seq<S.SymbolId>): (slots: seq<ValueId>)
    ensures |slots| == |indexes|
    ensures forall i :: 0 <= i < |indexes| && indexes[i] in s.symbols ==> slots[i] == s.symbols[indexes[i]].value
  {
    seq(|indexes|, i requires 0 <= i < |indexes| => if indexes[i] in s.symbols then s.symbols[indexes[i]].value else 0)
  }

  function LowerCalibration(p: S.Program, s: State): Option<Program> {
    var c := p.calibration;
    if c.symbol in s.used || c.correctionType != PowerDelta || c.correction.typ != PowerDelta then None
    else
      var r := Lower(c.correction, s.symbols, s.values);
      if r.None? || r.value.typ != PowerDelta || !CalibrationAccepted(p, s) then None
      else Some(Program(
        p.name, 0, s.legacy, s.sweeps, p.totalPointCount, s.measurement, s.measurements, r.value.values,
        s.named, s.assertions,
        Calibration(c.name, r.value.id, IndexSlots(s, c.indexes), c.indexTypes, PowerDelta)))
  }

  /** The whole pass. */
  function LowerProgram(p: S.Program): Option<Program> {
    var s := Asserted(p, |p.assertions|);
    if s.None? then None else LowerCalibration(p, s.value)
  }

  // ----- The pass itself -----

  class Lowerer {
    const input: S.Program
    var values: seq<Slot>
    var sweeps: seq<TypedSweep>
    var legacy: LegacySweep
    var measurement: ValueId
    var measurements: seq<Measurement>
    var namedValues: seq<NamedValue>
    var assertions: seq<Assertion>
    var symbols: map<S.SymbolId, Binding>
    var used: set<S.SymbolId>
    var diagnostics: seq<LoweringError>

    ghost function View(): State
      reads this
    {
      State(values, symbols, used, sweeps, legacy, measurement, measurements, namedValues, assertions)
    }

    constructor (input: S.Program)
      ensures this.input == input && View() == Start(input) && diagnostics == []
    {
      this.input := input;
      values, sweeps, measurements, namedValues, assertions := [], [], [], [], [];
      legacy := LegacySweep(0, input.sweep.start, input.sweep.end, input.sweep.step);
      measurement := 0;
      symbols, used, diagnostics := map[], {}, [];
    }

    /** A step succeeds into the expected state without a report, or fails with one. */
    twostate predicate Follows(ok: bool, expected: Option<State>)
      reads this
    {
      if expected.Some? then ok && View() == expected.value && diagnostics == old(diagnostics)
      else !ok && diagnostics != []
    }

    method Report(code: LoweringError)
      modifies this`diagnostics
      ensures diagnostics == old(diagnostics) + [code]
    {
      diagnostics := diagnostics + [code];
    }

    method EmitSlot(typ: ValueType, definition: Definition) returns (id: ValueId)
      modifies this`values
      ensures Lowered(values, id, typ) == Emit(old(values), typ, definition)
    {
      id := |values|;
      values := values + [Slot(id, typ, definition)];
    }

    method ReserveSymbol(symbol: S.SymbolId) returns (ok: bool)
      modifies this`used, this`diagnostics
      ensures ok == (symbol !in old(used)) && used == old(used) + {symbol}
      ensures if ok then diagnostics == old(diagnostics) else diagnostics != []
    {
      ok := symbol !in used;
      used := used + {symbol};
      if !ok { Report(DuplicateSymbol); }
    }

    method EmitAndBind(symbol: S.SymbolId, typ: ValueType, definition: Definition) returns (ok: bool, id: ValueId)
      modifies this`values, this`used, this`diagnostics, this`symbols
      ensures Follows(ok, BindSlot(old(View()), symbol, typ, definition)) && id == |old(values)|
    {
      id := EmitSlot(typ, definition);
      ok := ReserveSymbol(symbol);
      if ok && symbol !in symbols { symbols := symbols[symbol := Binding(id, typ)]; }
    }

    /** The recursive descent does what Lower specifies; a failure is always reported. */
    method LowerExpression(e: S.Expression) returns (r: Option<Binding>)
      modifies this`values, this`diagnostics
      ensures var s := Lower(e, symbols, old(values));
        if s.Some?
        then r == Some(Binding(s.value.id, s.value.typ)) && values == s.value.values && diagnostics == old(diagnostics)
        else r.None? && diagnostics != []
      decreases e
    {
      match e.node {
        case QuantityNode(q) =>
          if e.typ != q.kind {
            Report(LoweringError.TypeMismatch);
            return None;
          }
          var id := EmitSlot(e.typ, Constant(Quantity(q.kind, q.amount)));
          r := Some(Binding(id, e.typ));
        case SymbolNode(s, typ) => r := LowerLeafNode(s, typ, e.typ);
        case ReferenceNode(s, typ) => r := LowerLeafNode(s, typ, e.typ);
        case NegateNode(operand, typ) =>
          var a := LowerExpression(operand);
          if a.None? { return None; }
          if a.value.typ != typ || typ != e.typ || !Negatable(typ) {
            Report(LoweringError.TypeMismatch);
            return None;
          }
          var id := EmitSlot(typ, Negation(typ, a.value.value));
          r := Some(Binding(id, typ));
        case BinaryNode(op, left, right, typ) =>
          var a := LowerExpression(left);
          if a.None? { return None; }
          var b := LowerExpression(right);
          if b.None? { return None; }
          r := LowerBinary(op, a.value, b.value, typ, e.typ);
        case CallNode(f, argument, typ) =>
          if f != "abs" {
            Report(UnsupportedExpression);
            return None;
          }
          var a := LowerExpression(argument);
          if a.None? || a.value.typ != typ || typ != e.typ || !Negatable(typ) {
            Report(LoweringError.TypeMismatch);
            return None;
          }
          var id := EmitSlot(typ, AbsoluteValue(a.value.value));
          r := Some(Binding(id, typ));
        case ComparisonNode(op, left, right) =>
          var a := LowerExpression(left);
          var b := LowerExpression(right);
          if a.None? || b.None? || e.typ != Boolean || a.value.typ != b.value.typ || a.value.typ == Boolean {
            Report(LoweringError.TypeMismatch);
            return None;
          }
          var id := EmitSlot(Boolean, Compare(op, a.value.value, b.value.value, a.value.typ));
          r := Some(Binding(id, Boolean));
      }
    }

    method LowerLeafNode(symbol: S.SymbolId, typ: ValueType, outer: ValueType) returns (r: Option<Binding>)
      modifies this`diagnostics
      ensures var s := LowerLeaf(symbol, typ, outer, symbols, values);
        if s.Some?
        then r == Some(Binding(s.value.id, s.value.typ)) && values == s.value.values && diagnostics == old(diagnostics)
        else r.None? && diagnostics != []
    {
      if symbol !in symbols {
        Report(UnknownSymbol);
        return None;
      }
      var found := symbols[symbol];
      if typ != found.typ || outer != found.typ {
        Report(LoweringError.TypeMismatch);
        return None;
      }
      if found.value >= |values| {
        Report(LoweringError.InvalidDefinitionOrder);
        return None;
      }
      r := Some(found);
    }

    method LowerBinary(op: BinaryOperator, left: Binding, right: Binding, typ: ValueType, outer: ValueType)
      returns (r: Option<Binding>)
      modifies this`values, this`diagnostics
      ensures var s := EmitBinary(op, Lowered(old(values), left.value, left.typ),
                                  Lowered(old(values), right.value, right.typ), typ, outer);
        if s.Some?
        then r == Some(Binding(s.value.id, s.value.typ)) && values == s.value.values && diagnostics == old(diagnostics)
        else r.None? && diagnostics != []
    {
      var definition: Definition;
      var result: ValueType;
      if op == Add && left.typ == Power && right.typ == PowerDelta {
        result, definition := Power, ApplyPowerDelta(left.value, right.value);
      } else if op == Add && left.typ == PowerDelta && right.typ == PowerDelta {
        result, definition := PowerDelta, AddPowerDelta(left.value, right.value);
      } else if op == Subtract && left.typ == Power && right.typ == Power {
        result, definition := PowerDelta, PowerDifference(left.value, right.value);
      } else if left.typ == right.typ && PlainDelta(left.typ) {
        result := left.typ;
        definition := if op == Add then AddDelta(left.value, right.value) else SubtractDelta(left.value, right.value);
      } else {
        Report(UnsupportedExpression);
        return None;
      }
      if typ != result || outer != result {
        Report(LoweringError.TypeMismatch);
        return None;
      }
      var id := EmitSlot(result, definition);
      r := Some(Binding(id, result));
    }

    // ----- The sections of a run -----

    method LowerSweep(i: nat) returns (ok: bool)
      requires i < |input.sweeps|
      modifies this
      ensures Follows(ok, DeclareSweep(input, i, old(View())))
    {
      var sweep, id := input.sweeps[i], 0;
      ok, id := EmitAndBind(sweep.symbol, AxisType(sweep.axis), SweepValue(sweep.axis));
      if !ok { return; }
      sweeps := sweeps + [TypedSweep(id, AxisName(sweep.axis), sweep.axis, Scalar(AxisType(sweep.axis), sweep.start),
                                     Scalar(AxisType(sweep.axis), sweep.end), Scalar(StepType(sweep.axis), sweep.step),
                                     sweep.pointCount)];
      if sweep.axis == FrequencyAxis { legacy := LegacySweep(id, sweep.start, sweep.end, sweep.step); }
    }

    method LowerMeasurement(j: nat) returns (ok: bool)
      requires j < |input.measurements|
      modifies this
      ensures Follows(ok, DeclareMeasurement(input, j, old(View())))
    {
      var m, id := input.measurements[j], 0;
      ok, id := EmitAndBind(m.symbol, m.typ, Measure(m.operation));
      if !ok { return; }
      measurements := measurements + [Measurement(m.name, m.operation, id, m.typ, m.legacy)];
      if m.symbol == input.measurement { measurement := id; }
    }

    method LowerDerived(k: nat) returns (ok: bool)
      requires k < |input.derived|
      modifies this
      ensures Follows(ok, DeclareDerived(input, k, old(View())))
    {
      var d := input.derived[k];
      ok := ReserveSymbol(d.symbol);
      if !ok { return; }
      var root := LowerExpression(d.expression);
      if root.None? { return false; }
      if root.value.typ != d.typ {
        Report(LoweringError.TypeMismatch);
        return false;
      }
      if Leaf(d.expression) {
        var alias := EmitSlot(root.value.typ, Alias(root.value.value));
        root := Some(Binding(alias, root.value.typ));
      }
      if d.symbol !in symbols { symbols := symbols[d.symbol := root.value]; }
      namedValues := namedValues + [NamedValue(d.name, root.value.value, root.value.typ)];
    }

    /** Follows aliases to the comparison behind a value. */
    method ComparisonDefinition(id: ValueId) returns (found: Option<Definition>)
      ensures found == Comparison(values, id)
    {
      var current: ValueId := id;
      while current < |values|
        invariant Comparison(values, id) == Comparison(values, current)
        decreases current
      {
        match values[current].definition {
          case Compare(_, _, _, _) => return Some(values[current].definition);
          case Alias(target) =>
            if target >= current { return None; }
            current := target;
          case _ => return None;
        }
      }
      found := None;
    }

    method LowerAssertion(i: nat) returns (ok: bool)
      requires i < |input.assertions|
      modifies this
      ensures Follows(ok, DeclareAssertion(input, i, old(View())))
    {
      var a := input.assertions[i];
      var root := LowerExpression(a.expression);
      if root.None? || root.value.typ != Boolean {
        Report(LoweringError.TypeMismatch);
        return false;
      }
      var found := ComparisonDefinition(root.value.value);
      if found.None? || !found.value.Compare? {
        Report(UnsupportedExpression);
        return false;
      }
      assertions := assertions + [Assertion(a.id, a.ordinal, root.value.value, found.value.left, found.value.right,
                                            found.value.operandType, found.value.op)];
      ok := true;
    }

    method CheckIndexes() returns (ok: bool, indexes: seq<ValueId>)
      modifies this`diagnostics
      ensures ok == CalibrationAccepted(input, View())
      ensures if ok then diagnostics == old(diagnostics) else diagnostics != []
      ensures ok ==> indexes == IndexSlots(View(), input.calibration.indexes)
    {
      var c := input.calibration;
      ok, indexes := false, [];
      if |c.indexes| != |c.indexTypes| || |c.indexes| == 0 {
        Report(InvalidCalibrationIndex);
        return;
      }
      var seen: set<S.SymbolId> := {};
      for i := 0 to |c.indexes|
        invariant |indexes| == i && diagnostics == old(diagnostics)
        invariant forall k :: 0 <= k < i ==>
          IndexAccepted(input, k, View()) && indexes[k] == symbols[c.indexes[k]].value
        invariant forall s :: s in seen <==> exists k :: 0 <= k < i && c.indexes[k] == s
      {
        var symbol, typ := c.indexes[i], c.indexTypes[i];
        if symbol !in symbols || symbol in seen || i >= |sweeps| || symbols[symbol].typ != typ ||
           symbols[symbol].value != sweeps[i].value || (typ != Frequency && typ != Temperature) {
          Report(InvalidCalibrationIndex);
          assert !IndexAccepted(input, i, View());
          return;
        }
        seen := seen + {symbol};
        indexes := indexes + [symbols[symbol].value];
      }
      ok := true;
    }

    method FinishCalibration() returns (r: Option<Program>)
      modifies this
      ensures r == LowerCalibration(input, old(View()))
      ensures if r.Some? then diagnostics == old(diagnostics) else diagnostics != []
    {
      var c := input.calibration;
      var ok := ReserveSymbol(c.symbol);
      if !ok { return None; }
      if c.correctionType != PowerDelta || c.correction.typ != PowerDelta {
        Report(LoweringError.TypeMismatch);
        return None;
      }
      ghost var before := View();
      var correction := LowerExpression(c.correction);
      if correction.None? { return None; }
      if correction.value.typ != PowerDelta {
        Report(LoweringError.TypeMismatch);
        return None;
      }
      var indexes;
      ok, indexes := CheckIndexes();
      AcceptedIsStable(input, old(View()), View());
      if !ok { return None; }
      r := Some(Program(input.name, 0, legacy, sweeps, input.totalPointCount, measurement, measurements, values,
                        namedValues, assertions,
                        Calibration(c.name, correction.value.value, indexes, c.indexTypes, PowerDelta)));
    }

    method LowerSweeps() returns (ok: bool)
      requires View() == Start(input) && diagnostics == []
      modifies this
      ensures Follows(ok, Swept(input, |input.sweeps|))
    {
      var reference;
      ok, reference := EmitAndBind(input.referenceSymbol, Power, ReferencePower(input.reference));
      for i := 0 to |input.sweeps|
        invariant ok && diagnostics == [] && Swept(input, i) == Some(View())
      {
        ok := LowerSweep(i);
        if !ok { SweepFails(input, i + 1, |input.sweeps|); return; }
      }
    }

    method LowerMeasurements() returns (ok: bool)
      requires Swept(input, |input.sweeps|) == Some(View()) && diagnostics == []
      modifies this
      ensures Follows(ok, Measured(input, |input.measurements|))
    {
      ok := true;
      for j := 0 to |input.measurements|
        invariant ok && diagnostics == [] && Measured(input, j) == Some(View())
      {
        ok := LowerMeasurement(j);
        if !ok { MeasurementFails(input, j + 1, |input.measurements|); return; }
      }
    }

    method LowerDeriveds() returns (ok: bool)
      requires Measured(input, |input.measurements|) == Some(View()) && diagnostics == []
      modifies this
      ensures Follows(ok, Derived(input, |input.derived|))
    {
      ok := true;
      var k := 0;
      while k < |input.derived|
        invariant k <= |input.derived| && ok && diagnostics == [] && Derived(input, k) == Some(View())
      {
        ok := LowerDerived(k);
        k := k + 1;
        if !ok { DerivedFails(input, k, |input.derived|); return; }
      }
    }

    method LowerAssertions() returns (ok: bool)
      requires Derived(input, |input.derived|) == Some(View()) && diagnostics == []
      modifies this
      ensures Follows(ok, Asserted(input, |input.assertions|))
    {
      ok := true;
      var i := 0;
      while i < |input.assertions|
        invariant i <= |input.assertions| && ok && diagnostics == [] && Asserted(input, i) == Some(View())
      {
        AssertedNext(input, i, View());
        ok := LowerAssertion(i);
        i := i + 1;
        if !ok { AssertionFails(input, i, |input.assertions|); return; }
      }
    }

    /** The run computes LowerProgram; a failure always leaves a report, a success none. */
    method Run() returns (r: Option<Program>)
      requires View() == Start(input) && diagnostics == []
      modifies this
      ensures r == LowerProgram(input)
      ensures r.Some? <==> diagnostics == []
    {
      var ok := LowerSweeps();
      if ok {
        ok := LowerMeasurements();
      } else {
        MeasurementFails(input, 0, |input.measurements|);
      }
      if ok {
        ok := LowerDeriveds();
      } else {
        DerivedFails(input, 0, |input.derived|);
      }
      if !ok {
        AssertionFails(input, 0, |input.assertions|);
        return None;
      }
      ok := LowerAssertions();
      if !ok { return None; }
      r := FinishCalibration();
    }
  }

  // ----- Lemmas -----

  /** Index acceptance looks only at the bindings and the sweeps. */
  lemma AcceptedIsStable(p: S.Program, s: State, t: State)
    requires s.symbols == t.symbols && s.sweeps == t.sweeps
    ensures CalibrationAccepted(p, s) <==> CalibrationAccepted(p, t)
  {
    if |p.calibration.indexes| == |p.calibration.indexTypes| {
      assert forall i :: 0 <= i < |p.calibration.indexes| ==> (IndexAccepted(p, i, s) <==> IndexAccepted(p, i, t));
    }
  }

  lemma {:induction false} SweepFails(p: S.Program, m: nat, n: nat)
    requires m <= n <= |p.sweeps| && Swept(p, m).None?
    ensures Swept(p, n).None?
  {
    if m < n { SweepFails(p, m, n - 1); }
  }

  lemma {:induction false} MeasurementFails(p: S.Program, m: nat, n: nat)
    requires m <= n <= |p.measurements| && Measured(p, m).None?
    ensures Measured(p, n).None?
  {
    if m < n { MeasurementFails(p, m, n - 1); }
  }

  lemma {:induction false} DerivedFails(p: S.Program, m: nat, n: nat)
    requires m <= n <= |p.derived| && Derived(p, m).None?
    ensures Derived(p, n).None?
  {
    if m < n { DerivedFails(p, m, n - 1); }
  }

  lemma AssertedNext(p: S.Program, n: nat, s: State)
    requires n < |p.assertions| && Asserted(p, n) == Some(s)
    ensures Asserted(p, n + 1) == DeclareAssertion(p, n, s)
  {
  }

  lemma {:induction false} AssertionFails(p: S.Program, m: nat, n: nat)
    requires m <= n <= |p.assertions| && Asserted(p, m).None?
    ensures Asserted(p, n).None?
  {
    if m < n { AssertionFails(p, m, n - 1); }
  }
}
