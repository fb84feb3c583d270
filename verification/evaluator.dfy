/** Evaluation of the IR at one operating point. */
module Evaluator {
  import opened Domain
  import opened Ir
  import opened Points

  /** The number of measurement calls the values make. */
  function MeasureCount(values: seq<Slot>): nat {
    if |values| == 0 then 0
    else MeasureCount(values[..|values| - 1]) + (if values[|values| - 1].definition.Measure? then 1 else 0)
  }

  /** Reads a filled slot of a given type; None where the access throws. */
  function Amount(filled: seq<Value>, id: ValueId, kind: Dimension): Option<real> {
    if id < |filled| && filled[id].Quantity? && filled[id].kind == kind then Some(filled[id].amount) else None
  }

  function Combine(filled: seq<Value>, left: ValueId, right: ValueId, leftKind: Dimension, rightKind: Dimension,
                   result: Dimension, f: (real, real) -> real): Option<Value> {
    var a, b := Amount(filled, left, leftKind), Amount(filled, right, rightKind);
    if a.Some? && b.Some? then Some(Quantity(result, f(a.value, b.value))) else None
  }

  /** Plain-delta arithmetic picks the alternative from the left operand, and falls back to
      TemperatureDelta when it holds neither a FrequencyDelta nor a Ratio. */
  function PlainKind(filled: seq<Value>, left: ValueId): Dimension {
    if left < |filled| && filled[left].Quantity? && filled[left].kind in {FrequencyDelta, Ratio}
    then filled[left].kind else TemperatureDelta
  }

  /** The value of one definition over the slots filled so far; None where the code throws or
      reads outside the filled slots. */
  function EvaluateDefinition(d: Definition, point: Point, reading: nat, filled: seq<Value>): Option<Value> {
    match d
    case Constant(v) => Some(v)
    case ReferencePower(dbm) => Some(Quantity(Power, dbm))
    case SweepValue(axis) => CoordinateOf(point.coordinates, axis)
    case Measure(op) =>
      if reading < |point.readings| then Some(Quantity(ResultType(op), point.readings[reading])) else None
    case NegateDelta(operand) =>
      if operand < |filled| && filled[operand].Quantity? && PlainDelta(filled[operand].kind)
      then Some(Quantity(filled[operand].kind, -filled[operand].amount)) else None
    case AddDelta(left, right) =>
      var kind := PlainKind(filled, left);
      Combine(filled, left, right, kind, kind, kind, (a, b) => a + b)
    case SubtractDelta(left, right) =>
      var kind := PlainKind(filled, left);
      Combine(filled, left, right, kind, kind, kind, (a, b) => a - b)
    case Alias(target) => if target < |filled| then Some(filled[target]) else None
    case NegatePowerDelta(operand) =>
      var a := Amount(filled, operand, PowerDelta);
      if a.Some? then Some(Quantity(PowerDelta, -a.value)) else None
    case AddPowerDelta(left, right) =>
      Combine(filled, left, right, PowerDelta, PowerDelta, PowerDelta, (a, b) => a + b)
    case ApplyPowerDelta(power, delta) =>
      Combine(filled, power, delta, Power, PowerDelta, Power, (a, b) => a + b)
    case PowerDifference(left, right) =>
      Combine(filled, left, right, Power, Power, PowerDelta, (a, b) => a - b)
    case AbsoluteValue(operand) =>
      if operand < |filled| && filled[operand].Quantity? && Negatable(filled[operand].kind)
      then Some(Quantity(filled[operand].kind, Abs(filled[operand].amount))) else None
    case Compare(op, left, right, _) =>
      if left < |filled| && right < |filled| && filled[left].Quantity? && filled[right].Quantity?
      then Some(Truth(Compares(op, filled[left].amount, filled[right].amount))) else None
  }

  /** Fills the slots in order; the n-th measurement definition receives the n-th reading. */
  function Fold(values: seq<Slot>, point: Point): (filled: Option<seq<Value>>)
    ensures filled.Some? ==> |filled.value| == |values|
  {
    if |values| == 0 then Some([])
    else
      var before := values[..|values| - 1];
      var filled := Fold(before, point);
      if filled.None? then None
      else
        var v := EvaluateDefinition(values[|values| - 1].definition, point, MeasureCount(before), filled.value);
        if v.None? then None else Some(filled.value + [v.value])
  }

  lemma FoldAppend(values: seq<Slot>, slot: Slot, point: Point)
    ensures Fold(values + [slot], point) ==
      var filled := Fold(values, point);
      if filled.None? then None
      else
        var v := EvaluateDefinition(slot.definition, point, MeasureCount(values), filled.value);
        if v.None? then None else Some(filled.value + [v.value])
  {
    assert (values + [slot])[..|values|] == values;
  }

  lemma MeasureCountAppend(values: seq<Slot>, slot: Slot)
    ensures MeasureCount(values + [slot]) == MeasureCount(values) + (if slot.definition.Measure? then 1 else 0)
  {
    assert (values + [slot])[..|values|] == values;
  }

  /** Later slots never change earlier ones. */
  lemma {:induction false} FoldPrefix(values: seq<Slot>, n: nat, point: Point)
    requires n <= |values| && Fold(values, point).Some?
    ensures Fold(values[..n], point).Some?
    ensures Fold(values[..n], point).value == Fold(values, point).value[..n]
  {
    if n == |values| {
      assert values[..n] == values;
    } else {
      var before := values[..|values| - 1];
      FoldPrefix(before, n, point);
      assert before[..n] == values[..n];
    }
  }

  lemma {:induction false} FoldLength(values: seq<Slot>, point: Point)
    ensures Fold(values, point).Some? ==> |Fold(values, point).value| == |values|
  {
    if |values| > 0 { FoldLength(values[..|values| - 1], point); }
  }

  /** Every slot of the result is the value of its own definition over the slots before it. */
  lemma FoldSlot(values: seq<Slot>, i: nat, point: Point)
    requires i < |values| && Fold(values, point).Some?
    ensures |Fold(values, point).value| == |values|
    ensures EvaluateDefinition(values[i].definition, point, MeasureCount(values[..i]), Fold(values, point).value[..i])
            == Some(Fold(values, point).value[i])
  {
    FoldLength(values, point);
    FoldPrefix(values, i + 1, point);
    FoldPrefix(values, i, point);
    assert values[..i + 1][..i] == values[..i];
    FoldLength(values[..i], point);
    assert Fold(values, point).value[..i + 1][i] == Fold(values, point).value[i];
  }
}
