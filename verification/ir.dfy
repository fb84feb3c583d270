/** The typed intermediate representation: a dense list of single-assignment values. */
module Ir {
  import opened Domain

  type ValueId = nat

  datatype Definition =
    | Constant(value: Value)
    | ReferencePower(dbm: real)
    | SweepValue(axis: Axis)
    | Measure(operation: MeasurementOperation)
    | NegateDelta(operand: ValueId)
    | AddDelta(left: ValueId, right: ValueId)
    | SubtractDelta(left: ValueId, right: ValueId)
    | Alias(target: ValueId)
    | NegatePowerDelta(operand: ValueId)
    | AddPowerDelta(left: ValueId, right: ValueId)
    | ApplyPowerDelta(power: ValueId, delta: ValueId)
    | PowerDifference(left: ValueId, right: ValueId)
    | AbsoluteValue(operand: ValueId)
    | Compare(op: ComparisonOperator, left: ValueId, right: ValueId, operandType: ValueType)

  datatype Slot = Slot(id: ValueId, typ: ValueType, definition: Definition)

  /** The single frequency sweep of the older API. */
  datatype LegacySweep = LegacySweep(frequency: ValueId, start: real, end: real, step: real)

  datatype TypedSweep = TypedSweep(
    value: ValueId, name: string, dimension: Axis,
    start: Scalar, end: Scalar, step: Scalar, pointCount: nat)

  datatype NamedValue = NamedValue(name: string, value: ValueId, typ: ValueType)

  datatype Measurement = Measurement(
    name: string, operation: MeasurementOperation, value: ValueId, typ: ValueType, legacy: bool)

  datatype Assertion = Assertion(
    id: string, ordinal: nat, value: ValueId, left: ValueId, right: ValueId,
    operandType: ValueType, op: ComparisonOperator)

  datatype Calibration = Calibration(
    name: string, correction: ValueId, indexes: seq<ValueId>,
    indexTypes: seq<ValueType>, correctionType: ValueType)

  datatype Program = Program(
    name: string, reference: ValueId, sweep: LegacySweep, sweeps: seq<TypedSweep>,
    totalPointCount: nat, measurement: ValueId, measurements: seq<Measurement>,
    values: seq<Slot>, namedValues: seq<NamedValue>, assertions: seq<Assertion>,
    calibration: Calibration)

  /** The product of the first n axis point counts. */
  function PartialProduct(sweeps: seq<TypedSweep>, n: nat): nat
    requires n <= |sweeps|
  {
    if n == 0 then 1 else PartialProduct(sweeps, n - 1) * sweeps[n - 1].pointCount
  }

  function PointProduct(sweeps: seq<TypedSweep>): nat {
    PartialProduct(sweeps, |sweeps|)
  }

  /** The comparison behind a value, found by following aliases to earlier slots. */
  function Comparison(values: seq<Slot>, id: ValueId): Option<Definition>
    decreases id
  {
    if id >= |values| then None
    else match values[id].definition
      case Compare(_, _, _, _) => Some(values[id].definition)
      case Alias(target) => if target >= id then None else Comparison(values, target)
      case _ => None
  }
}
