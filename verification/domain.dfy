/** Quantities, value types and comparison operators shared by every stage of the compiler. */
module Domain {

  datatype Option<+T> = None | Some(value: T)

  /** The semantic analyzer and the IR use the same eight types; the conversion between their
      two enumerations maps each type to its namesake. */
  datatype ValueType =
    | Frequency | FrequencyDelta | Ratio | Temperature
    | TemperatureDelta | Power | PowerDelta | Boolean

  /** The types that carry a scalar amount. */
  type Dimension = t: ValueType | t != Boolean witness Power

  /** Deltas other than PowerDelta: these share one family of IR operations. */
  predicate PlainDelta(t: ValueType) {
    t in {FrequencyDelta, Ratio, TemperatureDelta}
  }

  /** The types that may be negated or passed to abs(). */
  predicate Negatable(t: ValueType) {
    t == PowerDelta || PlainDelta(t)
  }

  datatype Scalar = Scalar(kind: Dimension, amount: real)

  /** A runtime value: a quantity in its canonical unit, or a truth value. */
  datatype Value = Quantity(kind: Dimension, amount: real) | Truth(holds: bool)

  function TypeOf(v: Value): ValueType {
    match v
    case Quantity(k, _) => k
    case Truth(_) => Boolean
  }

  datatype ComparisonOperator = Less | LessEqual | Greater | GreaterEqual | Equal | NotEqual

  predicate Compares(op: ComparisonOperator, left: real, right: real) {
    match op
    case Less => left < right
    case LessEqual => left <= right
    case Greater => left > right
    case GreaterEqual => left >= right
    case Equal => left == right
    case NotEqual => left != right
  }

  datatype BinaryOperator = Add | Subtract

  datatype MeasurementOperation = MeasurePower | MeasureEvm | MeasureFrequencyError

  /** The type a measurement operation yields. */
  function ResultType(op: MeasurementOperation): Dimension {
    match op
    case MeasurePower => Power
    case MeasureEvm => Ratio
    case MeasureFrequencyError => FrequencyDelta
  }

  datatype Axis = FrequencyAxis | TemperatureAxis

  function AxisType(axis: Axis): Dimension {
    if axis == FrequencyAxis then Frequency else Temperature
  }

  function StepType(axis: Axis): Dimension {
    if axis == FrequencyAxis then Frequency else TemperatureDelta
  }

  function AxisName(axis: Axis): string {
    if axis == FrequencyAxis then "frequency" else "temperature"
  }

  const MAXIMUM_POINTS: nat := 1_000_000

  function Abs(x: real): real {
    if x < 0.0 then -x else x
  }

  // ----- Requirements -----

  /** How a requirement on a script came out. */
  datatype OutcomeStatus = Satisfied | Violated | Unknown | Unsupported

  // ----- Units -----

  /** The outcome of reading a number's text, which is not part of this model. */
  datatype Numeral = Parsed(value: real) | Malformed | OutOfRange

  datatype Literal = Literal(number: Numeral, unit: string)

  datatype Conversion = Converted(quantity: Scalar) | Rejected

  /** Converts a literal to its canonical unit; an absolute temperature below 0 K is rejected. */
  function Convert(literal: Literal): Conversion {
    if literal.number.Parsed? then
      var x := literal.number.value;
      match literal.unit
      case "Hz" => Converted(Scalar(Frequency, x))
      case "kHz" => Converted(Scalar(Frequency, x * 1_000.0))
      case "MHz" => Converted(Scalar(Frequency, x * 1_000_000.0))
      case "GHz" => Converted(Scalar(Frequency, x * 1_000_000_000.0))
      case "dBm" => Converted(Scalar(Power, x))
      case "dB" => Converted(Scalar(PowerDelta, x))
      case "%" => Converted(Scalar(Ratio, x / 100.0))
      case "K" => if x < 0.0 then Rejected else Converted(Scalar(Temperature, x))
      case "degC" => if x + 273.15 < 0.0 then Rejected else Converted(Scalar(Temperature, x + 273.15))
      case "deltaK" => Converted(Scalar(TemperatureDelta, x))
      case "deltaC" => Converted(Scalar(TemperatureDelta, x))
      case _ => Rejected
    else Rejected
  }
}
