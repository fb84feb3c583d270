/** What the units of a script mean, relative to each other. */
module Units {
  import opened Domain

  const UNITS: set<string> := {"Hz", "kHz", "MHz", "GHz", "dBm", "dB", "%", "K", "degC", "deltaK", "deltaC"}

  /** What a number in a unit converts to. */
  function In(x: real, unit: string): Conversion {
    Convert(Literal(Parsed(x), unit))
  }

  /** A literal is converted exactly when its number was read, its unit is known, and no temperature
      lies below absolute zero. */
  lemma ConversionIsExact(literal: Literal)
    ensures Convert(literal).Converted? <==>
      && literal.number.Parsed? && literal.unit in UNITS
      && (literal.unit == "K" ==> literal.number.value >= 0.0)
      && (literal.unit == "degC" ==> literal.number.value >= -273.15)
  {
  }

  /** Each unit against the others: the canonical units keep the number, every frequency unit is a
      thousand of the one before, a hundred percent is one, and 0 degC is 273.15 K. */
  lemma UnitLaws(x: real)
    ensures In(x, "Hz") == Converted(Scalar(Frequency, x))
    ensures In(x, "kHz") == In(1_000.0 * x, "Hz")
    ensures In(x, "MHz") == In(1_000.0 * x, "kHz")
    ensures In(x, "GHz") == In(1_000.0 * x, "MHz")
    ensures In(x, "dBm") == Converted(Scalar(Power, x))
    ensures In(x, "dB") == Converted(Scalar(PowerDelta, x))
    ensures In(100.0 * x, "%") == Converted(Scalar(Ratio, x))
    ensures In(x, "deltaK") == Converted(Scalar(TemperatureDelta, x))
    ensures In(x, "deltaC") == In(x, "deltaK")
    ensures x >= 0.0 ==> In(x, "K") == Converted(Scalar(Temperature, x))
    ensures In(x, "degC") == In(x + 273.15, "K")
  {
    assert 1_000.0 * x * 1_000.0 == x * 1_000_000.0;
    assert 1_000.0 * x * 1_000_000.0 == x * 1_000_000_000.0;
  }
}
