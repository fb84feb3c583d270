/** The runtime's check of an IR program, and what it establishes. */
module Validator {
  import opened Domain
  import opened Ir
  import opened Text

  datatype ValidationError =
    | InvalidValueId | InvalidDefinitionOrder | TypeMismatch | InvalidProgramBinding | SweepTooLarge

  // ----- What each stage requires -----

  predicate ValidOperand(values: seq<Slot>, id: ValueId, consumer: nat, expected: ValueType) {
    id < |values| && id < consumer && values[id].typ == expected
  }

  predicate ValidDefinition(values: seq<Slot>, index: nat)
    requires index < |values|
  {
    var typ := values[index].typ;
    match values[index].definition
    case Constant(v) => TypeOf(v) == typ
    case ReferencePower(_) => typ == Power
    case SweepValue(axis) => typ == AxisType(axis)
    case Measure(op) => typ == ResultType(op)
    case NegateDelta(operand) => PlainDelta(typ) && ValidOperand(values, operand, index, typ)
    case AddDelta(left, right) =>
      PlainDelta(typ) && ValidOperand(values, left, index, typ) && ValidOperand(values, right, index, typ)
    case SubtractDelta(left, right) =>
      PlainDelta(typ) && ValidOperand(values, left, index, typ) && ValidOperand(values, right, index, typ)
    case Alias(target) => ValidOperand(values, target, index, typ)
    case NegatePowerDelta(operand) => typ == PowerDelta && ValidOperand(values, operand, index, PowerDelta)
    case AddPowerDelta(left, right) =>
      && typ == PowerDelta
      && ValidOperand(values, left, index, PowerDelta) && ValidOperand(values, right, index, PowerDelta)
    case ApplyPowerDelta(power, delta) =>
      && typ == Power
      && ValidOperand(values, power, index, Power) && ValidOperand(values, delta, index, PowerDelta)
    case PowerDifference(left, right) =>
      && typ == PowerDelta
      && ValidOperand(values, left, index, Power) && ValidOperand(values, right, index, Power)
    case AbsoluteValue(operand) => Negatable(typ) && ValidOperand(values, operand, index, typ)
    case Compare(_, left, right, operandType) =>
      && typ == Boolean && operandType != Boolean
      && ValidOperand(values, left, index, operandType) && ValidOperand(values, right, index, operandType)
  }

  predicate ValidSlot(values: seq<Slot>, index: nat)
    requires index < |values|
  {
    values[index].id == index && ValidDefinition(values, index)
  }

  /** Slots are dense, every operand precedes its consumer, and every type is respected. */
  predicate ValidDefinitions(values: seq<Slot>) {
    forall i :: 0 <= i < |values| ==> ValidSlot(values, i)
  }

  /** The kinds of definition that the binding stage counts or looks for. */
  datatype Family =
    | References | Sweeps | AxisSweeps(axis: Axis) | Measurements | MeasurementsOf(operation: MeasurementOperation)

  predicate Belongs(d: Definition, family: Family) {
    match family
    case References => d.ReferencePower?
    case Sweeps => d.SweepValue?
    case AxisSweeps(axis) => d == SweepValue(axis)
    case Measurements => d.Measure?
    case MeasurementsOf(operation) => d == Measure(operation)
  }

  function Count(values: seq<Slot>, family: Family): nat {
    if |values| == 0 then 0
    else Count(values[..|values| - 1], family) + (if Belongs(values[|values| - 1].definition, family) then 1 else 0)
  }

  predicate Bound(values: seq<Slot>, id: ValueId, typ: ValueType, family: Family) {
    id < |values| && values[id].typ == typ && Belongs(values[id].definition, family)
  }

  predicate SweepMetadata(p: Program, sweep: TypedSweep) {
    && Bound(p.values, sweep.value, AxisType(sweep.dimension), AxisSweeps(sweep.dimension))
    && sweep.name == AxisName(sweep.dimension)
    && sweep.start.kind == sweep.end.kind == AxisType(sweep.dimension)
    && sweep.step.kind == StepType(sweep.dimension)
  }

  predicate ValidSweep(p: Program, sweep: TypedSweep) {
    SweepMetadata(p, sweep) && sweep.pointCount > 0
  }

  function AxisCount(sweeps: seq<TypedSweep>, axis: Axis): nat {
    if |sweeps| == 0 then 0
    else AxisCount(sweeps[..|sweeps| - 1], axis) + (if sweeps[|sweeps| - 1].dimension == axis then 1 else 0)
  }

  /** The dimension counters after n sweeps, and the last frequency sweep seen. */
  predicate AxesCounted(sweeps: seq<TypedSweep>, n: nat, frequencies: nat, temperatures: nat,
                        frequency: Option<TypedSweep>)
    requires n <= |sweeps|
  {
    && frequencies == AxisCount(sweeps[..n], FrequencyAxis)
    && temperatures == AxisCount(sweeps[..n], TemperatureAxis)
    && (frequency.None? <==> frequencies == 0)
    && (frequency.Some? ==> frequency.value in sweeps && frequency.value.dimension == FrequencyAxis)
  }

  lemma AxesStep(sweeps: seq<TypedSweep>, n: nat, frequencies: nat, temperatures: nat, frequency: Option<TypedSweep>)
    requires n < |sweeps| && AxesCounted(sweeps, n, frequencies, temperatures, frequency)
    ensures if sweeps[n].dimension == FrequencyAxis
      then AxesCounted(sweeps, n + 1, frequencies + 1, temperatures, Some(sweeps[n]))
      else AxesCounted(sweeps, n + 1, frequencies, temperatures + 1, frequency)
  {
    assert sweeps[..n + 1][..n] == sweeps[..n];
  }

  predicate ValidMeasurement(p: Program, m: Measurement) {
    && m.name != ""
    && Bound(p.values, m.value, m.typ, MeasurementsOf(m.operation))
    && m.typ == ResultType(m.operation)
  }

  /** The part of the base-binding stage that reports its failures and precedes the silent test. */
  predicate ReportedBindings(p: Program) {
    && Count(p.values, References) == 1
    && Count(p.values, Sweeps) == |p.sweeps| > 0
    && Count(p.values, Measurements) == |p.measurements| > 0
    && Bound(p.values, p.reference, Power, References)
    && (forall sweep <- p.sweeps :: ValidSweep(p, sweep))
    && PointProduct(p.sweeps) == p.totalPointCount <= MAXIMUM_POINTS
  }

  /** One frequency sweep, at most one temperature sweep, and the legacy sweep names the former. */
  predicate SweepShape(p: Program) {
    && AxisCount(p.sweeps, FrequencyAxis) == 1
    && AxisCount(p.sweeps, TemperatureAxis) <= 1
    && (forall sweep <- p.sweeps :: sweep.dimension == FrequencyAxis ==> sweep.value == p.sweep.frequency)
  }

  predicate MeasurementBindings(p: Program) {
    && Bound(p.values, p.measurement, Power, MeasurementsOf(MeasurePower))
    && (forall m <- p.measurements :: ValidMeasurement(p, m))
  }

  predicate ValidBaseBindings(p: Program) {
    ReportedBindings(p) && SweepShape(p) && MeasurementBindings(p)
  }

  predicate ValidNamedValues(p: Program) {
    forall named <- p.namedValues :: named.value < |p.values| && p.values[named.value].typ == named.typ
  }

  predicate ValidAssertion(p: Program, index: nat)
    requires index < |p.assertions|
  {
    var a := p.assertions[index];
    && a.id == "assertion-" + Decimal(index + 1)
    && a.ordinal == index + 1
    && a.value < |p.values|
    && p.values[a.value].typ == Boolean
    && Comparison(p.values, a.value) == Some(Compare(a.op, a.left, a.right, a.operandType))
  }

  predicate ValidAssertions(p: Program) {
    forall i :: 0 <= i < |p.assertions| ==> ValidAssertion(p, i)
  }

  predicate ValidCalibration(p: Program) {
    && p.calibration.correction < |p.values|
    && p.calibration.correctionType == PowerDelta
    && p.values[p.calibration.correction].typ == PowerDelta
    && |p.calibration.indexes| == |p.calibration.indexTypes| == |p.sweeps|
    && forall i :: 0 <= i < |p.sweeps| ==>
         && p.calibration.indexes[i] == p.sweeps[i].value
         && p.calibration.indexTypes[i] == AxisType(p.sweeps[i].dimension)
  }

  /** Every stage of the validator returns true. */
  predicate Valid(p: Program) {
    && ValidDefinitions(p.values)
    && ValidBaseBindings(p)
    && ValidNamedValues(p)
    && ValidAssertions(p)
    && ValidCalibration(p)
  }

  /** The binding stage fails without a report: callers read the empty list as acceptance, and
      the later stages never run. */
  predicate SilentlyAccepted(p: Program) {
    ValidDefinitions(p.values) && ReportedBindings(p) && !SweepShape(p)
  }

  // ----- The validator itself -----

  class Validator {
    const program: Program
    var diagnostics: seq<ValidationError>

    constructor (program: Program)
      ensures this.program == program && diagnostics == []
    {
      this.program := program;
      diagnostics := [];
    }

    /** True iff the diagnostics are those of the pre-state, plus one report when not ok. */
    twostate predicate Reports(ok: bool)
      reads this
    {
      if ok then diagnostics == old(diagnostics) else |diagnostics| == |old(diagnostics)| + 1
    }

    method Report(code: ValidationError) returns (ok: bool)
      modifies this
      ensures !ok && Reports(ok)
    {
      diagnostics := diagnostics + [code];
      ok := false;
    }

    method Operand(id: ValueId, consumer: nat, expected: ValueType) returns (ok: bool)
      modifies this
      ensures ok == ValidOperand(program.values, id, consumer, expected) && Reports(ok)
    {
      if id >= |program.values| {
        ok := Report(InvalidValueId);
      } else if id >= consumer {
        ok := Report(InvalidDefinitionOrder);
      } else if program.values[id].typ != expected {
        ok := Report(TypeMismatch);
      } else {
        ok := true;
      }
    }

    method Operands(left: ValueId, leftType: ValueType, right: ValueId, rightType: ValueType, consumer: nat)
      returns (ok: bool)
      modifies this
      ensures ok == (ValidOperand(program.values, left, consumer, leftType) &&
                     ValidOperand(program.values, right, consumer, rightType))
      ensures Reports(ok)
    {
      ok := Operand(left, consumer, leftType);
      if ok {
        ok := Operand(right, consumer, rightType);
      }
    }

    method Require(condition: bool, code: ValidationError) returns (ok: bool)
      modifies this
      ensures ok == condition && Reports(ok)
    {
      ok := condition;
      if !condition {
        ok := Report(code);
      }
    }

    method ValidateDefinition(index: nat) returns (ok: bool)
      requires index < |program.values|
      modifies this
      ensures ok == ValidDefinition(program.values, index) && Reports(ok)
    {
      var typ := program.values[index].typ;
      match program.values[index].definition {
        case Constant(v) => ok := Require(TypeOf(v) == typ, TypeMismatch);
        case ReferencePower(_) => ok := Require(typ == Power, TypeMismatch);
        case SweepValue(axis) => ok := Require(typ == AxisType(axis), TypeMismatch);
        case Measure(op) => ok := Require(typ == ResultType(op), TypeMismatch);
        case NegateDelta(operand) =>
          ok := Require(PlainDelta(typ), TypeMismatch);
          if ok { ok := Operand(operand, index, typ); }
        case AddDelta(left, right) =>
          ok := Require(PlainDelta(typ), TypeMismatch);
          if ok { ok := Operands(left, typ, right, typ, index); }
        case SubtractDelta(left, right) =>
          ok := Require(PlainDelta(typ), TypeMismatch);
          if ok { ok := Operands(left, typ, right, typ, index); }
        case Alias(target) => ok := Operand(target, index, typ);
        case NegatePowerDelta(operand) =>
          ok := Require(typ == PowerDelta, TypeMismatch);
          if ok { ok := Operand(operand, index, PowerDelta); }
        case AddPowerDelta(left, right) =>
          ok := Require(typ == PowerDelta, TypeMismatch);
          if ok { ok := Operands(left, PowerDelta, right, PowerDelta, index); }
        case ApplyPowerDelta(power, delta) =>
          ok := Require(typ == Power, TypeMismatch);
          if ok { ok := Operands(power, Power, delta, PowerDelta, index); }
        case PowerDifference(left, right) =>
          ok := Require(typ == PowerDelta, TypeMismatch);
          if ok { ok := Operands(left, Power, right, Power, index); }
        case AbsoluteValue(operand) =>
          ok := Require(Negatable(typ), TypeMismatch);
          if ok { ok := Operand(operand, index, typ); }
        case Compare(_, left, right, operandType) =>
          ok := Require(typ == Boolean && operandType != Boolean, TypeMismatch);
          if ok { ok := Operands(left, operandType, right, operandType, index); }
      }
    }

    method Binding(id: ValueId, typ: ValueType, family: Family) returns (ok: bool)
      modifies this
      ensures ok == Bound(program.values, id, typ, family) && Reports(ok)
    {
      if id >= |program.values| {
        ok := Report(InvalidValueId);
      } else {
        var slot := program.values[id];
        ok := Require(slot.typ == typ && Belongs(slot.definition, family), InvalidProgramBinding);
      }
    }

    method CountDefinitions() returns (references: nat, sweeps: nat, measurements: nat)
      ensures references == Count(program.values, References)
      ensures sweeps == Count(program.values, Sweeps)
      ensures measurements == Count(program.values, Measurements)
    {
      references, sweeps, measurements := 0, 0, 0;
      var values := program.values;
      for i := 0 to |values|
        invariant references == Count(values[..i], References)
        invariant sweeps == Count(values[..i], Sweeps)
        invariant measurements == Count(values[..i], Measurements)
      {
        assert values[..i + 1][..i] == values[..i];
        references := references + if values[i].definition.ReferencePower? then 1 else 0;
        sweeps := sweeps + if values[i].definition.SweepValue? then 1 else 0;
        measurements := measurements + if values[i].definition.Measure? then 1 else 0;
      }
      assert values[..|values|] == values;
    }

    method ValidateSweepMetadata(sweep: TypedSweep) returns (ok: bool)
      modifies this
      ensures ok == SweepMetadata(program, sweep) && Reports(ok)
    {
      ok := Binding(sweep.value, AxisType(sweep.dimension), AxisSweeps(sweep.dimension));
      if !ok { return; }
      if sweep.dimension == FrequencyAxis {
        ok := Require(sweep.name == "frequency" && sweep.start.kind == Frequency &&
                      sweep.end.kind == Frequency && sweep.step.kind == Frequency, InvalidProgramBinding);
      } else {
        ok := Require(sweep.name == "temperature" && sweep.start.kind == Temperature &&
                      sweep.end.kind == Temperature && sweep.step.kind == TemperatureDelta, InvalidProgramBinding);
      }
    }

    method ExtendProduct(i: nat, product: nat) returns (ok: bool, next: nat)
      requires i < |program.sweeps| && product == PartialProduct(program.sweeps, i)
      modifies this
      ensures ok == (program.sweeps[i].pointCount > 0 &&
                     PartialProduct(program.sweeps, i + 1) <= MAXIMUM_POINTS)
      ensures Reports(ok)
      ensures ok ==> next == PartialProduct(program.sweeps, i + 1)
    {
      next := product;
      SweepStep(program.sweeps, i);
      var count := program.sweeps[i].pointCount;
      if count == 0 || product > MAXIMUM_POINTS / count {
        ok := Report(SweepTooLarge);
      } else {
        ok, next := true, product * count;
      }
    }

    /** The sweep loop: checks each sweep, multiplies the point counts under the limit, and
        counts the dimensions. */
    method ValidateSweeps() returns (ok: bool, product: nat, frequencies: nat, temperatures: nat,
                                     frequency: Option<TypedSweep>)
      modifies this
      ensures Reports(ok)
      ensures ok == ((forall sweep <- program.sweeps :: ValidSweep(program, sweep)) &&
                     PointProduct(program.sweeps) <= MAXIMUM_POINTS)
      ensures ok ==>
        && product == PointProduct(program.sweeps)
        && AxesCounted(program.sweeps, |program.sweeps|, frequencies, temperatures, frequency)
    {
      ok, product, frequencies, temperatures, frequency := true, 1, 0, 0, None;
      var sweeps := program.sweeps;
      var i := 0;
      while i < |sweeps|
        invariant i <= |sweeps| && ok && diagnostics == old(diagnostics)
        invariant forall k :: 0 <= k < i ==> ValidSweep(program, sweeps[k])
        invariant product == PartialProduct(sweeps, i) <= MAXIMUM_POINTS
        invariant AxesCounted(sweeps, i, frequencies, temperatures, frequency)
      {
        var sweep := sweeps[i];
        assert sweep in sweeps;
        ok := ValidateSweepMetadata(sweep);
        if !ok { return; }
        AxesStep(sweeps, i, frequencies, temperatures, frequency);
        if sweep.dimension == FrequencyAxis {
          frequencies, frequency := frequencies + 1, Some(sweep);
        } else {
          temperatures := temperatures + 1;
        }
        ok, product := ExtendProduct(i, product);
        if !ok {
          if forall s <- sweeps :: s.pointCount > 0 { ProductGrows(sweeps, i + 1, |sweeps|); }
          return;
        }
        assert ValidSweep(program, sweep);
        i := i + 1;
      }
      assert sweeps[..|sweeps|] == sweeps;
    }

    method ValidateBaseBindings() returns (ok: bool)
      modifies this
      ensures ok == ValidBaseBindings(program)
      ensures if ok || (ReportedBindings(program) && !SweepShape(program))
        then diagnostics == old(diagnostics)
        else |diagnostics| == |old(diagnostics)| + 1
    {
      var references, sweepCount, measurements := CountDefinitions();
      if references != 1 || sweepCount != |program.sweeps| || sweepCount == 0 ||
         measurements != |program.measurements| || measurements == 0 {
        ok := Report(InvalidProgramBinding);
        return;
      }
      ok := Binding(program.reference, Power, References);
      if !ok { return; }
      var product, frequencies, temperatures, frequency;
      ok, product, frequencies, temperatures, frequency := ValidateSweeps();
      if !ok { return; }
      if product != program.totalPointCount {
        ok := Report(InvalidProgramBinding);
        return;
      }
      assert ReportedBindings(program);
      assert program.sweeps[..|program.sweeps|] == program.sweeps;
      if frequencies == 1 { UniqueAxis(program.sweeps, FrequencyAxis); }
      if frequencies != 1 || temperatures > 1 || frequency.None? ||
         frequency.value.value != program.sweep.frequency {
        assert !SweepShape(program);
        ok := false;
        return;
      }
      assert SweepShape(program);
      assert ValidSweep(program, frequency.value);
      ok := Binding(program.sweep.frequency, Frequency, AxisSweeps(FrequencyAxis));
      if !ok { return; }
      ok := Binding(program.measurement, Power, MeasurementsOf(MeasurePower));
      if !ok { return; }
      for i := 0 to |program.measurements|
        invariant ok && diagnostics == old(diagnostics)
        invariant forall k :: 0 <= k < i ==> ValidMeasurement(program, program.measurements[k])
      {
        var m := program.measurements[i];
        assert m in program.measurements;
        if m.name == "" || m.value >= |program.values| || program.values[m.value].typ != m.typ {
          ok := Report(InvalidProgramBinding);
          return;
        }
        var definition := program.values[m.value].definition;
        ok := Require(m.typ == ResultType(m.operation) && definition == Measure(m.operation), InvalidProgramBinding);
        if !ok { return; }
      }
    }

    method ValidateNamedValues() returns (ok: bool)
      modifies this
      ensures ok == ValidNamedValues(program) && Reports(ok)
    {
      ok := true;
      for i := 0 to |program.namedValues|
        invariant ok && Reports(ok)
        invariant forall k :: 0 <= k < i ==>
          program.namedValues[k].value < |program.values| &&
          program.values[program.namedValues[k].value].typ == program.namedValues[k].typ
      {
        var named := program.namedValues[i];
        if named.value >= |program.values| {
          ok := Report(InvalidValueId);
          return;
        }
        ok := Require(program.values[named.value].typ == named.typ, TypeMismatch);
        if !ok { return; }
      }
    }

    /** Follows aliases from a value to its comparison. */
    method FindComparison(id: ValueId) returns (found: Option<Definition>)
      ensures found == Comparison(program.values, id)
    {
      var current: ValueId := id;
      while current < |program.values|
        invariant Comparison(program.values, id) == Comparison(program.values, current)
        decreases current
      {
        match program.values[current].definition {
          case Compare(_, _, _, _) => return Some(program.values[current].definition);
          case Alias(target) =>
            if target >= current { return None; }
            current := target;
          case _ => return None;
        }
      }
      found := None;
    }

    method ValidateAssertions() returns (ok: bool)
      modifies this
      ensures ok == ValidAssertions(program) && Reports(ok)
    {
      ok := true;
      for i := 0 to |program.assertions|
        invariant ok && Reports(ok)
        invariant forall k :: 0 <= k < i ==> ValidAssertion(program, k)
      {
        var a := program.assertions[i];
        if a.id != "assertion-" + Decimal(i + 1) || a.ordinal != i + 1 || a.value >= |program.values| {
          ok := Report(InvalidProgramBinding);
          assert !ValidAssertion(program, i);
          return;
        }
        var found := FindComparison(a.value);
        ok := Require(program.values[a.value].typ == Boolean && found.Some? && found.value.Compare? &&
                      found.value.left == a.left && found.value.right == a.right &&
                      found.value.operandType == a.operandType && found.value.op == a.op, InvalidProgramBinding);
        assert ok == ValidAssertion(program, i);
        if !ok { return; }
      }
    }

    method ValidateCalibration() returns (ok: bool)
      modifies this
      ensures ok == ValidCalibration(program) && Reports(ok)
    {
      var calibration := program.calibration;
      if calibration.correction >= |program.values| {
        ok := Report(InvalidValueId);
        return;
      }
      ok := Require(calibration.correctionType == PowerDelta &&
                    program.values[calibration.correction].typ == PowerDelta, TypeMismatch);
      if !ok { return; }
      ok := Require(|calibration.indexes| == |program.sweeps| && |calibration.indexTypes| == |program.sweeps|,
                    InvalidProgramBinding);
      if !ok { return; }
      for i := 0 to |program.sweeps|
        invariant ok && Reports(ok)
        invariant forall k :: 0 <= k < i ==>
          calibration.indexes[k] == program.sweeps[k].value &&
          calibration.indexTypes[k] == AxisType(program.sweeps[k].dimension)
      {
        ok := Require(calibration.indexes[i] == program.sweeps[i].value &&
                      calibration.indexTypes[i] == AxisType(program.sweeps[i].dimension), InvalidProgramBinding);
        if !ok { return; }
      }
    }

    /** The list of reports is empty exactly when every stage returns true or the binding stage
        fails silently. */
    method Run() returns (reports: seq<ValidationError>)
      requires diagnostics == []
      modifies this
      ensures reports == diagnostics
      ensures reports == [] <==> Valid(program) || SilentlyAccepted(program)
    {
      for i := 0 to |program.values|
        invariant diagnostics == []
        invariant forall k :: 0 <= k < i ==> ValidSlot(program.values, k)
      {
        var ok := Require(program.values[i].id == i, InvalidValueId);
        if ok { ok := ValidateDefinition(i); }
        assert ok == ValidSlot(program.values, i);
        if !ok { return diagnostics; }
      }
      var ok := ValidateBaseBindings();
      if !ok { return diagnostics; }
      ok := ValidateNamedValues();
      if !ok { return diagnostics; }
      ok := ValidateAssertions();
      if !ok { return diagnostics; }
      ok := ValidateCalibration();
      reports := diagnostics;
    }
  }

  /** Runs a fresh validator. */
  method Validate(program: Program) returns (reports: seq<ValidationError>)
    ensures reports == [] <==> Valid(program) || SilentlyAccepted(program)
  {
    var validator := new Validator(program);
    reports := validator.Run();
  }

  // ----- Lemmas -----

  lemma QuotientTest(product: nat, count: nat)
    requires count > 0
    ensures product > MAXIMUM_POINTS / count <==> product * count > MAXIMUM_POINTS
  {
    var q := MAXIMUM_POINTS / count;
    assert q * count <= MAXIMUM_POINTS < (q + 1) * count;
    if product > q {
      assert product * count >= (q + 1) * count;
    } else {
      assert product * count <= q * count;
    }
  }

  lemma {:induction false} ProductGrows(sweeps: seq<TypedSweep>, m: nat, n: nat)
    requires m <= n <= |sweeps| && forall sweep <- sweeps :: sweep.pointCount > 0
    ensures PartialProduct(sweeps, m) <= PartialProduct(sweeps, n)
    decreases n
  {
    if m < n {
      ProductGrows(sweeps, m, n - 1);
      assert sweeps[n - 1] in sweeps;
      assert PartialProduct(sweeps, n - 1) * 1 <= PartialProduct(sweeps, n - 1) * sweeps[n - 1].pointCount;
    }
  }

  /** One step of the product: the division test is exactly the overflow of the limit. */
  lemma SweepStep(sweeps: seq<TypedSweep>, i: nat)
    requires i < |sweeps|
    ensures PartialProduct(sweeps, i + 1) ==
            PartialProduct(sweeps, i) * sweeps[i].pointCount
    ensures sweeps[i].pointCount > 0 ==>
      (PartialProduct(sweeps, i) > MAXIMUM_POINTS / sweeps[i].pointCount <==>
       PartialProduct(sweeps, i + 1) > MAXIMUM_POINTS)
  {
    if sweeps[i].pointCount > 0 {
      QuotientTest(PartialProduct(sweeps, i), sweeps[i].pointCount);
    }
  }

  lemma {:induction false} AxisPresent(sweeps: seq<TypedSweep>, i: nat, axis: Axis)
    requires i < |sweeps| && sweeps[i].dimension == axis
    ensures AxisCount(sweeps, axis) >= 1
  {
    if i < |sweeps| - 1 {
      AxisPresent(sweeps[..|sweeps| - 1], i, axis);
    }
  }

  lemma {:induction false} UniqueAxis(sweeps: seq<TypedSweep>, axis: Axis)
    requires AxisCount(sweeps, axis) <= 1
    ensures forall i, j | 0 <= i < |sweeps| && 0 <= j < |sweeps| ::
      sweeps[i].dimension == axis && sweeps[j].dimension == axis ==> i == j
  {
    if |sweeps| > 0 {
      var before := sweeps[..|sweeps| - 1];
      UniqueAxis(before, axis);
      if sweeps[|sweeps| - 1].dimension == axis {
        forall i | 0 <= i < |before| ensures before[i].dimension != axis {
          if before[i].dimension == axis { AxisPresent(before, i, axis); }
        }
      }
    }
  }
}
