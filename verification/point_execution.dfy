/** One operating point, checked against the program and the devices before anything is driven. */
module PointExecution {
  import opened Domain
  import opened Ir
  import opened Points
  import opened Evaluator
  import opened Soundness
  import opened Devices
  import opened Execution
  import C = Characterization
  import V = Validator

  datatype Refusal = InvalidProgram | CapabilityUnavailable | InvalidProgramBinding

  datatype PointOutcome = Declined(refusal: Refusal) | Escaped | Evaluated(values: seq<Value>)

  /** The validator reports nothing. */
  predicate Accepted(p: Program) {
    V.Valid(p) || V.SilentlyAccepted(p)
  }

  predicate Measures(p: Program, c: C.Capabilities) {
    forall m <- p.measurements :: C.Supports(c, m.operation)
  }

  predicate Controls(p: Program, c: C.Capabilities) {
    forall sweep <- p.sweeps :: sweep.dimension == TemperatureAxis ==> c.temperature
  }

  method CheckMeasurements(p: Program, c: C.Capabilities) returns (ok: bool)
    ensures ok == Measures(p, c)
  {
    for i := 0 to |p.measurements|
      invariant forall k :: 0 <= k < i ==> C.Supports(c, p.measurements[k].operation)
    {
      assert p.measurements[i] in p.measurements;
      if !C.Supports(c, p.measurements[i].operation) { return false; }
    }
    ok := true;
  }

  /** Walks the sweeps and the coordinates together. */
  method CheckCoordinates(p: Program, coordinates: seq<Coordinate>, c: C.Capabilities)
    returns (refusal: Option<Refusal>)
    ensures refusal.None? <==> CoordinatesFit(p, coordinates) && Controls(p, c)
    ensures refusal == Some(CapabilityUnavailable) ==> !Controls(p, c)
    ensures refusal == Some(InvalidProgramBinding) ==> !CoordinatesFit(p, coordinates)
    ensures refusal != Some(InvalidProgram)
  {
    if |coordinates| != |p.sweeps| { return Some(InvalidProgramBinding); }
    for i := 0 to |p.sweeps|
      invariant forall k :: 0 <= k < i ==>
        && coordinates[k].name == p.sweeps[k].name && coordinates[k].axis == p.sweeps[k].dimension
        && coordinates[k].value.kind == AxisType(p.sweeps[k].dimension)
        && (p.sweeps[k].dimension == TemperatureAxis ==> c.temperature)
    {
      var sweep, coordinate := p.sweeps[i], coordinates[i];
      assert sweep in p.sweeps;
      if coordinate.name != sweep.name || coordinate.axis != sweep.dimension
         || coordinate.value.kind != AxisType(sweep.dimension) {
        return Some(InvalidProgramBinding);
      }
      if sweep.dimension == TemperatureAxis && !c.temperature { return Some(CapabilityUnavailable); }
    }
    refusal := None;
  }

  /** Executes one point. It is declined, without any device call, exactly when the program is not
      accepted, a device is missing or the coordinates do not fit; an accepted point of a valid and
      ordered program is always evaluated, by the calls of the device protocol. */
  method ExecutePoint(p: Program, coordinates: seq<Coordinate>, c: C.Capabilities, bench: Bench)
    returns (outcome: PointOutcome)
    requires bench.Logged()
    modifies bench
    ensures bench.Logged()
    ensures outcome.Declined? <==> !(Accepted(p) && C.Capable(p, c) && CoordinatesFit(p, coordinates))
    ensures outcome.Declined? ==> bench.calls == old(bench.calls)
    ensures outcome == Declined(InvalidProgram) <==> !Accepted(p)
    ensures outcome == Declined(CapabilityUnavailable) ==> !C.Capable(p, c)
    ensures outcome == Declined(InvalidProgramBinding) ==> Measures(p, c) && !CoordinatesFit(p, coordinates)
    ensures !outcome.Declined? ==>
      var e := Run(p, coordinates, bench.response, old(bench.calls), |p.values|);
      outcome == if e.Some? then Evaluated(e.value.filled) else Escaped
    ensures !outcome.Declined? && V.Valid(p) && Ordered(p) ==>
      && outcome.Evaluated? && WellTyped(p.values, outcome.values)
      && bench.calls == old(bench.calls) + CallsAt(p, coordinates, |p.measurements|)
  {
    ghost var start := bench.calls;
    var reports := V.Validate(p);
    if reports != [] { return Declined(InvalidProgram); }
    var supported := CheckMeasurements(p, c);
    if !supported { return Declined(CapabilityUnavailable); }
    var refusal := CheckCoordinates(p, coordinates, c);
    if refusal.Some? { return Declined(refusal.value); }
    var values, readings := EvaluateValidatedPoint(p, coordinates, bench);
    if V.Valid(p) && Ordered(p) {
      ghost var e := DeviceProtocol(p, coordinates, bench.response, start);
    }
    outcome := if values.Some? then Evaluated(values.value) else Escaped;
  }
}
