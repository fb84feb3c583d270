/** A whole characterization: the program evaluated at every point of its sweep grid, and the
    qualification of the samples. */
module Characterization {
  import opened Domain
  import opened Ir
  import opened Points
  import opened Evaluator
  import opened Soundness
  import opened SweepLattice
  import opened Grid
  import opened Devices
  import opened Execution
  import V = Validator

  // ----- Planning -----

  datatype Capabilities = Capabilities(power: bool, evm: bool, frequencyError: bool, temperature: bool)

  predicate Supports(c: Capabilities, op: MeasurementOperation) {
    match op
    case MeasurePower => c.power
    case MeasureEvm => c.evm
    case MeasureFrequencyError => c.frequencyError
  }

  predicate Capable(p: Program, c: Capabilities) {
    && (forall m <- p.measurements :: Supports(c, m.operation))
    && (forall sweep <- p.sweeps :: sweep.dimension == TemperatureAxis ==> c.temperature)
  }

  datatype AxisPlan = AxisPlan(name: string, axis: Axis, plan: SweepPlan)

  /** A lone frequency sweep is planned from the legacy sweep. */
  function PlanOf(p: Program, i: nat): Option<SweepPlan>
    requires i < |p.sweeps|
  {
    var source := p.sweeps[i];
    if |p.sweeps| == 1 && source.dimension == FrequencyAxis
    then PlanSweep(p.sweep.start, p.sweep.end, p.sweep.step)
    else PlanSweep(source.start.amount, source.end.amount, source.step.amount)
  }

  function Counts(plans: seq<AxisPlan>): (counts: seq<nat>)
    ensures |counts| == |plans| && forall i :: 0 <= i < |plans| ==> counts[i] == plans[i].plan.pointCount
  {
    seq(|plans|, i requires 0 <= i < |plans| => plans[i].plan.pointCount)
  }

  /** The plans of the first n sweeps; None where one is refused, disagrees with the program's
      own count, or takes the product beyond the limit. */
  function PlanAxes(p: Program, n: nat): (plans: Option<seq<AxisPlan>>)
    requires n <= |p.sweeps|
    ensures plans.Some? ==> |plans.value| == n && Positive(Counts(plans.value))
    ensures plans.Some? ==> forall i :: 0 <= i < n ==>
      && plans.value[i].name == p.sweeps[i].name && plans.value[i].axis == p.sweeps[i].dimension
      && PlanOf(p, i) == Some(plans.value[i].plan)
  {
    if n == 0 then Some([])
    else
      var before, plan := PlanAxes(p, n - 1), PlanOf(p, n - 1);
      if before.None? || plan.None? then None
      else if |p.sweeps| > 1 && plan.value.pointCount != p.sweeps[n - 1].pointCount then None
      else if Size(Counts(before.value)) > MAXIMUM_POINTS / plan.value.pointCount then None
      else Some(before.value + [AxisPlan(p.sweeps[n - 1].name, p.sweeps[n - 1].dimension, plan.value)])
  }

  /** The plans of the whole program, or None where the run is refused. */
  function Plans(p: Program): (plans: Option<seq<AxisPlan>>)
    ensures plans.Some? ==> |plans.value| == |p.sweeps| && Positive(Counts(plans.value))
  {
    var plans := PlanAxes(p, |p.sweeps|);
    if plans.Some? && |p.sweeps| > 1 && Size(Counts(plans.value)) != p.totalPointCount then None else plans
  }

  function CoordinateAt(axis: AxisPlan, index: nat): Coordinate {
    Coordinate(axis.name, axis.axis, Scalar(AxisType(axis.axis), ValueAt(axis.plan, index)))
  }

  /** The coordinates at a tuple of axis indexes. */
  function PointAt(plans: seq<AxisPlan>, indexes: seq<nat>): (coordinates: seq<Coordinate>)
    requires |indexes| == |plans|
    ensures |coordinates| == |plans|
    ensures forall i :: 0 <= i < |plans| ==> coordinates[i] == CoordinateAt(plans[i], indexes[i])
  {
    seq(|plans|, i requires 0 <= i < |plans| => CoordinateAt(plans[i], indexes[i]))
  }

  function PointOf(plans: seq<AxisPlan>, flat: nat): (coordinates: seq<Coordinate>)
    requires Positive(Counts(plans))
    ensures |coordinates| == |plans|
  {
    PointAt(plans, Decode(Counts(plans), flat))
  }

  // ----- Samples -----

  datatype Status = Pass | Fail | NotEvaluated

  datatype Observation = Observation(name: string, value: Scalar, operation: MeasurementOperation)

  datatype NamedResult = NamedResult(name: string, typ: ValueType, value: Value)

  datatype AssertionOutcome = AssertionOutcome(
    id: string, coordinates: seq<Coordinate>, op: ComparisonOperator, left: Scalar, right: Scalar, passed: bool)

  datatype Sample = Sample(
    frequency: real, reference: real, measured: real, error: real, correction: real, corrected: real,
    residual: real, coordinates: seq<Coordinate>, observations: seq<Observation>,
    assertions: seq<AssertionOutcome>, status: Status, derived: seq<NamedResult>)

  function ObservationKind(typ: ValueType): Dimension {
    if typ == Power then Power else if typ == Ratio then Ratio else FrequencyDelta
  }

  function Observe(m: Measurement, filled: seq<Value>): Option<Observation> {
    var kind := ObservationKind(m.typ);
    var amount := Amount(filled, m.value, kind);
    if amount.None? then None else Some(Observation(m.name, Scalar(kind, amount.value), m.operation))
  }

  /** A slot as an assertion operand: Boolean slots and missing ones throw. */
  function Operand(filled: seq<Value>, id: ValueId): Option<Scalar> {
    if id < |filled| && filled[id].Quantity? then Some(Scalar(filled[id].kind, filled[id].amount)) else None
  }

  function Judge(a: Assertion, coordinates: seq<Coordinate>, filled: seq<Value>): Option<AssertionOutcome> {
    var left, right := Operand(filled, a.left), Operand(filled, a.right);
    if a.value < |filled| && filled[a.value].Truth? && left.Some? && right.Some?
    then Some(AssertionOutcome(a.id, coordinates, a.op, left.value, right.value, filled[a.value].holds)) else None
  }

  function Observations(p: Program, filled: seq<Value>, n: nat): (list: Option<seq<Observation>>)
    requires n <= |p.measurements|
    ensures list.Some? ==> |list.value| == n
    ensures list.Some? ==> forall i :: 0 <= i < n ==> Observe(p.measurements[i], filled) == Some(list.value[i])
  {
    if n == 0 then Some([])
    else
      var before, x := Observations(p, filled, n - 1), Observe(p.measurements[n - 1], filled);
      if before.None? || x.None? then None else Some(before.value + [x.value])
  }

  function DerivedResults(p: Program, filled: seq<Value>, n: nat): (list: Option<seq<NamedResult>>)
    requires n <= |p.namedValues|
    ensures list.Some? ==> |list.value| == n && forall i :: 0 <= i < n ==>
      && p.namedValues[i].value < |filled|
      && list.value[i] == NamedResult(p.namedValues[i].name, p.namedValues[i].typ, filled[p.namedValues[i].value])
  {
    if n == 0 then Some([])
    else
      var before, named := DerivedResults(p, filled, n - 1), p.namedValues[n - 1];
      if before.None? || named.value >= |filled| then None
      else Some(before.value + [NamedResult(named.name, named.typ, filled[named.value])])
  }

  function Outcomes(p: Program, coordinates: seq<Coordinate>, filled: seq<Value>,
                    n: nat): (list: Option<seq<AssertionOutcome>>)
    requires n <= |p.assertions|
    ensures list.Some? ==> |list.value| == n
    ensures list.Some? ==> forall i :: 0 <= i < n ==> Judge(p.assertions[i], coordinates, filled) == Some(list.value[i])
  {
    if n == 0 then Some([])
    else
      var before, x := Outcomes(p, coordinates, filled, n - 1), Judge(p.assertions[n - 1], coordinates, filled);
      if before.None? || x.None? then None else Some(before.value + [x.value])
  }

  predicate AllPassed(outcomes: seq<AssertionOutcome>) {
    forall i :: 0 <= i < |outcomes| ==> outcomes[i].passed
  }

  function StatusOf(outcomes: seq<AssertionOutcome>): Status {
    if |outcomes| == 0 then NotEvaluated else if AllPassed(outcomes) then Pass else Fail
  }

  /** The sample read off the filled slots; None where an access throws. */
  function ReadSample(p: Program, coordinates: seq<Coordinate>, filled: seq<Value>): (sample: Option<Sample>)
    ensures sample.Some? ==> |sample.value.assertions| == |p.assertions| && sample.value.coordinates == coordinates
    ensures sample.Some? ==> sample.value.status == StatusOf(sample.value.assertions)
  {
    var frequency := CoordinateOf(coordinates, FrequencyAxis);
    var r, m, c := Amount(filled, p.reference, Power), Amount(filled, p.measurement, Power),
                   Amount(filled, p.calibration.correction, PowerDelta);
    var observations, derived, outcomes :=
      Observations(p, filled, |p.measurements|), DerivedResults(p, filled, |p.namedValues|),
      Outcomes(p, coordinates, filled, |p.assertions|);
    if frequency.None? || !frequency.value.Quantity? || r.None? || m.None? || c.None?
       || observations.None? || derived.None? || outcomes.None? then None
    else Some(Sample(
      frequency.value.amount, r.value, m.value, m.value - r.value, c.value, m.value + c.value,
      m.value + c.value - r.value, coordinates, observations.value, outcomes.value,
      StatusOf(outcomes.value), derived.value))
  }

  // ----- The run over the grid -----

  datatype GridState = GridState(calls: seq<DeviceCall>, samples: seq<Sample>)

  /** The calls made up to and at one point, and its sample; None where an exception escapes. */
  function Visit(p: Program, coordinates: seq<Coordinate>, response: Response,
                 calls: seq<DeviceCall>): (state: Option<GridState>)
    ensures state.Some? ==> |state.value.samples| == 1 && Shaped(p, state.value.samples)
  {
    var e := Run(p, coordinates, response, calls, |p.values|);
    if e.None? then None
    else
      var sample := ReadSample(p, coordinates, e.value.filled);
      if sample.None? then None else Some(GridState(e.value.calls, [sample.value]))
  }

  /** The points of the grid in flat order. */
  function GridPoints(plans: seq<AxisPlan>): (points: seq<seq<Coordinate>>)
    requires Positive(Counts(plans))
    ensures |points| == Size(Counts(plans))
    ensures forall flat :: 0 <= flat < |points| ==> points[flat] == PointOf(plans, flat)
  {
    seq(Size(Counts(plans)), flat requires 0 <= flat => PointOf(plans, flat))
  }

  /** The calls made by the end, and the samples taken from the n-th point on. */
  function GridRun(p: Program, points: seq<seq<Coordinate>>, response: Response, calls: seq<DeviceCall>,
                   n: nat): Option<GridState>
    requires n <= |points|
    decreases |points| - n
  {
    if n == |points| then Some(GridState(calls, []))
    else
      var here := Visit(p, points[n], response, calls);
      if here.None? then None
      else
        var rest := GridRun(p, points, response, here.value.calls, n + 1);
        if rest.None? then None else Some(GridState(rest.value.calls, here.value.samples + rest.value.samples))
  }

  lemma {:induction false} GridIsShaped(p: Program, points: seq<seq<Coordinate>>, response: Response,
                                        calls: seq<DeviceCall>, n: nat)
    requires n <= |points| && GridRun(p, points, response, calls, n).Some?
    ensures var samples := GridRun(p, points, response, calls, n).value.samples;
      |samples| == |points| - n && Shaped(p, samples)
    decreases |points| - n
  {
    if n < |points| { GridIsShaped(p, points, response, Visit(p, points[n], response, calls).value.calls, n + 1); }
  }

  /** Every sample judges every assertion. */
  predicate Shaped(p: Program, samples: seq<Sample>) {
    forall i :: 0 <= i < |samples| ==>
      |samples[i].assertions| == |p.assertions| && samples[i].status == StatusOf(samples[i].assertions)
  }

  // ----- Qualification -----

  datatype AssertionSummary = AssertionSummary(id: string, total: nat, passed: nat, failed: nat)

  datatype Qualification = Qualification(
    status: Status, totalPoints: nat, passedPoints: nat, failedPoints: nat, assertions: seq<AssertionSummary>)

  function InitialSummaries(p: Program, total: nat): (summaries: seq<AssertionSummary>)
    ensures |summaries| == |p.assertions|
    ensures forall k :: 0 <= k < |p.assertions| ==> summaries[k] == AssertionSummary(p.assertions[k].id, total, 0, 0)
  {
    seq(|p.assertions|, k requires 0 <= k < |p.assertions| => AssertionSummary(p.assertions[k].id, total, 0, 0))
  }

  function Counted(summary: AssertionSummary, passed: bool): AssertionSummary {
    if passed then summary.(passed := summary.passed + 1) else summary.(failed := summary.failed + 1)
  }

  /** One sample's outcomes added to the first n summaries. */
  function Tally(summaries: seq<AssertionSummary>, outcomes: seq<AssertionOutcome>,
                 n: nat): (after: seq<AssertionSummary>)
    requires |summaries| == |outcomes| && n <= |summaries|
    ensures |after| == |summaries|
    ensures forall k :: 0 <= k < |summaries| ==>
      after[k] == if k < n then Counted(summaries[k], outcomes[k].passed) else summaries[k]
  {
    if n == 0 then summaries
    else Tally(summaries, outcomes, n - 1)[n - 1 := Counted(summaries[n - 1], outcomes[n - 1].passed)]
  }

  /** The counters after the samples: per assertion, and points passed and failed. */
  datatype Counters = Counters(summaries: seq<AssertionSummary>, passed: nat, failed: nat)

  function CountSample(c: Counters, x: Sample): Counters
    requires |c.summaries| == |x.assertions|
  {
    Counters(Tally(c.summaries, x.assertions, |x.assertions|),
             c.passed + (if x.status == Pass then 1 else 0), c.failed + (if x.status == Fail then 1 else 0))
  }

  function CountSamples(p: Program, total: nat, samples: seq<Sample>): (c: Counters)
    requires Shaped(p, samples)
    ensures |c.summaries| == |p.assertions|
  {
    if |samples| == 0 then Counters(InitialSummaries(p, total), 0, 0)
    else CountSample(CountSamples(p, total, samples[..|samples| - 1]), samples[|samples| - 1])
  }

  function Qualify(p: Program, total: nat, samples: seq<Sample>): Qualification
    requires Shaped(p, samples)
  {
    var c := CountSamples(p, total, samples);
    Qualification(if |p.assertions| == 0 then NotEvaluated else if c.failed == 0 then Pass else Fail,
                  total, c.passed, c.failed, c.summaries)
  }

  // ----- The result -----

  datatype Entry = Entry(coordinates: seq<Coordinate>, correction: real)

  datatype Artifact = Artifact(
    name: string, descriptors: seq<(string, Axis)>, frequencies: seq<real>, corrections: seq<real>, entries: seq<Entry>)

  datatype Result = Result(name: string, samples: seq<Sample>, calibration: Artifact, qualification: Qualification)

  datatype Outcome = Refused | Thrown | Characterized(result: Result)

  function Descriptors(p: Program): (list: seq<(string, Axis)>)
    ensures |list| == |p.sweeps| && forall i :: 0 <= i < |p.sweeps| ==>
      list[i] == (p.sweeps[i].name, p.sweeps[i].dimension)
  {
    seq(|p.sweeps|, i requires 0 <= i < |p.sweeps| => (p.sweeps[i].name, p.sweeps[i].dimension))
  }

  /** The calibration lists the correction of every sample. */
  function Calibrate(p: Program, samples: seq<Sample>): (a: Artifact)
    ensures a.name == p.calibration.name && a.descriptors == Descriptors(p)
    ensures |a.frequencies| == |a.corrections| == |a.entries| == |samples|
    ensures forall i :: 0 <= i < |samples| ==>
      && a.frequencies[i] == samples[i].frequency && a.corrections[i] == samples[i].correction
      && a.entries[i] == Entry(samples[i].coordinates, samples[i].correction)
  {
    if |samples| == 0 then Artifact(p.calibration.name, Descriptors(p), [], [], [])
    else AddEntry(Calibrate(p, samples[..|samples| - 1]), samples[|samples| - 1])
  }

  function AddEntry(a: Artifact, x: Sample): Artifact {
    a.(frequencies := a.frequencies + [x.frequency], corrections := a.corrections + [x.correction],
       entries := a.entries + [Entry(x.coordinates, x.correction)])
  }

  function Assemble(p: Program, total: nat, samples: seq<Sample>): Result
    requires Shaped(p, samples)
  {
    Result(p.name, samples, Calibrate(p, samples), Qualify(p, total, samples))
  }

  predicate Accepted(p: Program, c: Capabilities) {
    && (V.Valid(p) || V.SilentlyAccepted(p))
    && p.calibration.name != "" && Plans(p).Some? && Capable(p, c)
  }

  function Characterize(p: Program, c: Capabilities, response: Response, start: seq<DeviceCall>): Outcome {
    if !Accepted(p, c) then Refused
    else
      var points := GridPoints(Plans(p).value);
      var run := GridRun(p, points, response, start, 0);
      if run.None? then Thrown
      else
        GridIsShaped(p, points, response, start, 0);
        Characterized(Assemble(p, |points|, run.value.samples))
  }

  /** The device calls made by the end of a run that is refused or completes. */
  function LogAfter(p: Program, c: Capabilities, response: Response, start: seq<DeviceCall>): seq<DeviceCall> {
    if !Accepted(p, c) then start
    else
      var run := GridRun(p, GridPoints(Plans(p).value), response, start, 0);
      if run.None? then start else run.value.calls
  }

  // ----- The procedure -----

  method PlanProgram(p: Program) returns (plans: Option<seq<AxisPlan>>)
    ensures plans == Plans(p)
  {
    var list: seq<AxisPlan>, count := [], 1;
    for i := 0 to |p.sweeps|
      invariant PlanAxes(p, i) == Some(list) && count == Size(Counts(list))
    {
      var plan := PlanOf(p, i);
      if plan.None? || (|p.sweeps| > 1 && plan.value.pointCount != p.sweeps[i].pointCount)
         || count > MAXIMUM_POINTS / plan.value.pointCount {
        PlanningFails(p, i, list);
        return None;
      }
      PlanningGoesOn(p, i, list, plan.value);
      count := count * plan.value.pointCount;
      list := list + [AxisPlan(p.sweeps[i].name, p.sweeps[i].dimension, plan.value)];
    }
    if |p.sweeps| > 1 && count != p.totalPointCount { return None; }
    plans := Some(list);
  }

  predicate PlanFits(p: Program, i: nat, plan: Option<SweepPlan>, so_far: nat)
    requires i < |p.sweeps|
  {
    && plan.Some? && plan.value.pointCount > 0
    && (|p.sweeps| > 1 ==> plan.value.pointCount == p.sweeps[i].pointCount)
    && so_far <= MAXIMUM_POINTS / plan.value.pointCount
  }

  lemma PlanningFails(p: Program, i: nat, list: seq<AxisPlan>)
    requires i < |p.sweeps| && PlanAxes(p, i) == Some(list) && !PlanFits(p, i, PlanOf(p, i), Size(Counts(list)))
    ensures Plans(p).None?
  {
    PlanningStops(p, i + 1, |p.sweeps|);
  }

  /** A plan that is there, agrees with the count of the program and fits the limit is added. */
  lemma PlanningGoesOn(p: Program, i: nat, list: seq<AxisPlan>, plan: SweepPlan)
    requires i < |p.sweeps| && PlanAxes(p, i) == Some(list) && PlanOf(p, i) == Some(plan)
    requires |p.sweeps| > 1 ==> plan.pointCount == p.sweeps[i].pointCount
    requires plan.pointCount > 0 && Size(Counts(list)) <= MAXIMUM_POINTS / plan.pointCount
    ensures var axis := AxisPlan(p.sweeps[i].name, p.sweeps[i].dimension, plan);
      PlanAxes(p, i + 1) == Some(list + [axis]) && Size(Counts(list + [axis])) == Size(Counts(list)) * plan.pointCount
  {
    CountsAppend(list, AxisPlan(p.sweeps[i].name, p.sweeps[i].dimension, plan));
  }

  lemma CountsAppend(plans: seq<AxisPlan>, x: AxisPlan)
    ensures Counts(plans + [x]) == Counts(plans) + [x.plan.pointCount]
    ensures Size(Counts(plans + [x])) == Size(Counts(plans)) * x.plan.pointCount
  {
    assert Counts(plans + [x]) == Counts(plans) + [x.plan.pointCount];
    assert (Counts(plans) + [x.plan.pointCount])[..|plans|] == Counts(plans);
  }

  lemma {:induction false} PlanningStops(p: Program, m: nat, n: nat)
    requires m <= n <= |p.sweeps| && PlanAxes(p, m).None?
    ensures PlanAxes(p, n).None?
    decreases n
  {
    if m < n { PlanningStops(p, m, n - 1); }
  }

  method CheckCapabilities(p: Program, c: Capabilities) returns (ok: bool)
    ensures ok == Capable(p, c)
  {
    for i := 0 to |p.measurements|
      invariant forall k :: 0 <= k < i ==> Supports(c, p.measurements[k].operation)
    {
      assert p.measurements[i] in p.measurements;
      if !Supports(c, p.measurements[i].operation) { return false; }
    }
    for i := 0 to |p.sweeps|
      invariant forall k :: 0 <= k < i ==> p.sweeps[k].dimension == TemperatureAxis ==> c.temperature
    {
      assert p.sweeps[i] in p.sweeps;
      if p.sweeps[i].dimension == TemperatureAxis && !c.temperature { return false; }
    }
    ok := true;
  }

  /** Judges the assertions at one point, updating the summaries. */
  method JudgeAssertions(p: Program, coordinates: seq<Coordinate>, filled: seq<Value>, summaries: seq<AssertionSummary>)
    returns (outcomes: Option<seq<AssertionOutcome>>, after: seq<AssertionSummary>, passed: bool)
    requires |summaries| == |p.assertions|
    ensures outcomes == Outcomes(p, coordinates, filled, |p.assertions|)
    ensures outcomes.Some? ==>
      after == Tally(summaries, outcomes.value, |p.assertions|) && passed == AllPassed(outcomes.value)
  {
    var list: seq<AssertionOutcome> := [];
    after, passed := summaries, true;
    for i := 0 to |p.assertions|
      invariant Outcomes(p, coordinates, filled, i) == Some(list)
      invariant |after| == |summaries|
      invariant forall k :: 0 <= k < |summaries| ==>
        after[k] == if k < i then Counted(summaries[k], list[k].passed) else summaries[k]
      invariant passed == AllPassed(list)
    {
      var x := Judge(p.assertions[i], coordinates, filled);
      if x.None? {
        OutcomesStop(p, coordinates, filled, i + 1, |p.assertions|);
        return None, after, passed;
      }
      passed := passed && x.value.passed;
      after := after[i := Counted(after[i], x.value.passed)];
      list := list + [x.value];
    }
    outcomes := Some(list);
    assert after == Tally(summaries, list, |p.assertions|);
  }

  lemma {:induction false} OutcomesStop(p: Program, coordinates: seq<Coordinate>, filled: seq<Value>, m: nat, n: nat)
    requires m <= n <= |p.assertions| && Outcomes(p, coordinates, filled, m).None?
    ensures Outcomes(p, coordinates, filled, n).None?
    decreases n
  {
    if m < n { OutcomesStop(p, coordinates, filled, m, n - 1); }
  }

  method ObserveAll(p: Program, filled: seq<Value>) returns (list: Option<seq<Observation>>)
    ensures list == Observations(p, filled, |p.measurements|)
  {
    var observations: seq<Observation> := [];
    for i := 0 to |p.measurements|
      invariant Observations(p, filled, i) == Some(observations)
    {
      var x := Observe(p.measurements[i], filled);
      if x.None? {
        ObservationsStop(p, filled, i + 1, |p.measurements|);
        return None;
      }
      observations := observations + [x.value];
    }
    list := Some(observations);
  }

  lemma {:induction false} ObservationsStop(p: Program, filled: seq<Value>, m: nat, n: nat)
    requires m <= n <= |p.measurements| && Observations(p, filled, m).None?
    ensures Observations(p, filled, n).None?
    decreases n
  {
    if m < n { ObservationsStop(p, filled, m, n - 1); }
  }

  method NameDerived(p: Program, filled: seq<Value>) returns (list: Option<seq<NamedResult>>)
    ensures list == DerivedResults(p, filled, |p.namedValues|)
  {
    var results: seq<NamedResult> := [];
    for i := 0 to |p.namedValues|
      invariant DerivedResults(p, filled, i) == Some(results)
    {
      var named := p.namedValues[i];
      if named.value >= |filled| {
        DerivedStop(p, filled, i + 1, |p.namedValues|);
        return None;
      }
      results := results + [NamedResult(named.name, named.typ, filled[named.value])];
    }
    list := Some(results);
  }

  lemma {:induction false} DerivedStop(p: Program, filled: seq<Value>, m: nat, n: nat)
    requires m <= n <= |p.namedValues| && DerivedResults(p, filled, m).None?
    ensures DerivedResults(p, filled, n).None?
    decreases n
  {
    if m < n { DerivedStop(p, filled, m, n - 1); }
  }

  /** Takes the sample at one point and counts its outcomes. */
  method TakeSample(p: Program, coordinates: seq<Coordinate>, filled: seq<Value>, summaries: seq<AssertionSummary>)
    returns (sample: Option<Sample>, after: seq<AssertionSummary>)
    requires |summaries| == |p.assertions|
    ensures sample == ReadSample(p, coordinates, filled)
    ensures sample.Some? ==> after == Tally(summaries, sample.value.assertions, |p.assertions|)
  {
    sample, after := None, summaries;
    var frequency := CoordinateOf(coordinates, FrequencyAxis);
    var r, m, c := Amount(filled, p.reference, Power), Amount(filled, p.measurement, Power),
                   Amount(filled, p.calibration.correction, PowerDelta);
    if frequency.None? || !frequency.value.Quantity? || r.None? || m.None? || c.None? { return; }
    var error := m.value - r.value;
    var corrected := m.value + c.value;
    var observations := ObserveAll(p, filled);
    if observations.None? { return; }
    var derived := NameDerived(p, filled);
    if derived.None? { return; }
    var outcomes, counted, passed := JudgeAssertions(p, coordinates, filled, summaries);
    if outcomes.None? { return; }
    var status := if |p.assertions| == 0 then NotEvaluated else if passed then Pass else Fail;
    sample := Some(Sample(frequency.value.amount, r.value, m.value, error, c.value, corrected, corrected - r.value,
                          coordinates, observations.value, outcomes.value, status, derived.value));
    after := counted;
  }

  /** The coordinates of one point of the grid. */
  method DecodePoint(plans: seq<AxisPlan>, flat: nat) returns (coordinates: seq<Coordinate>)
    requires Positive(Counts(plans)) && flat < Size(Counts(plans))
    ensures coordinates == GridPoints(plans)[flat]
  {
    var indexes := DecodeFlatIndex(Counts(plans), flat);
    coordinates := [];
    for axis := 0 to |plans|
      invariant coordinates == PointAt(plans, indexes[..])[..axis]
    {
      coordinates := coordinates + [CoordinateAt(plans[axis], indexes[axis])];
    }
  }

  /** One point: drives the devices and takes the sample. */
  method VisitPoint(p: Program, coordinates: seq<Coordinate>, summaries: seq<AssertionSummary>, bench: Bench)
    returns (sample: Option<Sample>, after: seq<AssertionSummary>)
    requires bench.Logged() && |summaries| == |p.assertions|
    modifies bench
    ensures bench.Logged()
    ensures Visit(p, coordinates, bench.response, old(bench.calls)) ==
      if sample.Some? then Some(GridState(bench.calls, [sample.value])) else None
    ensures sample.Some? ==>
      |sample.value.assertions| == |summaries| && after == Tally(summaries, sample.value.assertions, |summaries|)
  {
    var filled;
    ghost var readings;
    filled, readings := EvaluateValidatedPoint(p, coordinates, bench);
    if filled.None? { return None, summaries; }
    sample, after := TakeSample(p, coordinates, filled.value, summaries);
  }

  /** Runs the whole characterization. */
  method ExecuteCharacterization(p: Program, c: Capabilities, bench: Bench) returns (outcome: Outcome)
    requires bench.Logged()
    modifies bench
    ensures bench.Logged()
    ensures outcome == Characterize(p, c, bench.response, old(bench.calls))
    ensures !outcome.Thrown? ==> bench.calls == LogAfter(p, c, bench.response, old(bench.calls))
  {
    ghost var start := bench.calls;
    var reports := V.Validate(p);
    if reports != [] || p.calibration.name == "" { return Refused; }
    var plans := PlanProgram(p);
    if plans.None? { return Refused; }
    var capable := CheckCapabilities(p, c);
    if !capable { return Refused; }
    var total := Size(Counts(plans.value));
    outcome := SampleGrid(p, plans.value, total, bench);
  }

  /** The samples kept, the counters and the calibration tell the same story. */
  predicate Consistent(p: Program, total: nat, samples: seq<Sample>, c: Counters, artifact: Artifact) {
    Shaped(p, samples) && CountSamples(p, total, samples) == c && Calibrate(p, samples) == artifact
  }

  /** Files one sample, whose outcomes have been added to the summaries. */
  method FileSample(p: Program, total: nat, samples: seq<Sample>, c: Counters, artifact: Artifact, x: Sample,
                    summaries: seq<AssertionSummary>)
    returns (counters: Counters, filed: Artifact)
    requires Consistent(p, total, samples, c, artifact) && Shaped(p, [x])
    requires |x.assertions| == |c.summaries| && summaries == Tally(c.summaries, x.assertions, |c.summaries|)
    ensures Consistent(p, total, samples + [x], counters, filed)
  {
    var passed, failed := c.passed, c.failed;
    if x.status == Pass { passed := passed + 1; }
    if x.status == Fail { failed := failed + 1; }
    counters := Counters(summaries, passed, failed);
    filed := AddEntry(artifact, x);
    SamplesAppend(p, total, samples, x);
  }

  /** The run seen from its start is what has been sampled, followed by the run from here. */
  predicate Continues(whole: Option<GridState>, samples: seq<Sample>, rest: Option<GridState>) {
    whole == if rest.None? then None else Some(rest.value.(samples := samples + rest.value.samples))
  }

  /** Visits the points of the grid in flat order, collecting samples and counting outcomes. */
  method SampleGrid(p: Program, plans: seq<AxisPlan>, total: nat, bench: Bench) returns (outcome: Outcome)
    requires Positive(Counts(plans)) && total == Size(Counts(plans)) && bench.Logged()
    modifies bench
    ensures bench.Logged()
    ensures var run := GridRun(p, GridPoints(plans), bench.response, old(bench.calls), 0);
      if run.None? then outcome == Thrown
      else
        && Shaped(p, run.value.samples) && outcome == Characterized(Assemble(p, total, run.value.samples))
        && bench.calls == run.value.calls
  {
    ghost var run := GridRun(p, GridPoints(plans), bench.response, bench.calls, 0);
    var samples: seq<Sample> := [];
    var counters, artifact := StartFiling(p, total);
    GridStarts(run);
    var flat := 0;
    while flat < total
      invariant flat <= total && bench.Logged()
      invariant Continues(run, samples, GridRun(p, GridPoints(plans), bench.response, bench.calls, flat))
      invariant Consistent(p, total, samples, counters, artifact)
    {
      var sample;
      sample, counters, artifact := SampleNext(p, plans, total, flat, samples, counters, artifact, run, bench);
      if sample.None? { return Thrown; }
      samples := samples + [sample.value];
      flat := flat + 1;
    }
    GridEnds(run, samples, bench.calls);
    var result := CloseFiling(p, total, samples, counters, artifact);
    outcome := Characterized(result);
  }

  method StartFiling(p: Program, total: nat) returns (counters: Counters, artifact: Artifact)
    ensures Consistent(p, total, [], counters, artifact)
  {
    counters := Counters(InitialSummaries(p, total), 0, 0);
    artifact := Artifact(p.calibration.name, Descriptors(p), [], [], []);
  }

  method CloseFiling(p: Program, total: nat, samples: seq<Sample>, c: Counters, artifact: Artifact)
    returns (result: Result)
    requires Consistent(p, total, samples, c, artifact)
    ensures Shaped(p, samples) && result == Assemble(p, total, samples)
  {
    var status := if |p.assertions| == 0 then NotEvaluated else if c.failed == 0 then Pass else Fail;
    result := Result(p.name, samples, artifact, Qualification(status, total, c.passed, c.failed, c.summaries));
  }

  /** Visits one point of the grid and files its sample. */
  method SampleNext(p: Program, plans: seq<AxisPlan>, total: nat, flat: nat, samples: seq<Sample>, c: Counters,
                    artifact: Artifact, ghost run: Option<GridState>, bench: Bench)
    returns (sample: Option<Sample>, counters: Counters, filed: Artifact)
    requires Positive(Counts(plans)) && flat < total == Size(Counts(plans)) && bench.Logged()
    requires Continues(run, samples, GridRun(p, GridPoints(plans), bench.response, bench.calls, flat))
    requires Consistent(p, total, samples, c, artifact)
    modifies bench
    ensures bench.Logged()
    ensures sample.None? ==> run.None?
    ensures sample.Some? ==> Consistent(p, total, samples + [sample.value], counters, filed)
    ensures sample.Some? ==>
      Continues(run, samples + [sample.value], GridRun(p, GridPoints(plans), bench.response, bench.calls, flat + 1))
  {
    ghost var rest := GridRun(p, GridPoints(plans), bench.response, bench.calls, flat);
    var coordinates := DecodePoint(plans, flat);
    var after;
    sample, after := VisitPoint(p, coordinates, c.summaries, bench);
    if sample.None? { return None, c, artifact; }
    counters, filed := FileSample(p, total, samples, c, artifact, sample.value, after);
    ghost var next := GridRun(p, GridPoints(plans), bench.response, bench.calls, flat + 1);
    GridContinues(run, samples, rest, sample.value, next);
  }

  lemma GridStarts(run: Option<GridState>)
    ensures Continues(run, [], run)
  {
    if run.Some? { assert [] + run.value.samples == run.value.samples; }
  }

  lemma GridEnds(run: Option<GridState>, samples: seq<Sample>, calls: seq<DeviceCall>)
    requires Continues(run, samples, Some(GridState(calls, [])))
    ensures run == Some(GridState(calls, samples))
  {
    assert samples + [] == samples;
  }

  lemma GridContinues(whole: Option<GridState>, samples: seq<Sample>, rest: Option<GridState>, x: Sample,
                      after: Option<GridState>)
    requires Continues(whole, samples, rest) && Continues(rest, [x], after)
    ensures Continues(whole, samples + [x], after)
  {
    if after.Some? { assert samples + [x] + after.value.samples == samples + ([x] + after.value.samples); }
  }

  lemma SamplesAppend(p: Program, total: nat, samples: seq<Sample>, x: Sample)
    requires Shaped(p, samples) && Shaped(p, [x])
    ensures Shaped(p, samples + [x]) && |CountSamples(p, total, samples).summaries| == |x.assertions|
    ensures CountSamples(p, total, samples + [x]) == CountSample(CountSamples(p, total, samples), x)
    ensures Calibrate(p, samples + [x]) == AddEntry(Calibrate(p, samples), x)
  {
    assert [x][0] == x;
    assert (samples + [x])[..|samples|] == samples;
  }
}
