/** A sound program is sampled at every point of its grid, and each sample says what it should. */
module Sampling {
  import opened Domain
  import opened Ir
  import opened Points
  import opened Evaluator
  import opened Soundness
  import opened SweepLattice
  import opened Grid
  import opened Devices
  import opened Execution
  import opened Characterization
  import opened QualificationCounts
  import V = Validator

  // ----- Reading a sample off typed slots never throws -----

  lemma {:induction false} ComparisonIsTyped(values: seq<Slot>, id: ValueId)
    requires V.ValidDefinitions(values) && Comparison(values, id).Some?
    ensures var c := Comparison(values, id).value;
      && c.Compare? && c.left < |values| && c.right < |values| && c.operandType != Boolean
      && values[c.left].typ == c.operandType && values[c.right].typ == c.operandType
    decreases id
  {
    assert V.ValidSlot(values, id);
    if values[id].definition.Alias? { ComparisonIsTyped(values, values[id].definition.target); }
  }

  /** A comparison slot holds the comparison of the two operand slots, through any aliases. */
  lemma {:induction false} ComparisonHolds(values: seq<Slot>, id: ValueId, point: Point)
    requires V.ValidDefinitions(values) && Comparison(values, id).Some?
    requires Fold(values, point).Some? && WellTyped(values, Fold(values, point).value)
    ensures var c, filled := Comparison(values, id).value, Fold(values, point).value;
      && c.Compare? && c.left < |filled| && c.right < |filled| && filled[c.left].Quantity? && filled[c.right].Quantity?
      && filled[id] == Truth(Compares(c.op, filled[c.left].amount, filled[c.right].amount))
    decreases id
  {
    ComparisonIsTyped(values, id);
    assert V.ValidSlot(values, id);
    FoldSlot(values, id, point);
    if values[id].definition.Alias? { ComparisonHolds(values, values[id].definition.target, point); }
  }

  predicate TypedAt(p: Program, coordinates: seq<Coordinate>, filled: seq<Value>) {
    V.Valid(p) && CoordinatesFit(p, coordinates) && WellTyped(p.values, filled)
  }

  lemma {:induction false} ObservationsRead(p: Program, coordinates: seq<Coordinate>, filled: seq<Value>, n: nat)
    requires TypedAt(p, coordinates, filled) && n <= |p.measurements|
    ensures Observations(p, filled, n).Some?
    ensures forall i :: 0 <= i < n ==> p.measurements[i].typ == ObservationKind(p.measurements[i].typ)
  {
    if n > 0 {
      ObservationsRead(p, coordinates, filled, n - 1);
      assert p.measurements[n - 1] in p.measurements;
    }
  }

  lemma {:induction false} DerivedRead(p: Program, coordinates: seq<Coordinate>, filled: seq<Value>, n: nat)
    requires TypedAt(p, coordinates, filled) && n <= |p.namedValues|
    ensures DerivedResults(p, filled, n).Some?
  {
    if n > 0 {
      DerivedRead(p, coordinates, filled, n - 1);
      assert p.namedValues[n - 1] in p.namedValues;
    }
  }

  lemma {:induction false} OutcomesRead(p: Program, coordinates: seq<Coordinate>, filled: seq<Value>, n: nat)
    requires TypedAt(p, coordinates, filled) && n <= |p.assertions|
    ensures Outcomes(p, coordinates, filled, n).Some?
  {
    if n > 0 {
      OutcomesRead(p, coordinates, filled, n - 1);
      assert V.ValidAssertion(p, n - 1);
      ComparisonIsTyped(p.values, p.assertions[n - 1].value);
    }
  }

  lemma SampleReads(p: Program, coordinates: seq<Coordinate>, filled: seq<Value>)
    requires TypedAt(p, coordinates, filled)
    ensures ReadSample(p, coordinates, filled).Some?
  {
    var f := AxisWitness(p.sweeps, FrequencyAxis);
    CoordinateFound(coordinates, f);
    CoordinateType(coordinates, FrequencyAxis);
    ObservationsRead(p, coordinates, filled, |p.measurements|);
    DerivedRead(p, coordinates, filled, |p.namedValues|);
    OutcomesRead(p, coordinates, filled, |p.assertions|);
  }

  /** The recorded operator and operands reproduce the recorded verdict. */
  predicate VerdictsExplained(sample: Sample) {
    forall i :: 0 <= i < |sample.assertions| ==>
      var a := sample.assertions[i];
      a.passed == Compares(a.op, a.left.amount, a.right.amount)
  }

  lemma VerdictsHold(p: Program, point: Point)
    requires V.Valid(p) && Fold(p.values, point).Some? && TypedAt(p, point.coordinates, Fold(p.values, point).value)
    ensures ReadSample(p, point.coordinates, Fold(p.values, point).value).Some?
    ensures VerdictsExplained(ReadSample(p, point.coordinates, Fold(p.values, point).value).value)
  {
    var filled := Fold(p.values, point).value;
    SampleReads(p, point.coordinates, filled);
    var sample := ReadSample(p, point.coordinates, filled).value;
    forall i | 0 <= i < |sample.assertions|
      ensures sample.assertions[i].passed
              == Compares(sample.assertions[i].op, sample.assertions[i].left.amount, sample.assertions[i].right.amount)
    {
      assert V.ValidAssertion(p, i);
      ComparisonHolds(p.values, p.assertions[i].value, point);
      assert Judge(p.assertions[i], point.coordinates, filled) == Some(sample.assertions[i]);
    }
  }

  // ----- The grid is visited point by point -----

  /** The readings as the sample records them. */
  function Observed(sample: Sample): (readings: seq<real>)
    ensures |readings| == |sample.observations|
    ensures forall j :: 0 <= j < |readings| ==> readings[j] == sample.observations[j].value.amount
  {
    seq(|sample.observations|, j requires 0 <= j < |sample.observations| => sample.observations[j].value.amount)
  }

  predicate SampledWith(p: Program, point: Point, sample: Sample) {
    && PointFits(p, point) && Fold(p.values, point).Some?
    && ReadSample(p, point.coordinates, Fold(p.values, point).value) == Some(sample)
  }

  /** The sample is that of the program at the point for the readings it records, and those are what
      the devices answered there, after the given calls. */
  predicate SampledAt(p: Program, coordinates: seq<Coordinate>, response: Response, calls: seq<DeviceCall>,
                      sample: Sample) {
    && SampledWith(p, Point(coordinates, Observed(sample)), sample)
    && Answers(p, coordinates, response, calls, Observed(sample))
  }

  /** The j-th observation is the j-th reading. */
  lemma ObservationsAreReadings(p: Program, point: Point, sample: Sample)
    requires V.Valid(p) && Ordered(p) && SampledWith(p, point, sample)
    ensures Observed(sample) == point.readings
  {
    var filled := Fold(p.values, point).value;
    forall j | 0 <= j < |p.measurements| ensures sample.observations[j].value.amount == point.readings[j] {
      ListedIsMeasure(p, j);
      AtLeast(p, j);
      AtMost(p, j);
      FoldSlot(p.values, p.measurements[j].value, point);
      assert Observe(p.measurements[j], filled) == Some(sample.observations[j]);
    }
  }

  lemma VisitSamples(p: Program, coordinates: seq<Coordinate>, response: Response, calls: seq<DeviceCall>)
    requires V.Valid(p) && Ordered(p) && CoordinatesFit(p, coordinates)
    ensures var here := Visit(p, coordinates, response, calls);
      && here.Some? && |here.value.samples| == 1 && SampledAt(p, coordinates, response, calls, here.value.samples[0])
      && VerdictsExplained(here.value.samples[0])
      && here.value.calls == calls + CallsAt(p, coordinates, |p.measurements|)
  {
    var e := DeviceProtocol(p, coordinates, response, calls);
    var point := Point(coordinates, e.readings);
    SampleReads(p, coordinates, e.filled);
    VerdictsHold(p, point);
    var sample := Visit(p, coordinates, response, calls).value.samples[0];
    assert SampledWith(p, point, sample);
    ObservationsAreReadings(p, point, sample);
  }

  lemma VisitCalls(p: Program, coordinates: seq<Coordinate>, response: Response, calls: seq<DeviceCall>)
    requires V.Valid(p) && Ordered(p) && CoordinatesFit(p, coordinates)
    ensures Visit(p, coordinates, response, calls).Some?
    ensures Visit(p, coordinates, response, calls).value.calls == calls + CallsAt(p, coordinates, |p.measurements|)
  {
    VisitSamples(p, coordinates, response, calls);
  }

  /** The calls made before the i-th point. */
  function CallsBefore(p: Program, points: seq<seq<Coordinate>>, start: seq<DeviceCall>, i: nat): seq<DeviceCall>
    requires i <= |points|
  {
    if i == 0 then start
    else CallsBefore(p, points, start, i - 1) + CallsAt(p, points[i - 1], |p.measurements|)
  }

  /** One sample for each point, with what the devices answered there in its turn. */
  predicate AllSampled(p: Program, points: seq<seq<Coordinate>>, response: Response, start: seq<DeviceCall>,
                       samples: seq<Sample>)
  {
    && |samples| == |points|
    && forall i :: 0 <= i < |points| ==> SampledInTurn(p, points, response, start, i, samples[i])
  }

  predicate SampledInTurn(p: Program, points: seq<seq<Coordinate>>, response: Response, start: seq<DeviceCall>, i: nat,
                          sample: Sample)
    requires i < |points|
  {
    SampledAt(p, points[i], response, CallsBefore(p, points, start, i), sample) && VerdictsExplained(sample)
  }

  predicate AllFit(p: Program, points: seq<seq<Coordinate>>) {
    forall i :: 0 <= i < |points| ==> CoordinatesFit(p, points[i])
  }

  lemma {:induction false} GridSucceeds(p: Program, points: seq<seq<Coordinate>>, response: Response,
                                        calls: seq<DeviceCall>, n: nat)
    requires V.Valid(p) && Ordered(p) && n <= |points| && AllFit(p, points)
    ensures GridRun(p, points, response, calls, n).Some?
    decreases |points| - n
  {
    if n < |points| {
      VisitCalls(p, points[n], response, calls);
      GridSucceeds(p, points, response, Visit(p, points[n], response, calls).value.calls, n + 1);
    }
  }

  lemma GridSplits(p: Program, points: seq<seq<Coordinate>>, response: Response, calls: seq<DeviceCall>, n: nat)
    returns (here: GridState, rest: GridState)
    requires n < |points| && GridRun(p, points, response, calls, n).Some?
    ensures Visit(p, points[n], response, calls) == Some(here) && |here.samples| == 1
    ensures GridRun(p, points, response, here.calls, n + 1) == Some(rest)
    ensures GridRun(p, points, response, calls, n).value.samples == here.samples + rest.samples
  {
    here := Visit(p, points[n], response, calls).value;
    rest := GridRun(p, points, response, here.calls, n + 1).value;
  }

  /** The samples taken from the i-th point on. */
  function Remaining(p: Program, points: seq<seq<Coordinate>>, response: Response, start: seq<DeviceCall>,
                     i: nat): Option<seq<Sample>>
    requires i <= |points|
  {
    var run := GridRun(p, points, response, CallsBefore(p, points, start, i), i);
    if run.None? then None else Some(run.value.samples)
  }

  /** One list is the other without its first element. */
  predicate Drops(now: Option<seq<Sample>>, next: Option<seq<Sample>>) {
    now.Some? ==> next.Some? && |now.value| > 0 && now.value[1..] == next.value
  }

  lemma DropsSuffix(all: seq<Sample>, i: nat, now: Option<seq<Sample>>, next: Option<seq<Sample>>)
    requires i <= |all| && now == Some(all[i..]) && Drops(now, next)
    ensures i < |all| && next == Some(all[i + 1..])
  {
    assert all[i..][1..] == all[i + 1..];
  }

  lemma {:induction false} SuffixRemains(runs: seq<Option<seq<Sample>>>, i: nat, all: seq<Sample>)
    requires i < |runs| && runs[0] == Some(all) && forall k :: 0 <= k < |runs| - 1 ==> Drops(runs[k], runs[k + 1])
    ensures i <= |all| && runs[i] == Some(all[i..])
  {
    if i == 0 {
      assert all[0..] == all;
    } else {
      SuffixRemains(runs, i - 1, all);
      DropsSuffix(all, i - 1, runs[i - 1], runs[i]);
    }
  }

  lemma GridStep(p: Program, points: seq<seq<Coordinate>>, response: Response, start: seq<DeviceCall>, i: nat,
                 state: GridState)
    returns (here: seq<Sample>, rest: GridState)
    requires V.Valid(p) && Ordered(p) && i < |points| && AllFit(p, points)
    requires GridRun(p, points, response, CallsBefore(p, points, start, i), i) == Some(state)
    ensures GridRun(p, points, response, CallsBefore(p, points, start, i + 1), i + 1) == Some(rest)
    ensures |here| == 1 && state.samples == here + rest.samples && SampledInTurn(p, points, response, start, i, here[0])
  {
    var calls := CallsBefore(p, points, start, i);
    var visited;
    visited, rest := GridSplits(p, points, response, calls, i);
    VisitSamples(p, points[i], response, calls);
    here := visited.samples;
  }

  lemma RemainingIsSuffix(p: Program, points: seq<seq<Coordinate>>, response: Response, start: seq<DeviceCall>, i: nat,
                          all: seq<Sample>)
    requires V.Valid(p) && Ordered(p) && i <= |points| && AllFit(p, points)
    requires Remaining(p, points, response, start, 0) == Some(all)
    ensures i <= |all| && Remaining(p, points, response, start, i) == Some(all[i..])
  {
    var runs := seq(|points| + 1, k requires 0 <= k <= |points| => Remaining(p, points, response, start, k));
    forall k | 0 <= k < |points| ensures Drops(runs[k], runs[k + 1]) { RunDrops(p, points, response, start, k); }
    SuffixRemains(runs, i, all);
  }

  lemma TurnSampled(p: Program, points: seq<seq<Coordinate>>, response: Response, start: seq<DeviceCall>, i: nat,
                    all: seq<Sample>, x: Sample)
    requires V.Valid(p) && Ordered(p) && i < |points| && AllFit(p, points)
    requires Remaining(p, points, response, start, 0) == Some(all) && i < |all| && all[i] == x
    ensures SampledInTurn(p, points, response, start, i, x)
  {
    RemainingIsSuffix(p, points, response, start, i, all);
    var state := GridRun(p, points, response, CallsBefore(p, points, start, i), i).value;
    var here, rest := GridStep(p, points, response, start, i, state);
    assert here[0] == all[i..][0];
  }

  lemma HeadDropped(x: seq<Sample>, rest: seq<Sample>)
    requires |x| == 1
    ensures (x + rest)[1..] == rest
  {
  }

  lemma GridNext(p: Program, points: seq<seq<Coordinate>>, response: Response, start: seq<DeviceCall>, i: nat,
                 state: GridState)
    returns (rest: GridState)
    requires V.Valid(p) && Ordered(p) && i < |points| && AllFit(p, points)
    requires GridRun(p, points, response, CallsBefore(p, points, start, i), i) == Some(state)
    ensures GridRun(p, points, response, CallsBefore(p, points, start, i + 1), i + 1) == Some(rest)
    ensures |state.samples| > 0 && state.samples[1..] == rest.samples
  {
    var here;
    here, rest := GridStep(p, points, response, start, i, state);
    HeadDropped(here, rest.samples);
  }

  lemma RunDrops(p: Program, points: seq<seq<Coordinate>>, response: Response, start: seq<DeviceCall>, i: nat)
    requires V.Valid(p) && Ordered(p) && i < |points| && AllFit(p, points)
    ensures Drops(Remaining(p, points, response, start, i), Remaining(p, points, response, start, i + 1))
  {
    var run := GridRun(p, points, response, CallsBefore(p, points, start, i), i);
    if run.Some? { var rest := GridNext(p, points, response, start, i, run.value); }
  }

  lemma GridSamples(p: Program, points: seq<seq<Coordinate>>, response: Response, start: seq<DeviceCall>)
    returns (state: GridState)
    requires V.Valid(p) && Ordered(p) && AllFit(p, points)
    ensures GridRun(p, points, response, start, 0) == Some(state)
    ensures AllSampled(p, points, response, start, state.samples)
  {
    GridSucceeds(p, points, response, start, 0);
    GridIsShaped(p, points, response, start, 0);
    state := GridRun(p, points, response, start, 0).value;
    forall i | 0 <= i < |points| ensures SampledInTurn(p, points, response, start, i, state.samples[i]) {
      TurnSampled(p, points, response, start, i, state.samples, state.samples[i]);
    }
  }

  lemma GridFits(p: Program, plans: seq<AxisPlan>, flat: nat)
    requires Plans(p) == Some(plans) && flat < Size(Counts(plans))
    ensures CoordinatesFit(p, PointOf(plans, flat))
  {
  }

  /** What a full characterization of a program delivers. */
  predicate Covers(p: Program, plans: seq<AxisPlan>, response: Response, start: seq<DeviceCall>, r: Result)
    requires Positive(Counts(plans))
  {
    && AllSampled(p, GridPoints(plans), response, start, r.samples)
    && Shaped(p, r.samples) && r == Assemble(p, |r.samples|, r.samples)
    && LoaderAccepts(r)
  }

  /** The names and types in a sample are the program's. */
  lemma SampleShape(p: Program, point: Point, sample: Sample)
    requires SampledWith(p, point, sample)
    ensures |sample.coordinates| == |p.sweeps| && |sample.observations| == |p.measurements|
    ensures |sample.derived| == |p.namedValues| && |sample.assertions| == |p.assertions|
    ensures forall i :: 0 <= i < |p.sweeps| ==>
      sample.coordinates[i].name == p.sweeps[i].name
        && sample.coordinates[i].value.kind == AxisType(p.sweeps[i].dimension)
    ensures forall i :: 0 <= i < |p.measurements| ==>
      sample.observations[i].name == p.measurements[i].name
      && sample.observations[i].value.kind == ObservationKind(p.measurements[i].typ)
    ensures forall i :: 0 <= i < |p.namedValues| ==>
      sample.derived[i].name == p.namedValues[i].name && sample.derived[i].typ == p.namedValues[i].typ
    ensures forall i :: 0 <= i < |p.assertions| ==> sample.assertions[i].id == p.assertions[i].id
  {
  }

  lemma SamplesShareShape(p: Program, x: Point, a: Sample, y: Point, b: Sample)
    requires SampledWith(p, x, a) && SampledWith(p, y, b)
    ensures SameShape(a, b)
  {
    SampleShape(p, x, a);
    SampleShape(p, y, b);
  }

  lemma {:induction false} SizePositive(counts: seq<nat>)
    requires Positive(counts)
    ensures Size(counts) >= 1
  {
    if |counts| > 0 {
      SizePositive(counts[..|counts| - 1]);
      assert 1 * counts[|counts| - 1] <= Size(counts[..|counts| - 1]) * counts[|counts| - 1];
    }
  }

  lemma LoaderAcceptsRun(p: Program, plans: seq<AxisPlan>, response: Response, start: seq<DeviceCall>,
                         samples: seq<Sample>)
    requires V.Valid(p) && Positive(Counts(plans)) && Shaped(p, samples)
    requires AllSampled(p, GridPoints(plans), response, start, samples)
    ensures LoaderAccepts(Assemble(p, |samples|, samples))
  {
    SizePositive(Counts(plans));
    QualificationConserves(p, samples);
    var r := Assemble(p, |samples|, samples);
    forall k | 0 <= k < |p.assertions| ensures r.qualification.assertions[k].id != "" { assert V.ValidAssertion(p, k); }
    forall i | 0 <= i < |samples| ensures SameShape(samples[i], samples[0]) {
      var points := GridPoints(plans);
      assert SampledInTurn(p, points, response, start, i, samples[i]);
      assert SampledInTurn(p, points, response, start, 0, samples[0]);
      SamplesShareShape(p, Point(points[i], Observed(samples[i])), samples[i], Point(points[0], Observed(samples[0])),
        samples[0]);
    }
  }

  /** A sound, plannable program with a named calibration, on capable devices, is characterized
      from start to end whatever the devices answer: one sample for each tuple of axis indexes in
      lexicographic order, each read off the fold of the program over the readings it records, which
      are the devices' answers after the calls made so far; verdicts its operands explain, and a
      qualification the viewer accepts. */
  lemma CharacterizationSucceeds(p: Program, c: Capabilities, response: Response, start: seq<DeviceCall>)
    requires V.Valid(p) && Ordered(p) && p.calibration.name != "" && Plans(p).Some? && Capable(p, c)
    ensures Characterize(p, c, response, start).Characterized?
    ensures Covers(p, Plans(p).value, response, start, Characterize(p, c, response, start).result)
  {
    var plans := Plans(p).value;
    var points := GridPoints(plans);
    forall i | 0 <= i < |points| ensures CoordinatesFit(p, points[i]) { GridFits(p, plans, i); }
    var state := GridSamples(p, points, response, start);
    GridIsShaped(p, points, response, start, 0);
    LoaderAcceptsRun(p, plans, response, start, state.samples);
  }
}
