/** What a script makes the devices do. */
module DrivenDevices {
  import opened Domain
  import opened Ast
  import opened Points
  import opened Ir
  import opened Devices
  import opened Declarations
  import opened CompiledDeclarations
  import opened Pipeline
  import opened Execution
  import opened Characterization
  import opened Sampling
  import opened ScriptRuns
  import opened Soundness
  import opened Evaluator
  import V = Validator

  // ----- The calls of one point, spelled by the statements -----

  /** The coordinates are set in their order. */
  predicate SetsCoordinates(coordinates: seq<Coordinate>, calls: seq<DeviceCall>) {
    && |coordinates| <= |calls|
    && forall i :: 0 <= i < |coordinates| ==>
         calls[i] == if coordinates[i].axis == FrequencyAxis then FrequencySet(coordinates[i].value.amount)
                     else TemperatureSet(coordinates[i].value.amount)
  }

  /** The output power is set to the power of the reference statement. */
  predicate SetsReference(list: seq<Statement>, call: DeviceCall) {
    && |list| == 1 && list[0].ReferenceStatement? && call.OutputPowerSet? && Reads(list[0].power, Power, call.dbm)
  }

  /** Each measurement statement makes the call its word names. */
  predicate Measures(list: seq<Statement>, calls: seq<DeviceCall>) {
    && |calls| == |list|
    && forall j :: 0 <= j < |list| ==>
         && list[j].MeasurementStatement? && calls[j].Measured?
         && Names(list[j].operation, calls[j].operation, ResultType(calls[j].operation))
  }

  /** The calls at a point: its coordinates are set, then the output power, and then every measurement
      is made in the order of the statements. */
  predicate DrivesPoint(program: Ast.Program, coordinates: seq<Coordinate>, calls: seq<DeviceCall>) {
    var n := |coordinates|;
    && SetsCoordinates(coordinates, calls) && n < |calls|
    && SetsReference(StatementsOf(program, AReference), calls[n])
    && Measures(StatementsOf(program, AMeasurement), calls[n + 1..])
  }

  /** The first n traces one after the other. */
  function Joined(traces: seq<seq<DeviceCall>>, n: nat): seq<DeviceCall>
    requires n <= |traces|
  {
    if n == 0 then [] else Joined(traces, n - 1) + traces[n - 1]
  }

  // ----- One point -----

  lemma {:induction false} MeasureCallsAre(measurements: seq<Ir.Measurement>, m: nat, n: nat)
    requires m <= n <= |measurements|
    ensures |MeasureCalls(measurements, n)| == n && MeasureCalls(measurements, n)[..m] == MeasureCalls(measurements, m)
    ensures forall j :: 0 <= j < n ==> MeasureCalls(measurements, n)[j] == Measured(measurements[j].operation)
    decreases n
  {
    if n > 0 {
      MeasureCallsAre(measurements, if m < n then m else n - 1, n - 1);
      if m == n { assert MeasureCalls(measurements, n)[..m] == MeasureCalls(measurements, n); }
    }
  }

  /** The calls in front of a measurement are those of the point up to it. */
  lemma CallsSplit(q: Ir.Program, coordinates: seq<Coordinate>, j: nat)
    requires j <= |q.measurements|
    ensures var all, n := CallsAt(q, coordinates, |q.measurements|), |coordinates|;
      && |all| == n + 1 + |q.measurements| && all[..n + 1 + j] == CallsAt(q, coordinates, j)
      && all[..n] == Setters(coordinates) && all[n] == OutputPowerSet(ReferenceAmount(q))
      && all[n + 1..] == MeasureCalls(q.measurements, |q.measurements|)
  {
    MeasureCallsAre(q.measurements, j, |q.measurements|);
  }

  lemma PointDriven(program: Ast.Program, q: Ir.Program, coordinates: seq<Coordinate>)
    requires CompilesReference(StatementsOf(program, AReference), q) && CompilesLists(program, q)
    ensures DrivesPoint(program, coordinates, CallsAt(q, coordinates, |q.measurements|))
  {
    var list, calls := StatementsOf(program, AMeasurement), CallsAt(q, coordinates, |q.measurements|);
    CallsSplit(q, coordinates, 0);
    MeasureCallsAre(q.measurements, 0, |q.measurements|);
    forall i | 0 <= i < |coordinates| ensures calls[i] == Setter(coordinates[i]) {
      assert calls[..|coordinates|][i] == calls[i];
    }
    forall j | 0 <= j < |list|
      ensures list[j].MeasurementStatement? && calls[|coordinates| + 1..][j].Measured?
      ensures Names(list[j].operation, calls[|coordinates| + 1..][j].operation,
                    ResultType(calls[|coordinates| + 1..][j].operation))
    {
      assert CompilesMeasurement(list[j], q.measurements[j]);
    }
  }

  // ----- The whole run -----

  /** The run from the i-th point on ends with the calls of all points. */
  ghost predicate EndsWithAll(q: Ir.Program, points: seq<seq<Coordinate>>, response: Response, start: seq<DeviceCall>,
                              i: nat)
    requires i <= |points|
  {
    exists run :: run == GridRun(q, points, response, CallsBefore(q, points, start, i), i)
      && (run.Some? ==> run.value.calls == CallsBefore(q, points, start, |points|))
  }

  /** A visit of the point adds the calls of the point to those before, whatever they are. */
  ghost predicate VisitAdds(q: Ir.Program, coordinates: seq<Coordinate>, response: Response) {
    forall calls | Visit(q, coordinates, response, calls).Some? ::
      Visit(q, coordinates, response, calls).value.calls == calls + CallsAt(q, coordinates, |q.measurements|)
  }

  lemma VisitsAdd(q: Ir.Program, coordinates: seq<Coordinate>, response: Response)
    requires V.Valid(q) && Ordered(q) && CoordinatesFit(q, coordinates)
    ensures VisitAdds(q, coordinates, response)
  {
    forall calls | Visit(q, coordinates, response, calls).Some?
      ensures Visit(q, coordinates, response, calls).value.calls == calls + CallsAt(q, coordinates, |q.measurements|)
    {
      VisitCalls(q, coordinates, response, calls);
    }
  }

  lemma LogStep(q: Ir.Program, points: seq<seq<Coordinate>>, response: Response, start: seq<DeviceCall>, i: nat)
    requires i < |points| && VisitAdds(q, points[i], response)
    requires EndsWithAll(q, points, response, start, i + 1)
    ensures EndsWithAll(q, points, response, start, i)
  {
    var calls := CallsBefore(q, points, start, i);
    if GridRun(q, points, response, calls, i).Some? {
      var here, rest := GridSplits(q, points, response, calls, i);
    }
  }

  lemma LogDone(q: Ir.Program, points: seq<seq<Coordinate>>, response: Response, start: seq<DeviceCall>)
    ensures EndsWithAll(q, points, response, start, |points|)
  {
    var calls := CallsBefore(q, points, start, |points|);
    assert GridRun(q, points, response, calls, |points|) == Some(GridState(calls, []));
  }

  lemma {:induction false} Downwards(holds: nat -> bool, n: nat, i: nat)
    requires i <= n && holds(n) && forall k: nat | k < n && holds(k + 1) :: holds(k)
    ensures holds(i)
    decreases n - i
  {
    if i < n {
      Downwards(holds, n, i + 1);
      assert holds(i + 1);
    }
  }

  /** Where the run ends with the calls of all points. */
  ghost function EndsFrom(q: Ir.Program, points: seq<seq<Coordinate>>, response: Response,
                          start: seq<DeviceCall>): nat -> bool
  {
    (k: nat) => k <= |points| && EndsWithAll(q, points, response, start, k)
  }

  lemma EndsStep(q: Ir.Program, points: seq<seq<Coordinate>>, response: Response, start: seq<DeviceCall>, k: nat)
    requires k < |points| && VisitAdds(q, points[k], response) && EndsFrom(q, points, response, start)(k + 1)
    ensures EndsFrom(q, points, response, start)(k)
  {
    LogStep(q, points, response, start, k);
  }

  lemma LogGrows(q: Ir.Program, points: seq<seq<Coordinate>>, response: Response, start: seq<DeviceCall>)
    requires forall k :: 0 <= k < |points| ==> VisitAdds(q, points[k], response)
    ensures EndsFrom(q, points, response, start)(0)
  {
    var holds := EndsFrom(q, points, response, start);
    LogDone(q, points, response, start);
    forall k: nat | k < |points| && holds(k + 1) ensures holds(k) { EndsStep(q, points, response, start, k); }
    Downwards(holds, |points|, 0);
  }

  lemma {:induction false} CallsJoin(q: Ir.Program, points: seq<seq<Coordinate>>, start: seq<DeviceCall>,
                                     traces: seq<seq<DeviceCall>>, i: nat)
    requires i <= |points| == |traces|
    requires forall k :: 0 <= k < |points| ==> traces[k] == CallsAt(q, points[k], |q.measurements|)
    ensures CallsBefore(q, points, start, i) == start + Joined(traces, i)
  {
    if i == 0 {
      assert start + [] == start;
    } else {
      CallsJoin(q, points, start, traces, i - 1);
      assert start + Joined(traces, i - 1) + traces[i - 1] == start + (Joined(traces, i - 1) + traces[i - 1]);
    }
  }

  /** The reading of a statement is the answer to its call, after all the calls before it. */
  predicate Answered(response: Response, before: seq<DeviceCall>, n: nat, trace: seq<DeviceCall>, sample: Sample) {
    && |trace| == n + 1 + |sample.observations|
    && forall j :: 0 <= j < |sample.observations| ==>
         sample.observations[j].value.amount == response(sample.observations[j].operation, before + trace[..n + 1 + j])
  }

  lemma SampleAnswered(q: Ir.Program, coordinates: seq<Coordinate>, response: Response, before: seq<DeviceCall>,
                       sample: Sample)
    requires SampledAt(q, coordinates, response, before, sample)
    ensures Answered(response, before, |coordinates|, CallsAt(q, coordinates, |q.measurements|), sample)
  {
    CallsSplit(q, coordinates, 0);
    var filled := Evaluated(q, coordinates, sample);
    forall j | 0 <= j < |sample.observations|
      ensures sample.observations[j].value.amount ==
        response(sample.observations[j].operation,
                 before + CallsAt(q, coordinates, |q.measurements|)[..|coordinates| + 1 + j])
    {
      CallsSplit(q, coordinates, j);
      assert Observe(q.measurements[j], filled) == Some(sample.observations[j]);
      assert Observed(sample)[j] == sample.observations[j].value.amount;
    }
  }

  /** The slots a sample was read from. */
  function Evaluated(q: Ir.Program, coordinates: seq<Coordinate>, sample: Sample): seq<Value>
    requires SampledWith(q, Point(coordinates, Observed(sample)), sample)
  {
    Fold(q.values, Point(coordinates, Observed(sample))).value
  }

  /** The trace of each point is that of the program there. */
  predicate TracesOf(q: Ir.Program, points: seq<seq<Coordinate>>, traces: seq<seq<DeviceCall>>) {
    |traces| == |points| && forall i :: 0 <= i < |points| ==> traces[i] == CallsAt(q, points[i], |q.measurements|)
  }

  function TracesAt(q: Ir.Program, points: seq<seq<Coordinate>>): (traces: seq<seq<DeviceCall>>)
    ensures TracesOf(q, points, traces)
  {
    seq(|points|, i requires 0 <= i < |points| => CallsAt(q, points[i], |q.measurements|))
  }

  /** Each sample was answered in its turn. */
  predicate AllAnswered(response: Response, start: seq<DeviceCall>, points: seq<seq<Coordinate>>,
                        traces: seq<seq<DeviceCall>>, samples: seq<Sample>) {
    && |traces| == |points| == |samples|
    && forall i :: 0 <= i < |points| ==>
         Answered(response, start + Joined(traces, i), |points[i]|, traces[i], samples[i])
  }

  /** Each point is driven as the statements say. */
  predicate AllDriven(program: Ast.Program, points: seq<seq<Coordinate>>, traces: seq<seq<DeviceCall>>) {
    |traces| == |points| && forall i :: 0 <= i < |points| ==> DrivesPoint(program, points[i], traces[i])
  }

  lemma SamplesAnswered(q: Ir.Program, points: seq<seq<Coordinate>>, response: Response, start: seq<DeviceCall>,
                        traces: seq<seq<DeviceCall>>, samples: seq<Sample>)
    requires TracesOf(q, points, traces) && AllSampled(q, points, response, start, samples)
    ensures AllAnswered(response, start, points, traces, samples)
  {
    forall i | 0 <= i < |points|
      ensures Answered(response, start + Joined(traces, i), |points[i]|, traces[i], samples[i])
    {
      CallsJoin(q, points, start, traces, i);
      assert SampledInTurn(q, points, response, start, i, samples[i]);
      SampleAnswered(q, points[i], response, CallsBefore(q, points, start, i), samples[i]);
    }
  }

  lemma GridLog(q: Ir.Program, points: seq<seq<Coordinate>>, response: Response, start: seq<DeviceCall>)
    requires V.Valid(q) && Ordered(q) && AllFit(q, points)
    ensures GridRun(q, points, response, start, 0).Some?
    ensures GridRun(q, points, response, start, 0).value.calls == CallsBefore(q, points, start, |points|)
  {
    GridSucceeds(q, points, response, start, 0);
    forall k | 0 <= k < |points| ensures VisitAdds(q, points[k], response) { VisitsAdd(q, points[k], response); }
    LogGrows(q, points, response, start);
  }

  lemma LogIsCalls(q: Ir.Program, c: Capabilities, response: Response, start: seq<DeviceCall>)
    requires V.Valid(q) && Ordered(q) && q.calibration.name != "" && Plans(q).Some? && Capable(q, c)
    ensures var points := GridPoints(Plans(q).value);
      LogAfter(q, c, response, start) == CallsBefore(q, points, start, |points|)
  {
    var points := GridPoints(Plans(q).value);
    forall i | 0 <= i < |points| ensures CoordinatesFit(q, points[i]) { GridFits(q, Plans(q).value, i); }
    GridLog(q, points, response, start);
  }

  lemma PointsDriven(program: Ast.Program, q: Ir.Program, points: seq<seq<Coordinate>>, traces: seq<seq<DeviceCall>>)
    requires CompilesReference(StatementsOf(program, AReference), q) && CompilesLists(program, q)
    requires TracesOf(q, points, traces)
    ensures AllDriven(program, points, traces)
  {
    forall i | 0 <= i < |points| ensures DrivesPoint(program, points[i], traces[i]) {
      PointDriven(program, q, points[i]);
    }
  }

  /** The script compiles and runs on these devices. */
  predicate Runnable(program: Ast.Program, c: Capabilities) {
    && GrammaticalProgram(program) && Compiled(program).Some?
    && SweepsPrecedeCalibration(program.statements) && Capable(Compiled(program).value, c)
  }

  lemma ScriptCompletes(program: Ast.Program, c: Capabilities, response: Response, start: seq<DeviceCall>)
    requires Runnable(program, c)
    ensures Plans(Compiled(program).value).Some?
    ensures Characterize(Compiled(program).value, c, response, start).Characterized?
  {
    CompiledIsPlannable(program);
    CharacterizationSucceeds(Compiled(program).value, c, response, start);
  }

  lemma ScriptLogged(program: Ast.Program, c: Capabilities, response: Response, start: seq<DeviceCall>,
                     points: seq<seq<Coordinate>>)
    requires Runnable(program, c)
    requires Plans(Compiled(program).value).Some? && points == GridPoints(Plans(Compiled(program).value).value)
    ensures LogAfter(Compiled(program).value, c, response, start)
            == start + Joined(TracesAt(Compiled(program).value, points), |points|)
  {
    CompiledIsPlannable(program);
    LogIsCalls(Compiled(program).value, c, response, start);
    CallsJoin(Compiled(program).value, points, start, TracesAt(Compiled(program).value, points), |points|);
  }

  lemma ScriptDrives(program: Ast.Program, c: Capabilities, points: seq<seq<Coordinate>>)
    requires Runnable(program, c)
    ensures AllDriven(program, points, TracesAt(Compiled(program).value, points))
  {
    CompilationDeclares(program);
    PointsDriven(program, Compiled(program).value, points, TracesAt(Compiled(program).value, points));
  }

  lemma ScriptAnswered(program: Ast.Program, c: Capabilities, response: Response, start: seq<DeviceCall>,
                       points: seq<seq<Coordinate>>)
    requires Runnable(program, c)
    requires Plans(Compiled(program).value).Some? && points == GridPoints(Plans(Compiled(program).value).value)
    requires Characterize(Compiled(program).value, c, response, start).Characterized?
    ensures AllAnswered(response, start, points, TracesAt(Compiled(program).value, points),
                        Characterize(Compiled(program).value, c, response, start).result.samples)
  {
    CompiledIsPlannable(program);
    CharacterizationSucceeds(Compiled(program).value, c, response, start);
    SamplesAnswered(Compiled(program).value, points, response, start, TracesAt(Compiled(program).value, points),
                    Characterize(Compiled(program).value, c, response, start).result.samples);
  }

  /** From statements to devices: a script that runs makes, for every point of its grid in order, the
      calls its statements spell and no others, and records for every measurement statement the
      devices' answer to its call after all the calls before. */
  lemma ScriptDrivesDevices(program: Ast.Program, c: Capabilities, response: Response, start: seq<DeviceCall>)
    returns (traces: seq<seq<DeviceCall>>)
    requires Runnable(program, c)
    ensures Plans(Compiled(program).value).Some?
    ensures Characterize(Compiled(program).value, c, response, start).Characterized?
    ensures var q := Compiled(program).value;
      var points, samples := GridPoints(Plans(q).value), Characterize(q, c, response, start).result.samples;
      && AllDriven(program, points, traces) && AllAnswered(response, start, points, traces, samples)
      && LogAfter(q, c, response, start) == start + Joined(traces, |traces|)
  {
    ScriptCompletes(program, c, response, start);
    var points := GridPoints(Plans(Compiled(program).value).value);
    traces := TracesAt(Compiled(program).value, points);
    ScriptDrives(program, c, points);
    ScriptAnswered(program, c, response, start, points);
    ScriptLogged(program, c, response, start, points);
  }
}
