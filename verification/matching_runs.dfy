/** What a semantic match guarantees of whole runs. */
module MatchingRuns {
  import opened Domain
  import Ast
  import opened Points
  import opened Ir
  import opened Evaluator
  import opened Soundness
  import opened Grid
  import opened NormalForms
  import opened LinearForms
  import opened Normalizing
  import opened NormalSemantics
  import opened Comparing
  import opened Devices
  import opened Execution
  import opened Pipeline
  import opened Matching
  import opened Sampling
  import C = Characterization
  import ScriptRuns
  import V = Validator

  predicate SameSample(x: C.Sample, y: C.Sample) {
    && x.coordinates == y.coordinates && x.frequency == y.frequency && x.reference == y.reference
    && x.correction == y.correction && x.status == y.status
  }

  /** Two runs record the same operating points, corrections and verdicts, and the same calibration. */
  predicate SameRun(a: C.Result, b: C.Result) {
    && |a.samples| == |b.samples|
    && (forall i :: 0 <= i < |a.samples| ==> SameSample(a.samples[i], b.samples[i]))
    && a.calibration.entries == b.calibration.entries && a.calibration.corrections == b.calibration.corrections
    && a.calibration.frequencies == b.calibration.frequencies
  }

  /** Two programs that match, the texts of the first naming no slot. */
  predicate Comparable(num: NumberFormat, p: Program, q: Program) {
    && Faithful(num, p.values) && Faithful(num, q.values)
    && InOrder(p) && InOrder(q) && LegacyAgrees(p) && LegacyAgrees(q)
    && OperandsPrecede(p.values) && OperandsPrecede(q.values) && PortableResults(num, p) && Matches(num, p, q)
  }

  // ----- Sample by sample -----

  lemma SampledAlike(num: NumberFormat, p: Program, q: Program, s: Point, t: Point, rho: Readings, x: C.Sample,
                     y: C.Sample)
    requires Comparable(num, p, q) && SamePoint(p, q, s, t, rho) && SampledWith(p, s, x) && SampledWith(q, t, y)
    ensures SameSample(x, y)
  {
    MatchAtPoint(num, p, q, s, t, rho);
    SameStatus(p, q, s.coordinates, Fold(p.values, s).value, Fold(q.values, t).value);
  }

  /** At the point of the sample each operation has the given reading. */
  predicate ObservedAs(p: Program, coordinates: seq<Coordinate>, sample: C.Sample, rho: Readings) {
    Reads(p, Point(coordinates, Observed(sample)), rho)
  }

  lemma TurnsAlike(num: NumberFormat, p: Program, q: Program, points: seq<seq<Coordinate>>, response: Response,
                   start: seq<DeviceCall>, other: seq<DeviceCall>, i: nat, x: C.Sample, y: C.Sample, rho: Readings)
    requires Comparable(num, p, q) && i < |points|
    requires SampledInTurn(p, points, response, start, i, x) && SampledInTurn(q, points, response, other, i, y)
    requires ObservedAs(p, points[i], x, rho) && ObservedAs(q, points[i], y, rho)
    ensures SameSample(x, y)
  {
    SampledAlike(num, p, q, Point(points[i], Observed(x)), Point(points[i], Observed(y)), rho, x, y);
  }

  /** Runs whose samples are the same have the same calibration. */
  lemma SameSamplesSameRun(p: Program, q: Program, a: C.Result, b: C.Result)
    requires a.calibration == C.Calibrate(p, a.samples) && b.calibration == C.Calibrate(q, b.samples)
    requires |a.samples| == |b.samples| && forall i :: 0 <= i < |a.samples| ==> SameSample(a.samples[i], b.samples[i])
    ensures SameRun(a, b)
  {
    var c, d := a.calibration, b.calibration;
    forall i | 0 <= i < |a.samples|
      ensures c.entries[i] == d.entries[i] && c.corrections[i] == d.corrections[i]
        && c.frequencies[i] == d.frequencies[i]
    {
      assert SameSample(a.samples[i], b.samples[i]);
    }
  }

  lemma ReferenceForm(num: NumberFormat, p: Program)
    requires V.Valid(p) && OperandsPrecede(p.values)
    ensures p.reference < |p.values|
    ensures NormOf(num, p.values, p.reference) == Atom(Power, ReferenceLeaf(ReferenceAmount(p)))
  {
    assert V.ValidSlot(p.values, p.reference);
  }

  lemma SameReferenceText(num: NumberFormat, p: Program, q: Program)
    requires OperandsPrecede(p.values) && OperandsPrecede(q.values) && Matches(num, p, q)
    requires p.reference < |p.values| && q.reference < |q.values|
    ensures Render(num, NormOf(num, p.values, p.reference)) == Render(num, NormOf(num, q.values, q.reference))
  {
    assert Identity(num, p.values, p.reference) == Identity(num, q.values, q.reference);
  }

  lemma SameReference(num: NumberFormat, p: Program, q: Program)
    requires Faithful(num, p.values) && Faithful(num, q.values) && V.Valid(p) && V.Valid(q)
    requires OperandsPrecede(p.values) && OperandsPrecede(q.values) && Matches(num, p, q)
    ensures ReferenceAmount(p) == ReferenceAmount(q)
  {
    ReferenceForm(num, p);
    ReferenceForm(num, q);
    SameReferenceText(num, p, q);
    NormWritable(num, p.values, p.reference);
    NormWritable(num, q.values, q.reference);
    RenderIsInjective(num, NormOf(num, p.values, p.reference), NormOf(num, q.values, q.reference));
  }

  // ----- Readings in listed order -----

  /** The j-th measuring slot belongs to the j-th measurement, so readings may be given by measurement. */
  lemma ListedReads(p: Program, point: Point, rho: Readings)
    requires InOrder(p) && |point.readings| == |p.measurements|
    requires forall j :: 0 <= j < |p.measurements| ==> point.readings[j] == rho(p.measurements[j].operation)
    ensures Reads(p, point, rho)
  {
    forall s | 0 <= s < |p.values| && p.values[s].definition.Measure? ensures ReadsSlot(p, point, rho, s) {
      MeasuringSlotIsListed(p, s);
      ListedIsMeasure(p, MeasureCount(p.values[..s]));
    }
  }

  lemma {:induction false} MeasuresKeepSettings(calls: seq<DeviceCall>, measurements: seq<Measurement>, n: nat)
    requires n <= |measurements|
    ensures SettingsAfter(calls + MeasureCalls(measurements, n)) == SettingsAfter(calls)
  {
    if n == 0 {
      assert calls + [] == calls;
    } else {
      var before, call := MeasureCalls(measurements, n - 1), Measured(measurements[n - 1].operation);
      MeasuresKeepSettings(calls, measurements, n - 1);
      SettingsAppend(calls + before, call);
      assert calls + (before + [call]) == calls + before + [call];
    }
  }

  /** The settings under which a point is measured. */
  function Prepared(p: Program, coordinates: seq<Coordinate>, calls: seq<DeviceCall>): Settings {
    SettingsAfter(calls + (Setters(coordinates) + [OutputPowerSet(ReferenceAmount(p))]))
  }

  lemma SettledDuringPoint(p: Program, coordinates: seq<Coordinate>, calls: seq<DeviceCall>, n: nat)
    requires n <= |p.measurements|
    ensures SettingsAfter(calls + CallsAt(p, coordinates, n)) == Prepared(p, coordinates, calls)
  {
    var setting := Setters(coordinates) + [OutputPowerSet(ReferenceAmount(p))];
    MeasuresKeepSettings(calls + setting, p.measurements, n);
    assert calls + (setting + MeasureCalls(p.measurements, n)) == calls + setting + MeasureCalls(p.measurements, n);
  }

  // ----- Devices that answer by their settings -----

  /** Both programs reach a point with the same settings. */
  lemma {:induction false} SettingsAlike(p: Program, q: Program, points: seq<seq<Coordinate>>, start: seq<DeviceCall>,
                                         other: seq<DeviceCall>, i: nat)
    requires ReferenceAmount(p) == ReferenceAmount(q) && SettingsAfter(start) == SettingsAfter(other) && i <= |points|
    ensures SettingsAfter(CallsBefore(p, points, start, i)) == SettingsAfter(CallsBefore(q, points, other, i))
  {
    if i > 0 {
      SettingsAlike(p, q, points, start, other, i - 1);
      var a, b := CallsBefore(p, points, start, i - 1), CallsBefore(q, points, other, i - 1);
      SettledDuringPoint(p, points[i - 1], a, |p.measurements|);
      SettledDuringPoint(q, points[i - 1], b, |q.measurements|);
      SettingsCarryOver(a, b, Setters(points[i - 1]) + [OutputPowerSet(ReferenceAmount(p))]);
    }
  }

  /** The answers of steady devices under the settings of a point. */
  function SteadyReadings(p: Program, coordinates: seq<Coordinate>, response: Response,
                          calls: seq<DeviceCall>): Readings {
    (op: MeasurementOperation) => response(op, calls + CallsAt(p, coordinates, 0))
  }

  lemma SteadyAnswer(p: Program, q: Program, coordinates: seq<Coordinate>, response: Response, a: seq<DeviceCall>,
                     b: seq<DeviceCall>, j: nat)
    requires Steady(response) && Prepared(p, coordinates, a) == Prepared(q, coordinates, b) && j < |q.measurements|
    ensures response(q.measurements[j].operation, b + CallsAt(q, coordinates, j))
            == SteadyReadings(p, coordinates, response, a)(q.measurements[j].operation)
  {
    SettledDuringPoint(q, coordinates, b, j);
    SettledDuringPoint(p, coordinates, a, 0);
  }

  lemma SteadyAnswers(p: Program, q: Program, coordinates: seq<Coordinate>, response: Response, a: seq<DeviceCall>,
                      b: seq<DeviceCall>, readings: seq<real>)
    requires Steady(response) && InOrder(q) && Prepared(p, coordinates, a) == Prepared(q, coordinates, b)
    requires Answers(q, coordinates, response, b, readings)
    ensures Reads(q, Point(coordinates, readings), SteadyReadings(p, coordinates, response, a))
  {
    var rho := SteadyReadings(p, coordinates, response, a);
    forall j | 0 <= j < |q.measurements| ensures readings[j] == rho(q.measurements[j].operation) {
      SteadyAnswer(p, q, coordinates, response, a, b, j);
    }
    ListedReads(q, Point(coordinates, readings), rho);
  }

  lemma SteadyTurn(num: NumberFormat, p: Program, q: Program, points: seq<seq<Coordinate>>, response: Response,
                   start: seq<DeviceCall>, other: seq<DeviceCall>, i: nat, x: C.Sample, y: C.Sample)
    requires Comparable(num, p, q) && Steady(response) && SettingsAfter(start) == SettingsAfter(other) && i < |points|
    requires SampledInTurn(p, points, response, start, i, x) && SampledInTurn(q, points, response, other, i, y)
    ensures SameSample(x, y)
  {
    var a, b := CallsBefore(p, points, start, i), CallsBefore(q, points, other, i);
    SameReference(num, p, q);
    SettingsAlike(p, q, points, start, other, i);
    SettingsCarryOver(a, b, Setters(points[i]) + [OutputPowerSet(ReferenceAmount(p))]);
    SteadyAnswers(p, p, points[i], response, a, a, Observed(x));
    SteadyAnswers(p, q, points[i], response, a, b, Observed(y));
    TurnsAlike(num, p, q, points, response, start, other, i, x, y, SteadyReadings(p, points[i], response, a));
  }

  // ----- Operations measured once -----

  /** No operation is measured twice. */
  predicate MeasuredOnce(p: Program) {
    forall i, j :: 0 <= i < j < |p.measurements| ==> p.measurements[i].operation != p.measurements[j].operation
  }

  /** Both programs measure the same operations in the same order. */
  predicate SameOperations(p: Program, q: Program) {
    && |p.measurements| == |q.measurements|
    && forall j :: 0 <= j < |p.measurements| ==> p.measurements[j].operation == q.measurements[j].operation
  }

  lemma {:induction false} SameMeasureCalls(p: Program, q: Program, n: nat)
    requires SameOperations(p, q) && n <= |p.measurements|
    ensures MeasureCalls(p.measurements, n) == MeasureCalls(q.measurements, n)
  {
    if n > 0 { SameMeasureCalls(p, q, n - 1); }
  }

  lemma {:induction false} SameCalls(p: Program, q: Program, points: seq<seq<Coordinate>>, start: seq<DeviceCall>,
                                     i: nat)
    requires SameOperations(p, q) && ReferenceAmount(p) == ReferenceAmount(q) && i <= |points|
    ensures CallsBefore(p, points, start, i) == CallsBefore(q, points, start, i)
  {
    if i > 0 {
      SameCalls(p, q, points, start, i - 1);
      SameMeasureCalls(p, q, |p.measurements|);
    }
  }

  lemma SameAnswers(p: Program, q: Program, coordinates: seq<Coordinate>, response: Response, calls: seq<DeviceCall>,
                    r: seq<real>, s: seq<real>)
    requires SameOperations(p, q) && ReferenceAmount(p) == ReferenceAmount(q)
    requires Answers(p, coordinates, response, calls, r) && Answers(q, coordinates, response, calls, s)
    ensures r == s
  {
    forall j | 0 <= j < |r| ensures r[j] == s[j] { SameMeasureCalls(p, q, j); }
  }

  /** The reading of the last measurement of an operation among the first n. */
  function ReadingOf(p: Program, readings: seq<real>, op: MeasurementOperation, n: nat): real
    requires n <= |p.measurements| == |readings|
  {
    if n == 0 then 0.0
    else if p.measurements[n - 1].operation == op then readings[n - 1]
    else ReadingOf(p, readings, op, n - 1)
  }

  lemma {:induction false} ReadingOfMeasured(p: Program, readings: seq<real>, j: nat, n: nat)
    requires MeasuredOnce(p) && j < n <= |p.measurements| == |readings|
    ensures ReadingOf(p, readings, p.measurements[j].operation, n) == readings[j]
  {
    if j < n - 1 { ReadingOfMeasured(p, readings, j, n - 1); }
  }

  lemma OnceReads(p: Program, q: Program, coordinates: seq<Coordinate>, readings: seq<real>) returns (rho: Readings)
    requires MeasuredOnce(p) && SameOperations(p, q) && InOrder(p) && InOrder(q) && |readings| == |p.measurements|
    ensures Reads(p, Point(coordinates, readings), rho) && Reads(q, Point(coordinates, readings), rho)
  {
    rho := (op: MeasurementOperation) => ReadingOf(p, readings, op, |p.measurements|);
    forall j | 0 <= j < |p.measurements| ensures readings[j] == rho(p.measurements[j].operation) {
      ReadingOfMeasured(p, readings, j, |p.measurements|);
    }
    ListedReads(p, Point(coordinates, readings), rho);
    ListedReads(q, Point(coordinates, readings), rho);
  }

  lemma OnceTurn(num: NumberFormat, p: Program, q: Program, points: seq<seq<Coordinate>>, response: Response,
                 start: seq<DeviceCall>, i: nat, x: C.Sample, y: C.Sample)
    requires Comparable(num, p, q) && MeasuredOnce(p) && SameOperations(p, q) && i < |points|
    requires SampledInTurn(p, points, response, start, i, x) && SampledInTurn(q, points, response, start, i, y)
    ensures SameSample(x, y)
  {
    SameReference(num, p, q);
    SameCalls(p, q, points, start, i);
    SameAnswers(p, q, points[i], response, CallsBefore(p, points, start, i), Observed(x), Observed(y));
    var rho := OnceReads(p, q, points[i], Observed(x));
    TurnsAlike(num, p, q, points, response, start, start, i, x, y, rho);
  }

  // ----- Whole runs of scripts -----

  /** The script compiles to a program that runs on the devices. */
  predicate Runs(program: Ast.Program, c: C.Capabilities) {
    && Ast.GrammaticalProgram(program) && Compiled(program).Some? && Ast.SweepsPrecedeCalibration(program.statements)
    && C.Capable(Compiled(program).value, c)
  }

  /** The scripts match, and no text of the first names a slot. */
  predicate ScriptsMatch(num: NumberFormat, a: Ast.Program, b: Ast.Program)
    requires Compiled(a).Some? && Compiled(b).Some?
  {
    var p, q := Compiled(a).value, Compiled(b).value;
    && Faithful(num, p.values) && Faithful(num, q.values) && OperandsPrecede(p.values) && OperandsPrecede(q.values)
    && PortableResults(num, p) && Matches(num, p, q)
  }

  lemma RunsCover(program: Ast.Program, c: C.Capabilities, response: Response, start: seq<DeviceCall>)
    returns (r: C.Result)
    requires Runs(program, c)
    ensures var p := Compiled(program).value;
      && InOrder(p) && LegacyAgrees(p) && C.Plans(p).Some?
      && C.Characterize(p, c, response, start) == C.Characterized(r) && Covers(p, C.Plans(p).value, response, start, r)
  {
    var p := Compiled(program).value;
    ScriptRuns.CompiledIsPlannable(program);
    CompiledLegacyAgrees(program);
    CharacterizationSucceeds(p, c, response, start);
    r := C.Characterize(p, c, response, start).result;
  }

  /** On devices that answer by their settings, matching scripts have the same run: the same samples
      up to what a match does not compare, and the same calibration. */
  lemma SteadyRunsAgree(num: NumberFormat, a: Ast.Program, b: Ast.Program, c: C.Capabilities, d: C.Capabilities,
                        response: Response, start: seq<DeviceCall>, other: seq<DeviceCall>)
    requires Runs(a, c) && Runs(b, d) && ScriptsMatch(num, a, b)
    requires Steady(response) && SettingsAfter(start) == SettingsAfter(other)
    ensures var x, y := C.Characterize(Compiled(a).value, c, response, start),
      C.Characterize(Compiled(b).value, d, response, other);
      x.Characterized? && y.Characterized? && SameRun(x.result, y.result)
  {
    var p, q := Compiled(a).value, Compiled(b).value;
    var x := RunsCover(a, c, response, start);
    var y := RunsCover(b, d, response, other);
    MatchedGrids(num, p, q);
    var points := C.GridPoints(C.Plans(p).value);
    forall i | 0 <= i < |points| ensures SameSample(x.samples[i], y.samples[i]) {
      assert SampledInTurn(p, points, response, start, i, x.samples[i]);
      assert SampledInTurn(q, points, response, other, i, y.samples[i]);
      SteadyTurn(num, p, q, points, response, start, other, i, x.samples[i], y.samples[i]);
    }
    SameSamplesSameRun(p, q, x, y);
  }

  /** Whatever the devices answer, matching scripts that measure the same operations in the same
      order, none of them twice, have the same run. */
  lemma OnceRunsAgree(num: NumberFormat, a: Ast.Program, b: Ast.Program, c: C.Capabilities, d: C.Capabilities,
                      response: Response, start: seq<DeviceCall>)
    requires Runs(a, c) && Runs(b, d) && ScriptsMatch(num, a, b)
    requires MeasuredOnce(Compiled(a).value) && SameOperations(Compiled(a).value, Compiled(b).value)
    ensures var x, y := C.Characterize(Compiled(a).value, c, response, start),
      C.Characterize(Compiled(b).value, d, response, start);
      x.Characterized? && y.Characterized? && SameRun(x.result, y.result)
  {
    var p, q := Compiled(a).value, Compiled(b).value;
    var x := RunsCover(a, c, response, start);
    var y := RunsCover(b, d, response, start);
    MatchedGrids(num, p, q);
    var points := C.GridPoints(C.Plans(p).value);
    forall i | 0 <= i < |points| ensures SameSample(x.samples[i], y.samples[i]) {
      assert SampledInTurn(p, points, response, start, i, x.samples[i]);
      assert SampledInTurn(q, points, response, start, i, y.samples[i]);
      OnceTurn(num, p, q, points, response, start, i, x.samples[i], y.samples[i]);
    }
    SameSamplesSameRun(p, q, x, y);
  }
}
