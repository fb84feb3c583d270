/** When exactly matching scripts that measure the same operations record the same corrections. */
module MeasuredRuns {
  import opened Domain
  import Ast
  import opened Points
  import opened Ir
  import opened Evaluator
  import opened Soundness
  import opened Grid
  import opened NormalForms
  import opened Normalizing
  import opened Comparing
  import opened Devices
  import opened Execution
  import opened Pipeline
  import opened Matching
  import opened MatchingRuns
  import opened MeasuredForms
  import opened Sampling
  import C = Characterization
  import V = Validator

  /** Both runs get to the end and calibrate alike. */
  predicate CorrectAlike(x: C.Outcome, y: C.Outcome) {
    && x.Characterized? && y.Characterized?
    && x.result.calibration.corrections == y.result.calibration.corrections
  }

  /** Whatever the devices answer, both scripts record the same corrections. */
  ghost predicate AlwaysCorrectAlike(p: Program, q: Program, c: C.Capabilities, d: C.Capabilities) {
    forall response, start :: CorrectAlike(C.Characterize(p, c, response, start), C.Characterize(q, d, response, start))
  }

  /** Scripts that match and measure the same operations in the same order, with corrections free of
      absolute values. */
  predicate Counterparts(num: NumberFormat, p: Program, q: Program) {
    && Faithful(num, p.values) && Faithful(num, q.values) && InOrder(p) && InOrder(q)
    && LegacyAgrees(p) && LegacyAgrees(q) && CorrectionExpands(p) && CorrectionExpands(q)
    && Matches(num, p, q) && SameOperations(p, q)
  }

  lemma SampledCorrection(p: Program, point: Point, sample: C.Sample)
    requires V.Valid(p) && SampledWith(p, point, sample)
    ensures sample.correction == CorrectionOf(p, point)
  {
    TypeSoundness(p, point);
  }

  lemma SameTurn(num: NumberFormat, p: Program, q: Program, points: seq<seq<Coordinate>>, response: Response,
                 start: seq<DeviceCall>, i: nat, x: C.Sample, y: C.Sample)
    requires Counterparts(num, p, q) && i < |points|
    requires SampledInTurn(p, points, response, start, i, x) && SampledInTurn(q, points, response, start, i, y)
    ensures Observed(x) == Observed(y)
  {
    SameReference(num, p, q);
    SameCalls(p, q, points, start, i);
    SameAnswers(p, q, points[i], response, CallsBefore(p, points, start, i), Observed(x), Observed(y));
  }

  lemma TurnCorrectsAlike(num: NumberFormat, p: Program, q: Program, points: seq<seq<Coordinate>>, response: Response,
                          start: seq<DeviceCall>, i: nat, x: C.Sample, y: C.Sample)
    requires Counterparts(num, p, q) && AlwaysAgree(p, q) && i < |points|
    requires SampledInTurn(p, points, response, start, i, x) && SampledInTurn(q, points, response, start, i, y)
    ensures x.correction == y.correction
  {
    SameTurn(num, p, q, points, response, start, i, x, y);
    SampledCorrection(p, Point(points[i], Observed(x)), x);
    SampledCorrection(q, Point(points[i], Observed(x)), y);
  }

  // ----- Devices that answer one call -----

  function Silent(): Response {
    (op: MeasurementOperation, calls: seq<DeviceCall>) => 0.0
  }

  /** Answers one after n calls, and zero otherwise. */
  function Pulse(n: nat): Response {
    (op: MeasurementOperation, calls: seq<DeviceCall>) => if |calls| == n then 1.0 else 0.0
  }

  lemma {:induction false} MeasureCallsCount(measurements: seq<Measurement>, n: nat)
    requires n <= |measurements|
    ensures |MeasureCalls(measurements, n)| == n
  {
    if n > 0 { MeasureCallsCount(measurements, n - 1); }
  }

  lemma SilentAnswers(p: Program, coordinates: seq<Coordinate>, readings: seq<real>)
    requires Answers(p, coordinates, Silent(), [], readings)
    ensures readings == ZeroReadings(|p.measurements|)
  {
  }

  lemma PulseAnswers(p: Program, coordinates: seq<Coordinate>, j: nat, readings: seq<real>)
    requires j < |p.measurements| && Answers(p, coordinates, Pulse(|coordinates| + 1 + j), [], readings)
    ensures readings == UnitReading(|p.measurements|, j)
  {
    forall k | 0 <= k < |p.measurements| ensures readings[k] == if k == j then 1.0 else 0.0 {
      MeasureCallsCount(p.measurements, k);
      assert [] + CallsAt(p, coordinates, k) == CallsAt(p, coordinates, k);
    }
  }

  /** The first samples of two runs that calibrate alike have the same correction. */
  lemma FirstCorrection(a: Ast.Program, b: Ast.Program, c: C.Capabilities, d: C.Capabilities, response: Response)
    returns (x: C.Sample, y: C.Sample)
    requires Runs(a, c) && Runs(b, d) && AlwaysCorrectAlike(Compiled(a).value, Compiled(b).value, c, d)
    ensures var p, q := Compiled(a).value, Compiled(b).value;
      && C.Plans(p).Some? && C.Plans(q).Some?
      && |C.GridPoints(C.Plans(p).value)| > 0 && |C.GridPoints(C.Plans(q).value)| > 0
      && SampledInTurn(p, C.GridPoints(C.Plans(p).value), response, [], 0, x)
      && SampledInTurn(q, C.GridPoints(C.Plans(q).value), response, [], 0, y)
    ensures x.correction == y.correction
  {
    var p, q := Compiled(a).value, Compiled(b).value;
    var r := RunsCover(a, c, response, []);
    var s := RunsCover(b, d, response, []);
    SizePositive(C.Counts(C.Plans(p).value));
    SizePositive(C.Counts(C.Plans(q).value));
    x, y := r.samples[0], s.samples[0];
    assert CorrectAlike(C.Characterize(p, c, response, []), C.Characterize(q, d, response, []));
    assert r.calibration.corrections[0] == s.calibration.corrections[0];
  }

  lemma FirstCombination(p: Program, q: Program, coordinates: seq<Coordinate>, x: C.Sample, y: C.Sample, v: seq<real>)
    requires CorrectionExpands(p) && CorrectionExpands(q) && x.correction == y.correction
    requires SampledWith(p, Point(coordinates, v), x) && SampledWith(q, Point(coordinates, v), y)
    ensures Combination(p.values, p.calibration.correction, v) == Combination(q.values, q.calibration.correction, v)
  {
    SampledCorrection(p, Point(coordinates, v), x);
    SampledCorrection(q, Point(coordinates, v), y);
    AgreeThere(p, q, Point(coordinates, v));
  }

  // ----- The exact condition -----

  predicate Comparably(num: NumberFormat, a: Ast.Program, b: Ast.Program, c: C.Capabilities, d: C.Capabilities) {
    Runs(a, c) && Runs(b, d) && Counterparts(num, Compiled(a).value, Compiled(b).value)
  }

  lemma AlikeHaveSameForms(num: NumberFormat, a: Ast.Program, b: Ast.Program, c: C.Capabilities, d: C.Capabilities)
    requires Comparably(num, a, b, c, d) && AlwaysCorrectAlike(Compiled(a).value, Compiled(b).value, c, d)
    ensures SameForms(Compiled(a).value, Compiled(b).value)
  {
    var p, q := Compiled(a).value, Compiled(b).value;
    var n := |p.measurements|;
    MatchedGrids(num, p, q);
    var x, y := FirstCorrection(a, b, c, d, Silent());
    var first := C.GridPoints(C.Plans(p).value)[0];
    SilentAnswers(p, first, Observed(x));
    SilentAnswers(q, first, Observed(y));
    FirstCombination(p, q, first, x, y, ZeroReadings(n));
    forall j | 0 <= j < n
      ensures Combination(p.values, p.calibration.correction, UnitReading(n, j))
              == Combination(q.values, q.calibration.correction, UnitReading(n, j))
    {
      var u, v := FirstCorrection(a, b, c, d, Pulse(|first| + 1 + j));
      PulseAnswers(p, first, j, Observed(u));
      PulseAnswers(q, first, j, Observed(v));
      FirstCombination(p, q, first, u, v, UnitReading(n, j));
    }
    FormsFromReadings(p, q);
  }

  lemma SameFormsRunAlike(num: NumberFormat, a: Ast.Program, b: Ast.Program, c: C.Capabilities, d: C.Capabilities,
                          response: Response, start: seq<DeviceCall>)
    requires Comparably(num, a, b, c, d) && AlwaysAgree(Compiled(a).value, Compiled(b).value)
    ensures var p, q := Compiled(a).value, Compiled(b).value;
      CorrectAlike(C.Characterize(p, c, response, start), C.Characterize(q, d, response, start))
  {
    var p, q := Compiled(a).value, Compiled(b).value;
    var r := RunsCover(a, c, response, start);
    var s := RunsCover(b, d, response, start);
    MatchedGrids(num, p, q);
    var points := C.GridPoints(C.Plans(p).value);
    forall i | 0 <= i < |points| ensures r.samples[i].correction == s.samples[i].correction {
      assert SampledInTurn(p, points, response, start, i, r.samples[i]);
      assert SampledInTurn(q, points, response, start, i, s.samples[i]);
      TurnCorrectsAlike(num, p, q, points, response, start, i, r.samples[i], s.samples[i]);
    }
    assert r.calibration.corrections == s.calibration.corrections;
  }

  /** Two scripts that compile, run, match and measure the same operations in the same order, with
      corrections free of absolute values, calibrate alike on all devices if and only if their
      corrections count every single reading equally often and have the same offset. */
  lemma RunsCorrectAlikeExactly(num: NumberFormat, a: Ast.Program, b: Ast.Program, c: C.Capabilities,
                                d: C.Capabilities)
    requires Comparably(num, a, b, c, d)
    ensures AlwaysCorrectAlike(Compiled(a).value, Compiled(b).value, c, d)
            <==> SameForms(Compiled(a).value, Compiled(b).value)
  {
    var p, q := Compiled(a).value, Compiled(b).value;
    if AlwaysCorrectAlike(p, q, c, d) { AlikeHaveSameForms(num, a, b, c, d); }
    if SameForms(p, q) {
      FormsDecide(p, q);
      forall response, start
        ensures CorrectAlike(C.Characterize(p, c, response, start), C.Characterize(q, d, response, start))
      {
        SameFormsRunAlike(num, a, b, c, d, response, start);
      }
    }
  }
}
