/** A script from its text to its results: compiled, run over its grid, and qualified. */
module ScriptRuns {
  import opened Domain
  import opened Ast
  import opened Points
  import opened Ir
  import opened Evaluator
  import opened Soundness
  import opened SweepLattice
  import opened Grid
  import opened Devices
  import opened LoweringPass
  import opened LoweringCorrectness
  import opened LoweredPrograms
  import opened AnalysisCorrectness
  import opened AnalyzedPrograms
  import opened Analysis
  import opened Meanings
  import opened Pipeline
  import opened Characterization
  import opened Execution
  import opened Sampling
  import V = Validator
  import S = Semantic

  /** The runtime's own plan of every axis has the point count recorded by the compiler. */
  predicate PlansMatch(q: Ir.Program) {
    forall i :: 0 <= i < |q.sweeps| ==>
      PlanOf(q, i).Some? && PlanOf(q, i).value.pointCount == q.sweeps[i].pointCount
  }

  lemma LoweredPlansMatch(p: S.Program, q: Ir.Program)
    requires SweepsAsPlanned(p) && LowersSweeps(p, q.sweeps, |p.sweeps|) && LegacyCopies(p, q.sweep, |p.sweeps|)
    ensures PlansMatch(q)
  {
    forall i | 0 <= i < |q.sweeps|
      ensures PlanOf(q, i).Some? && PlanOf(q, i).value.pointCount == q.sweeps[i].pointCount
    {
      var sweep := p.sweeps[i];
      assert sweep in p.sweeps && PlannedSweep(sweep);
      assert q.sweeps[i] == LoweredSweep(p, i);
      if |q.sweeps| == 1 && sweep.axis == FrequencyAxis { assert LastFrequency(p, 0, 1); }
      assert PlanOf(q, i) == PlanSweep(sweep.start, sweep.end, sweep.step);
      CountsAgree(sweep.start, sweep.end, sweep.step);
    }
  }

  lemma PlanningStep(q: Ir.Program, n: nat, before: seq<AxisPlan>)
    requires n < |q.sweeps| && PlansMatch(q) && q.sweeps[n].pointCount > 0
    requires PlanAxes(q, n) == Some(before) && Size(Counts(before)) == PartialProduct(q.sweeps, n)
    requires PartialProduct(q.sweeps, n + 1) <= MAXIMUM_POINTS
    ensures PlanAxes(q, n + 1).Some?
    ensures Size(Counts(PlanAxes(q, n + 1).value)) == PartialProduct(q.sweeps, n + 1)
  {
    V.SweepStep(q.sweeps, n);
    CountsAppend(before, AxisPlan(q.sweeps[n].name, q.sweeps[n].dimension, PlanOf(q, n).value));
  }

  lemma {:induction false} PlanningSucceeds(q: Ir.Program, n: nat)
    requires V.Valid(q) && PlansMatch(q) && n <= |q.sweeps|
    ensures PlanAxes(q, n).Some? && Size(Counts(PlanAxes(q, n).value)) == PartialProduct(q.sweeps, n)
  {
    if n > 0 {
      PlanningSucceeds(q, n - 1);
      assert q.sweeps[n - 1] in q.sweeps && V.ValidSweep(q, q.sweeps[n - 1]);
      V.ProductGrows(q.sweeps, n, |q.sweeps|);
      PlanningStep(q, n - 1, PlanAxes(q, n - 1).value);
    }
  }

  /** What the sample records is what reading the script at its point means, for the readings it
      records. */
  predicate MeansAt(program: Ast.Program, coordinates: seq<Coordinate>, sample: Sample) {
    MeansWith(Interpret(program.statements, |program.statements|, Point(coordinates, Observed(sample))), sample)
  }

  predicate MeansWith(m: Meaning, sample: Sample) {
    && m.correction == Some(Quantity(PowerDelta, sample.correction))
    && |m.assertions| == |sample.assertions| && |m.derived| == |sample.derived|
    && (forall k :: 0 <= k < |m.assertions| ==> m.assertions[k] == Some(Truth(sample.assertions[k].passed)))
    && (forall k :: 0 <= k < |m.derived| ==> m.derived[k] == Some(sample.derived[k].value))
  }

  lemma SampleMeans(program: Ast.Program, coordinates: seq<Coordinate>, sample: Sample)
    requires GrammaticalProgram(program) && Compiled(program).Some?
    requires SampledWith(Compiled(program).value, Point(coordinates, Observed(sample)), sample)
    ensures MeansAt(program, coordinates, sample)
  {
    var q := Compiled(program).value;
    var point := Point(coordinates, Observed(sample));
    CompilationPreservesMeaning(program, point);
    SampleReadsMeaning(q, point, sample, Interpret(program.statements, |program.statements|, point));
  }

  lemma SampleReadsMeaning(q: Ir.Program, point: Point, sample: Sample, m: Meaning)
    requires SampledWith(q, point, sample) && Computes(q, m, Fold(q.values, point).value)
    ensures MeansWith(m, sample)
  {
    var filled := Fold(q.values, point).value;
    forall k | 0 <= k < |m.assertions| ensures m.assertions[k] == Some(Truth(sample.assertions[k].passed)) {
      assert Judge(q.assertions[k], point.coordinates, filled) == Some(sample.assertions[k]);
    }
  }

  /** From script to results: a script the analyzer accepts, with no sweep after its calibration,
      compiles to a program that runs through its whole grid on capable devices, whatever they
      answer. Each sample records the devices' answers to the measurement calls at its point, and
      the correction, the derived values and the verdicts that reading the script there gives for
      those answers. */
  lemma ScriptRuns(program: Ast.Program, c: Capabilities, response: Response, start: seq<DeviceCall>)
    requires GrammaticalProgram(program) && Compiled(program).Some?
    requires SweepsPrecedeCalibration(program.statements) && Capable(Compiled(program).value, c)
    ensures var q := Compiled(program).value;
      && Plans(q).Some? && Size(Counts(Plans(q).value)) == q.totalPointCount
      && Characterize(q, c, response, start).Characterized?
      && Covers(q, Plans(q).value, response, start, Characterize(q, c, response, start).result)
    ensures var q := Compiled(program).value;
      var points, samples := GridPoints(Plans(q).value), Characterize(q, c, response, start).result.samples;
      |samples| == |points| && forall i :: 0 <= i < |points| ==>
        && MeansAt(program, points[i], samples[i])
        && Answers(q, points[i], response, CallsBefore(q, points, start, i), Observed(samples[i]))
  {
    var q := Compiled(program).value;
    CompiledIsPlannable(program);
    CharacterizationSucceeds(q, c, response, start);
    var points, samples := GridPoints(Plans(q).value), Characterize(q, c, response, start).result.samples;
    forall i | 0 <= i < |points|
      ensures MeansAt(program, points[i], samples[i])
      ensures Answers(q, points[i], response, CallsBefore(q, points, start, i), Observed(samples[i]))
    {
      assert SampledInTurn(q, points, response, start, i, samples[i]);
      SampleMeans(program, points[i], samples[i]);
    }
  }

  lemma CompiledIsPlannable(program: Ast.Program)
    requires GrammaticalProgram(program) && Compiled(program).Some? && SweepsPrecedeCalibration(program.statements)
    ensures var q := Compiled(program).value;
      && V.Valid(q) && Ordered(q) && q.calibration.name != ""
      && Plans(q).Some? && Size(Counts(Plans(q).value)) == q.totalPointCount
  {
    var q := Compiled(program).value;
    PipelineCloses(program);
    CompiledPlansMatch(program);
    PlanningSucceeds(q, |q.sweeps|);
  }

  lemma CompiledPlansMatch(program: Ast.Program)
    requires GrammaticalProgram(program) && Compiled(program).Some?
    ensures PlansMatch(Compiled(program).value) && Compiled(program).value.calibration.name != ""
  {
    var p, q := Analyze(program).value, Compiled(program).value;
    AnalyzerIsSound(program);
    LoweringIsFaithful(p);
    var symbols :| Implements(p, q, symbols);
    LoweredPlansMatch(p, q);
  }
}
