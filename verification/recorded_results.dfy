/** What the results of a script record, read off its statements. */
module RecordedResults {
  import opened Domain
  import opened Text
  import opened Ast
  import opened Points
  import opened Ir
  import opened Evaluator
  import opened Soundness
  import opened SweepLattice
  import opened Grid
  import opened Devices
  import opened Declarations
  import opened CompiledDeclarations
  import opened Pipeline
  import opened Execution
  import opened Characterization
  import opened Sampling
  import opened ScriptRuns
  import Matching
  import V = Validator

  // ----- The grid -----

  /** The k-th point of a lattice, the end standing in for what is within tolerance of it. */
  function LatticePoint(start: real, end: real, step: real, k: nat): real {
    var raw := start + k as real * step;
    if end - Tolerance(start, end, step) <= raw <= end + Tolerance(start, end, step) then end else raw
  }

  /** The coordinate is the k-th point of the sweep. */
  predicate PointOfSweep(sweep: TypedSweep, k: nat, c: Coordinate) {
    && c.name == sweep.name && c.axis == sweep.dimension && c.value.kind == sweep.start.kind
    && c.value.amount == LatticePoint(sweep.start.amount, sweep.end.amount, sweep.step.amount, k)
  }

  function CountsOf(q: Ir.Program): (counts: seq<nat>)
    ensures |counts| == |q.sweeps| && forall i :: 0 <= i < |q.sweeps| ==> counts[i] == q.sweeps[i].pointCount
  {
    seq(|q.sweeps|, i requires 0 <= i < |q.sweeps| => q.sweeps[i].pointCount)
  }

  /** The points are those of the sweeps' lattices, for every tuple of indexes in turn. */
  ghost predicate CoversLattice(q: Ir.Program, points: seq<seq<Coordinate>>) {
    && Positive(CountsOf(q)) && |points| == Size(CountsOf(q))
    && forall flat :: 0 <= flat < |points| ==>
         && |points[flat]| == |q.sweeps|
         && forall i :: 0 <= i < |q.sweeps| ==>
              PointOfSweep(q.sweeps[i], Decode(CountsOf(q), flat)[i], points[flat][i])
  }

  lemma SnappedIsValue(plan: SweepPlan, k: nat)
    requires plan.tolerance == Tolerance(plan.start, plan.end, plan.step)
    ensures ValueAt(plan, k) == LatticePoint(plan.start, plan.end, plan.step, k)
  {
    assert Raw(plan.start, plan.step, k) == plan.start + k as real * plan.step;
  }

  lemma PlanIsSweep(q: Ir.Program, i: nat)
    requires Matching.LegacyAgrees(q) && i < |q.sweeps| && PlanOf(q, i).Some?
    ensures var plan := PlanOf(q, i).value;
      && plan.start == q.sweeps[i].start.amount && plan.end == q.sweeps[i].end.amount
      && plan.step == q.sweeps[i].step.amount && plan.tolerance == Tolerance(plan.start, plan.end, plan.step)
  {
  }

  lemma CoordinateIsPoint(q: Ir.Program, plans: seq<AxisPlan>, i: nat, k: nat)
    requires Matching.LegacyAgrees(q) && PlanAxes(q, |q.sweeps|) == Some(plans) && i < |q.sweeps|
    requires q.sweeps[i].start.kind == AxisType(q.sweeps[i].dimension)
    ensures PointOfSweep(q.sweeps[i], k, CoordinateAt(plans[i], k))
  {
    PlanIsSweep(q, i);
    SnappedIsValue(plans[i].plan, k);
  }

  lemma PlannedCounts(q: Ir.Program, plans: seq<AxisPlan>)
    requires PlanAxes(q, |q.sweeps|) == Some(plans) && PlansMatch(q)
    ensures Counts(plans) == CountsOf(q)
  {
  }

  lemma GridCoversLattice(q: Ir.Program)
    requires Matching.LegacyAgrees(q) && PlansMatch(q) && Plans(q).Some?
    requires forall i :: 0 <= i < |q.sweeps| ==> q.sweeps[i].start.kind == AxisType(q.sweeps[i].dimension)
    ensures CoversLattice(q, GridPoints(Plans(q).value))
  {
    var plans := Plans(q).value;
    var points := GridPoints(plans);
    PlannedCounts(q, plans);
    forall flat, i | 0 <= flat < |points| && 0 <= i < |q.sweeps|
      ensures |points[flat]| == |q.sweeps|
      ensures PointOfSweep(q.sweeps[i], Decode(CountsOf(q), flat)[i], points[flat][i])
    {
      CoordinateIsPoint(q, plans, i, Decode(CountsOf(q), flat)[i]);
    }
    forall flat | 0 <= flat < |points| ensures |points[flat]| == |q.sweeps| {
      assert points[flat] == PointOf(plans, flat);
    }
  }

  // ----- One sample -----

  /** The frequency is that of the one frequency coordinate. */
  predicate FrequencyIs(coordinates: seq<Coordinate>, frequency: real) {
    exists i :: 0 <= i < |coordinates| && coordinates[i].axis == FrequencyAxis
      && coordinates[i].value.amount == frequency
      && forall k :: 0 <= k < |coordinates| && coordinates[k].axis == FrequencyAxis ==> k == i
  }

  /** Errors and corrected power are computed from reference, reading and correction. */
  predicate Accounts(sample: Sample) {
    && sample.error == sample.measured - sample.reference
    && sample.corrected == sample.measured + sample.correction
    && sample.residual == sample.error + sample.correction
  }

  predicate RecordsReference(list: seq<Statement>, sample: Sample) {
    |list| == 1 && list[0].ReferenceStatement? && Reads(list[0].power, Power, sample.reference)
  }

  /** Each measurement statement has its observation, under its name and operation. */
  predicate RecordsMeasurements(list: seq<Statement>, sample: Sample) {
    && |list| == |sample.observations|
    && forall j :: 0 <= j < |list| ==>
         && list[j].MeasurementStatement? && sample.observations[j].name == list[j].name
         && Names(list[j].operation, sample.observations[j].operation, sample.observations[j].value.kind)
  }

  /** The measured power is the reading of the first statement that measures power. */
  predicate RecordsPower(list: seq<Statement>, sample: Sample)
    requires forall statement <- list :: statement.MeasurementStatement?
  {
    exists j :: 0 <= j < |sample.observations| && FirstPowerStatement(list, j)
      && sample.measured == sample.observations[j].value.amount
  }

  predicate RecordsDerived(list: seq<Statement>, sample: Sample) {
    && |list| == |sample.derived|
    && forall k :: 0 <= k < |list| ==> list[k].DeriveStatement? && sample.derived[k].name == list[k].name
  }

  predicate RecordsSample(program: Ast.Program, coordinates: seq<Coordinate>, sample: Sample) {
    && sample.coordinates == coordinates && FrequencyIs(coordinates, sample.frequency) && Accounts(sample)
    && RecordsReference(StatementsOf(program, AReference), sample)
    && RecordsMeasurements(StatementsOf(program, AMeasurement), sample)
    && RecordsPower(StatementsOf(program, AMeasurement), sample)
    && RecordsDerived(StatementsOf(program, ADerivation), sample)
    && |StatementsOf(program, AnAssertion)| == |sample.assertions|
    && forall i :: 0 <= i < |sample.assertions| ==> OutcomeNamed(sample.assertions[i], i, coordinates)
  }

  /** The outcome of assertion statement i is numbered from one and placed at its point. */
  predicate OutcomeNamed(outcome: AssertionOutcome, i: nat, coordinates: seq<Coordinate>) {
    outcome.id == "assertion-" + Decimal(i + 1) && outcome.coordinates == coordinates
  }

  lemma {:induction false} FrequencyFound(coordinates: seq<Coordinate>)
    requires CoordinateOf(coordinates, FrequencyAxis).Some?
    requires forall i, k :: 0 <= i < k < |coordinates| ==> coordinates[i].axis != coordinates[k].axis
    ensures CoordinateOf(coordinates, FrequencyAxis).value.Quantity?
    ensures FrequencyIs(coordinates, CoordinateOf(coordinates, FrequencyAxis).value.amount)
  {
    if coordinates[0].axis == FrequencyAxis {
      assert coordinates[0].value.amount == CoordinateOf(coordinates, FrequencyAxis).value.amount;
    } else {
      var rest := coordinates[1..];
      assert forall i :: 0 <= i < |rest| ==> rest[i] == coordinates[i + 1];
      FrequencyFound(rest);
      var i :| 0 <= i < |rest| && rest[i].axis == FrequencyAxis
        && rest[i].value.amount == CoordinateOf(rest, FrequencyAxis).value.amount
        && forall k :: 0 <= k < |rest| && rest[k].axis == FrequencyAxis ==> k == i;
      assert coordinates[i + 1].axis == FrequencyAxis;
      forall k | 0 <= k < |coordinates| && coordinates[k].axis == FrequencyAxis ensures k == i + 1 {
        assert rest[k - 1] == coordinates[k];
      }
    }
  }

  /** The scalar fields of a sample, in terms of the slots. */
  lemma SampleFields(q: Ir.Program, coordinates: seq<Coordinate>, filled: seq<Value>, sample: Sample)
    requires ReadSample(q, coordinates, filled) == Some(sample)
    ensures CoordinateOf(coordinates, FrequencyAxis).Some? && CoordinateOf(coordinates, FrequencyAxis).value.Quantity?
    ensures sample.frequency == CoordinateOf(coordinates, FrequencyAxis).value.amount
    ensures Amount(filled, q.reference, Power) == Some(sample.reference)
    ensures Amount(filled, q.measurement, Power) == Some(sample.measured)
    ensures sample.coordinates == coordinates && Accounts(sample)
  {
  }

  lemma ReferenceRecorded(list: seq<Statement>, q: Ir.Program, point: Point, sample: Sample)
    requires V.Valid(q) && CompilesReference(list, q) && SampledWith(q, point, sample)
    ensures RecordsReference(list, sample)
  {
    SampleFields(q, point.coordinates, Fold(q.values, point).value, sample);
    FoldSlot(q.values, q.reference, point);
  }

  lemma MeasurementsRecorded(list: seq<Statement>, q: Ir.Program, point: Point, sample: Sample)
    requires SampledWith(q, point, sample) && |list| == |q.measurements|
    requires forall j :: 0 <= j < |q.measurements| ==> CompilesMeasurement(list[j], q.measurements[j])
    ensures RecordsMeasurements(list, sample)
  {
    var filled := Fold(q.values, point).value;
    forall j | 0 <= j < |list|
      ensures list[j].MeasurementStatement? && sample.observations[j].name == list[j].name
      ensures Names(list[j].operation, sample.observations[j].operation, sample.observations[j].value.kind)
    {
      assert CompilesMeasurement(list[j], q.measurements[j]);
      assert Observe(q.measurements[j], filled) == Some(sample.observations[j]);
    }
  }

  lemma PowerRecorded(list: seq<Statement>, q: Ir.Program, point: Point, sample: Sample)
    requires SampledWith(q, point, sample) && |list| == |q.measurements|
    requires forall j :: 0 <= j < |q.measurements| ==> CompilesMeasurement(list[j], q.measurements[j])
    requires (forall statement <- list :: statement.MeasurementStatement?) && ChoosesMeasurement(list, q)
    ensures RecordsPower(list, sample)
  {
    var filled := Fold(q.values, point).value;
    var j :| 0 <= j < |q.measurements| && FirstPowerStatement(list, j) && q.measurement == q.measurements[j].value;
    SampleFields(q, point.coordinates, filled, sample);
    assert CompilesMeasurement(list[j], q.measurements[j]);
    assert Observe(q.measurements[j], filled) == Some(sample.observations[j]);
  }

  lemma DerivedRecorded(list: seq<Statement>, q: Ir.Program, point: Point, sample: Sample)
    requires SampledWith(q, point, sample) && |list| == |q.namedValues|
    requires forall k :: 0 <= k < |q.namedValues| ==> list[k].DeriveStatement? && q.namedValues[k].name == list[k].name
    ensures RecordsDerived(list, sample)
  {
  }

  lemma OutcomesLocated(q: Ir.Program, point: Point, sample: Sample)
    requires V.ValidAssertions(q) && SampledWith(q, point, sample)
    ensures forall i :: 0 <= i < |sample.assertions| ==> OutcomeNamed(sample.assertions[i], i, point.coordinates)
  {
    var filled := Fold(q.values, point).value;
    forall i | 0 <= i < |sample.assertions| ensures OutcomeNamed(sample.assertions[i], i, point.coordinates) {
      assert V.ValidAssertion(q, i);
      assert Judge(q.assertions[i], point.coordinates, filled) == Some(sample.assertions[i]);
    }
  }

  /** A sample of a compiled script records what the statements declare. */
  lemma SampleRecorded(program: Ast.Program, coordinates: seq<Coordinate>, sample: Sample)
    requires GrammaticalProgram(program) && Compiled(program).Some? && V.Valid(Compiled(program).value)
    requires SampledWith(Compiled(program).value, Point(coordinates, Observed(sample)), sample)
    requires forall i, k :: 0 <= i < k < |coordinates| ==> coordinates[i].axis != coordinates[k].axis
    ensures RecordsSample(program, coordinates, sample)
  {
    var q, point := Compiled(program).value, Point(coordinates, Observed(sample));
    CompilationDeclares(program);
    SampleFields(q, coordinates, Fold(q.values, point).value, sample);
    FrequencyFound(coordinates);
    ReferenceRecorded(StatementsOf(program, AReference), q, point, sample);
    MeasurementsRecorded(StatementsOf(program, AMeasurement), q, point, sample);
    PowerRecorded(StatementsOf(program, AMeasurement), q, point, sample);
    DerivedRecorded(StatementsOf(program, ADerivation), q, point, sample);
    OutcomesLocated(q, point, sample);
  }

  // ----- The whole result -----

  /** The calibration lists, for each sample, its point, its frequency and its correction. */
  predicate RecordsCalibration(program: Ast.Program, points: seq<seq<Coordinate>>, r: Result)
  {
    var list, sweeps := StatementsOf(program, ACalibration), StatementsOf(program, ASweep);
    && |list| == 1 && list[0].CalibrationStatement? && r.calibration.name == list[0].name
    && |r.calibration.descriptors| == |sweeps|
    && (forall i :: 0 <= i < |sweeps| ==>
          && sweeps[i].SweepStatement? && r.calibration.descriptors[i].0 == sweeps[i].dimension
          && r.calibration.descriptors[i].1 == if sweeps[i].dimension == "frequency"
             then FrequencyAxis else TemperatureAxis)
    && |points| == |r.samples| == |r.calibration.entries| == |r.calibration.frequencies| == |r.calibration.corrections|
    && forall i :: 0 <= i < |points| ==>
         && r.calibration.entries[i] == Entry(points[i], r.samples[i].correction)
         && r.calibration.frequencies[i] == r.samples[i].frequency
         && r.calibration.corrections[i] == r.samples[i].correction
  }

  lemma AxesApart(q: Ir.Program, points: seq<seq<Coordinate>>, flat: nat)
    requires V.Valid(q) && CoversLattice(q, points) && flat < |points|
    ensures forall i, k :: 0 <= i < k < |points[flat]| ==> points[flat][i].axis != points[flat][k].axis
  {
    forall i, k | 0 <= i < k < |points[flat]| ensures points[flat][i].axis != points[flat][k].axis {
      assert PointOfSweep(q.sweeps[i], Decode(CountsOf(q), flat)[i], points[flat][i]);
      assert PointOfSweep(q.sweeps[k], Decode(CountsOf(q), flat)[k], points[flat][k]);
      V.UniqueAxis(q.sweeps, FrequencyAxis);
      V.UniqueAxis(q.sweeps, TemperatureAxis);
    }
  }

  lemma CompiledCoversLattice(program: Ast.Program)
    requires GrammaticalProgram(program) && Compiled(program).Some? && SweepsPrecedeCalibration(program.statements)
    ensures Plans(Compiled(program).value).Some?
    ensures CoversLattice(Compiled(program).value, GridPoints(Plans(Compiled(program).value).value))
  {
    var q := Compiled(program).value;
    CompiledIsPlannable(program);
    CompiledPlansMatch(program);
    Matching.CompiledLegacyAgrees(program);
    CompilationDeclares(program);
    forall i | 0 <= i < |q.sweeps| ensures q.sweeps[i].start.kind == AxisType(q.sweeps[i].dimension) {
      assert CompilesSweep(StatementsOf(program, ASweep)[i], q.sweeps[i]);
    }
    GridCoversLattice(q);
  }

  lemma CalibrationRecorded(program: Ast.Program, q: Ir.Program, points: seq<seq<Coordinate>>, r: Result)
    requires CompilesLists(program, q) && CompilesCalibration(StatementsOf(program, ACalibration), q)
    requires Shaped(q, r.samples) && r == Characterization.Assemble(q, |r.samples|, r.samples)
    requires |points| == |r.samples| && forall i :: 0 <= i < |points| ==> r.samples[i].coordinates == points[i]
    ensures r.name == q.name && RecordsCalibration(program, points, r)
  {
    var sweeps := StatementsOf(program, ASweep);
    forall i | 0 <= i < |sweeps|
      ensures sweeps[i].SweepStatement? && r.calibration.descriptors[i].0 == sweeps[i].dimension
      ensures r.calibration.descriptors[i].1 ==
        if sweeps[i].dimension == "frequency" then FrequencyAxis else TemperatureAxis
    {
      assert CompilesSweep(sweeps[i], q.sweeps[i]);
    }
  }

  /** From statements to results: the compiled sweeps have the bounds of the sweep statements; the
      grid consists of the points of their lattices, for every tuple of indexes in lexicographic
      order; each sample records its point and what the other statements declare; and the calibration
      lists them all. */
  lemma ResultsRecordStatements(program: Ast.Program, c: Capabilities, response: Response, start: seq<DeviceCall>)
    requires GrammaticalProgram(program) && Compiled(program).Some?
    requires SweepsPrecedeCalibration(program.statements) && Capable(Compiled(program).value, c)
    ensures CompilesLists(program, Compiled(program).value) && Plans(Compiled(program).value).Some?
    ensures Characterize(Compiled(program).value, c, response, start).Characterized?
    ensures var q := Compiled(program).value;
      var points, r := GridPoints(Plans(q).value), Characterize(q, c, response, start).result;
      && CoversLattice(q, points) && r.name == program.name && |r.samples| == |points|
      && (forall i :: 0 <= i < |points| ==> RecordsSample(program, points[i], r.samples[i]))
      && RecordsCalibration(program, points, r)
  {
    var q := Compiled(program).value;
    CompilationDeclares(program);
    CompiledCoversLattice(program);
    CompiledIsPlannable(program);
    CharacterizationSucceeds(q, c, response, start);
    var points, r := GridPoints(Plans(q).value), Characterize(q, c, response, start).result;
    forall i | 0 <= i < |points| ensures RecordsSample(program, points[i], r.samples[i]) {
      assert SampledInTurn(q, points, response, start, i, r.samples[i]);
      AxesApart(q, points, i);
      SampleRecorded(program, points[i], r.samples[i]);
    }
    CalibrationRecorded(program, q, points, r);
  }

  // ----- When a run is refused -----

  /** The devices can do what the statements call for. */
  predicate Equipped(statements: seq<Statement>, c: Capabilities) {
    forall statement <- statements :: Provides(c, statement)
  }

  predicate Provides(c: Capabilities, statement: Statement) {
    && (statement.MeasurementStatement? && statement.operation == "power" ==> c.power)
    && (statement.MeasurementStatement? && statement.operation == "evm" ==> c.evm)
    && (statement.MeasurementStatement? && statement.operation == "frequency_error" ==> c.frequencyError)
    && (statement.SweepStatement? && statement.dimension == "temperature" ==> c.temperature)
  }

  lemma {:induction false} ListedAre(statements: seq<Statement>, n: nat, kind: StatementKind)
    requires n <= |statements|
    ensures forall x :: x in Listed(statements, n, kind) <==> x in statements[..n] && KindOf(x) == kind
  {
    if n > 0 {
      ListedAre(statements, n - 1, kind);
      assert statements[..n] == statements[..n - 1] + [statements[n - 1]];
    }
  }

  lemma StatementsAre(program: Ast.Program, kind: StatementKind)
    ensures forall x :: x in StatementsOf(program, kind) <==> x in program.statements && KindOf(x) == kind
  {
    ListedAre(program.statements, |program.statements|, kind);
    assert program.statements[..|program.statements|] == program.statements;
  }

  lemma MeasurementProvided(statement: Statement, m: Ir.Measurement, c: Capabilities)
    requires CompilesMeasurement(statement, m)
    ensures Supports(c, m.operation) <==> Provides(c, statement)
  {
  }

  lemma SweepProvided(statement: Statement, sweep: TypedSweep, c: Capabilities)
    requires CompilesSweep(statement, sweep) && Grammatical(statement)
    ensures (sweep.dimension == TemperatureAxis ==> c.temperature) <==> Provides(c, statement)
  {
  }

  lemma CapabilitiesDecide(program: Ast.Program, q: Ir.Program, c: Capabilities)
    requires GrammaticalProgram(program) && CompilesLists(program, q)
    ensures Capable(q, c) <==> Equipped(program.statements, c)
  {
    var sweeps, measurements := StatementsOf(program, ASweep), StatementsOf(program, AMeasurement);
    StatementsAre(program, ASweep);
    StatementsAre(program, AMeasurement);
    forall i | 0 <= i < |q.sweeps|
      ensures (q.sweeps[i].dimension == TemperatureAxis ==> c.temperature) <==> Provides(c, sweeps[i])
    {
      ListedGrammatical(program.statements, |program.statements|, ASweep, i);
      SweepProvided(sweeps[i], q.sweeps[i], c);
    }
    forall j | 0 <= j < |q.measurements|
      ensures Supports(c, q.measurements[j].operation) <==> Provides(c, measurements[j])
    {
      MeasurementProvided(measurements[j], q.measurements[j], c);
    }
    if Equipped(program.statements, c) {
      forall m <- q.measurements ensures Supports(c, m.operation) {
        var j :| 0 <= j < |q.measurements| && q.measurements[j] == m;
        assert measurements[j] in program.statements;
      }
      forall sweep <- q.sweeps ensures sweep.dimension == TemperatureAxis ==> c.temperature {
        var i :| 0 <= i < |q.sweeps| && q.sweeps[i] == sweep;
        assert sweeps[i] in program.statements;
      }
    }
    if Capable(q, c) {
      forall statement <- program.statements ensures Provides(c, statement) {
        if KindOf(statement) == ASweep {
          var i :| 0 <= i < |sweeps| && sweeps[i] == statement;
          assert q.sweeps[i] in q.sweeps;
        } else if KindOf(statement) == AMeasurement {
          var j :| 0 <= j < |measurements| && measurements[j] == statement;
          assert q.measurements[j] in q.measurements;
        }
      }
    }
  }

  /** A compiled script is refused exactly when a sweep follows its calibration or a device lacks
      what a statement calls for; otherwise it is characterized to the end. */
  lemma RefusalIsExact(program: Ast.Program, c: Capabilities, response: Response, start: seq<DeviceCall>)
    requires GrammaticalProgram(program) && Compiled(program).Some?
    ensures Characterize(Compiled(program).value, c, response, start).Refused? <==>
      !SweepsPrecedeCalibration(program.statements) || !Equipped(program.statements, c)
    ensures !Characterize(Compiled(program).value, c, response, start).Thrown?
  {
    var q := Compiled(program).value;
    CompilationDeclares(program);
    CapabilitiesDecide(program, q, c);
    PipelineCloses(program);
    if SweepsPrecedeCalibration(program.statements) {
      CompiledIsPlannable(program);
      if Capable(q, c) { CharacterizationSucceeds(q, c, response, start); }
    }
  }
}
