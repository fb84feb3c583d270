/** From a script to a validated program: what the three passes guarantee together. */
module Pipeline {
  import opened Domain
  import opened Ast
  import opened Points
  import opened Ir
  import opened Evaluator
  import opened Soundness
  import opened LoweringPass
  import opened LoweredPrograms
  import opened Analysis
  import opened AnalyzedPrograms
  import opened Meanings
  import V = Validator
  import S = Semantic

  /** The IR program of a script the analyzer accepts. */
  function Compiled(program: Ast.Program): Option<Ir.Program> {
    var p := Analyze(program);
    if p.None? then None else LowerProgram(p.value)
  }

  /** Pipeline closure: every script the analyzer accepts is lowered, and every stage of the
      validator accepts the result exactly when no sweep statement follows the calibration. With a
      later sweep the validator reports it: it neither accepts nor fails silently. */
  lemma PipelineCloses(program: Ast.Program)
    requires GrammaticalProgram(program) && Analyze(program).Some?
    ensures Compiled(program).Some?
    ensures var q := Compiled(program).value;
      && Ordered(q) && !V.SilentlyAccepted(q)
      && (V.Valid(q) <==> SweepsPrecedeCalibration(program.statements))
  {
    AnalyzerIsSound(program);
    LoweredProgramsValidate(Analyze(program).value);
  }

  /** The slots a script's derived values, assertions and correction were lowered to hold, after
      evaluation at a point, exactly what reading the script there gives. */
  predicate Computes(q: Ir.Program, m: Meaning, filled: seq<Value>) {
    && |q.namedValues| == |m.derived| && |q.assertions| == |m.assertions|
    && (forall k :: 0 <= k < |m.derived| ==>
          q.namedValues[k].value < |filled| && m.derived[k] == Some(filled[q.namedValues[k].value]))
    && (forall i :: 0 <= i < |m.assertions| ==>
          q.assertions[i].value < |filled| && m.assertions[i] == Some(filled[q.assertions[i].value]))
    && q.calibration.correction < |filled| && m.correction == Some(filled[q.calibration.correction])
  }

  /** Compilation preserves meaning from end to end: the fold of the IR refines the script. */
  lemma CompilationPreservesMeaning(program: Ast.Program, point: Point)
    requires GrammaticalProgram(program) && Compiled(program).Some? && PointFits(Compiled(program).value, point)
    ensures Fold(Compiled(program).value.values, point).Some?
    ensures Computes(Compiled(program).value, Interpret(program.statements, |program.statements|, point),
                     Fold(Compiled(program).value.values, point).value)
  {
    PipelineCloses(program);
    AnalyzerIsSound(program);
    LoweringPreservesProgramMeaning(Analyze(program).value, point);
    AnalysisPreservesMeaning(program, point);
  }

  /** Analyzes, lowers and validates. */
  method Compile(program: Ast.Program) returns (result: Option<Ir.Program>, reports: seq<V.ValidationError>)
    requires GrammaticalProgram(program)
    ensures result == Compiled(program) && (result.Some? <==> Analyze(program).Some?)
    ensures result.Some? ==> (reports == [] <==> SweepsPrecedeCalibration(program.statements))
    ensures result.Some? && reports == [] ==> V.Valid(result.value) && Ordered(result.value)
  {
    reports := [];
    var analyzer := new Analyzer(program);
    var analyzed := analyzer.Run();
    if analyzed.None? { return None, []; }
    PipelineCloses(program);
    var lowerer := new Lowerer(analyzed.value);
    result := lowerer.Run();
    reports := V.Validate(result.value);
  }

  /** Checks a script for the authoring assistant: a script is refused only with a diagnostic. */
  method CheckScript(program: Ast.Program) returns (ok: bool, diagnostics: nat)
    ensures ok <==> Compiled(program).Some?
    ensures ok <==> diagnostics == 0
  {
    var analyzer := new Analyzer(program);
    var analyzed := analyzer.Run();
    if analyzed.None? { return false, |analyzer.diagnostics|; }
    var lowerer := new Lowerer(analyzed.value);
    var lowered := lowerer.Run();
    ok, diagnostics := lowered.Some?, |lowerer.diagnostics|;
  }

  /** A temperature sweep between the calibration and the first measurement. */
  function LateSweep(): Ast.Program {
    var hertz := Literal(Parsed(1.0), "Hz");
    var kelvin := Literal(Parsed(1.0), "K");
    Ast.Program("late", [
      ReferenceStatement(Literal(Parsed(0.0), "dBm")),
      SweepStatement("frequency", hertz, hertz, hertz),
      CalibrationStatement("c", QuantityExpr(Literal(Parsed(0.0), "dB")), ["frequency"]),
      SweepStatement("temperature", kelvin, kelvin, Literal(Parsed(1.0), "deltaK")),
      MeasurementStatement("power", "power", true)])
  }

  /** The analyzer accepts it and lowering succeeds, but the validator rejects the result. */
  lemma LateSweepIsRejectedLate()
    ensures GrammaticalProgram(LateSweep()) && Compiled(LateSweep()).Some?
    ensures !V.Valid(Compiled(LateSweep()).value)
  {
    LateSweepIsAnalyzed();
    var statements := LateSweep().statements;
    assert statements[2].CalibrationStatement? && statements[3].SweepStatement?;
    PipelineCloses(LateSweep());
  }

  /** The state at the calibration of the late sweep. */
  lemma LateSweepBegins() returns (s: Analysis.State)
    ensures Analyzed(LateSweep().statements, 3) == Some(s)
    ensures s.seenReference && s.seenCalibration && !s.seenMeasurement && s.measurement.None?
    ensures s.seenDimensions == {"frequency"} && s.totalPointCount == 1 && "power" !in s.symbols
  {
    var statements := LateSweep().statements;
    var s1 := Step(Initial(), statements[0]);
    var s2 := Step(s1.value, statements[1]);
    var s3 := Step(s2.value, statements[2]);
    assert Analyzed(statements, 0) == Some(Initial());
    assert Analyzed(statements, 1) == s1;
    assert Analyzed(statements, 2) == s2;
    assert Analyzed(statements, 3) == s3;
    s := s3.value;
  }

  lemma LateSweepContinues() returns (s: Analysis.State)
    ensures Analyzed(LateSweep().statements, 4) == Some(s)
    ensures s.seenReference && s.seenCalibration && s.measurement.None?
    ensures "frequency" in s.seenDimensions && "power" !in s.symbols
  {
    var statements := LateSweep().statements;
    var before := LateSweepBegins();
    var s4 := Step(before, statements[3]);
    assert Analyzed(statements, 4) == s4;
    s := s4.value;
  }

  lemma LateSweepIsAnalyzed()
    ensures Analyze(LateSweep()).Some?
  {
    var statements := LateSweep().statements;
    var before := LateSweepContinues();
    assert Analyzed(statements, 5) == Step(before, statements[4]);
  }
}
