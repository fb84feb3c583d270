/** The compiled program holds what the statements of the script declare. */
module CompiledDeclarations {
  import opened Domain
  import opened Ast
  import opened Ir
  import opened SweepLattice
  import opened Declarations
  import opened AnalyzedPrograms
  import opened LoweringPass
  import opened LoweringCorrectness
  import opened Pipeline
  import A = Analysis
  import V = Validator
  import S = Semantic
  import Lowering

  /** The statements of a kind in the script. */
  function StatementsOf(program: Ast.Program, kind: StatementKind): (list: seq<Statement>)
    ensures forall statement <- list :: KindOf(statement) == kind
  {
    Listed(program.statements, |program.statements|, kind)
  }

  ghost predicate CompilesSweep(statement: Statement, sweep: TypedSweep) {
    && statement.SweepStatement? && sweep.name == statement.dimension
    && ReadsBounds(statement, sweep.dimension, sweep.start.amount, sweep.end.amount, sweep.step.amount)
    && sweep.start.kind == sweep.end.kind == (if statement.dimension == "frequency" then Frequency else Temperature)
    && sweep.step.kind == (if statement.dimension == "frequency" then Frequency else TemperatureDelta)
    && MakesLattice(sweep.start.amount, sweep.end.amount, sweep.step.amount, sweep.pointCount)
  }

  predicate CompilesMeasurement(statement: Statement, m: Ir.Measurement) {
    && statement.MeasurementStatement? && m.name == statement.name && m.legacy == statement.legacy
    && Names(statement.operation, m.operation, m.typ)
  }

  predicate CompilesReference(list: seq<Statement>, q: Ir.Program) {
    && |list| == 1 && list[0].ReferenceStatement? && q.reference < |q.values|
    && q.values[q.reference].definition.ReferencePower?
    && Reads(list[0].power, Power, q.values[q.reference].definition.dbm)
  }

  predicate CompilesCalibration(list: seq<Statement>, q: Ir.Program) {
    |list| == 1 && list[0].CalibrationStatement? && q.calibration.name == list[0].name
  }

  /** The chosen measurement is the first one whose word is power. */
  predicate FirstPowerStatement(list: seq<Statement>, j: nat)
    requires forall statement <- list :: statement.MeasurementStatement?
  {
    j < |list| && list[j].operation == "power" && forall k :: 0 <= k < j ==> list[k].operation != "power"
  }

  predicate ChoosesMeasurement(list: seq<Statement>, q: Ir.Program)
    requires forall statement <- list :: statement.MeasurementStatement?
  {
    exists j :: 0 <= j < |q.measurements| && FirstPowerStatement(list, j) && q.measurement == q.measurements[j].value
  }

  ghost predicate CompilesLists(program: Ast.Program, q: Ir.Program) {
    var sweeps, measurements, derived :=
      StatementsOf(program, ASweep), StatementsOf(program, AMeasurement), StatementsOf(program, ADerivation);
    && |sweeps| == |q.sweeps| && (forall i :: 0 <= i < |q.sweeps| ==> CompilesSweep(sweeps[i], q.sweeps[i]))
    && |measurements| == |q.measurements|
    && (forall j :: 0 <= j < |q.measurements| ==> CompilesMeasurement(measurements[j], q.measurements[j]))
    && |derived| == |q.namedValues|
    && (forall k :: 0 <= k < |q.namedValues| ==>
       derived[k].DeriveStatement? && q.namedValues[k].name == derived[k].name)
    && |StatementsOf(program, AnAssertion)| == |q.assertions|
  }

  /** Every list of the compiled program, and its reference, measurement and calibration, are those
      the statements declare. */
  lemma CompilationDeclares(program: Ast.Program)
    requires GrammaticalProgram(program) && Compiled(program).Some?
    ensures var q := Compiled(program).value;
      && q.name == program.name && CompilesLists(program, q) && CompilesReference(StatementsOf(program, AReference), q)
      && CompilesCalibration(StatementsOf(program, ACalibration), q)
      && ChoosesMeasurement(StatementsOf(program, AMeasurement), q)
  {
    var p, q, n := A.Analyze(program).value, Compiled(program).value, |program.statements|;
    AnalyzerRecords(program.statements, n);
    AnalyzerIsSound(program);
    LoweringIsFaithful(p);
    var symbols :| Implements(p, q, symbols);
    AnalyzedLists(program);
    SweepsCompile(program, p, q);
    MeasurementsCompile(program, p, q);
    NamesCompile(program, p, q, symbols);
    ReferenceCompiles(p, q, symbols);
    MeasurementChosen(program, p, q);
  }

  /** What the analyzer recorded is what the analyzed program lists. */
  lemma AnalyzedLists(program: Ast.Program)
    requires GrammaticalProgram(program) && A.Analyze(program).Some?
    ensures var p := A.Analyze(program).value;
      && p.name == program.name
      && SweepsDeclared(StatementsOf(program, ASweep), p.sweeps)
      && MeasurementsDeclared(StatementsOf(program, AMeasurement), p.measurements)
      && DerivedsDeclared(StatementsOf(program, ADerivation), p.derived)
      && |StatementsOf(program, AnAssertion)| == |p.assertions|
      && DeclaresReference(StatementsOf(program, AReference), Some(A.Reference(p.referenceSymbol, p.reference)))
      && DeclaresCalibration(StatementsOf(program, ACalibration), Some(p.calibration))
  {
    AnalyzerRecords(program.statements, |program.statements|);
    A.EverythingRecorded(program.statements, |program.statements|);
  }

  lemma SweepsCompile(program: Ast.Program, p: S.Program, q: Ir.Program)
    requires GrammaticalProgram(program) && SweepsDeclared(StatementsOf(program, ASweep), p.sweeps)
    requires LowersSweeps(p, q.sweeps, |p.sweeps|)
    ensures var list := StatementsOf(program, ASweep);
      |list| == |q.sweeps| && forall i :: 0 <= i < |q.sweeps| ==> CompilesSweep(list[i], q.sweeps[i])
  {
    var list := StatementsOf(program, ASweep);
    forall i | 0 <= i < |q.sweeps| ensures CompilesSweep(list[i], q.sweeps[i]) {
      ListedGrammatical(program.statements, |program.statements|, ASweep, i);
      assert q.sweeps[i] == LoweredSweep(p, i) && DeclaresSweep(list[i], p.sweeps[i]);
    }
  }

  lemma {:induction false} ListedGrammatical(statements: seq<Statement>, n: nat, kind: StatementKind, i: nat)
    requires n <= |statements| && i < |Listed(statements, n, kind)| && AllGrammatical(statements)
    ensures Grammatical(Listed(statements, n, kind)[i])
    decreases n
  {
    assert statements[n - 1] in statements;
    if i < |Listed(statements, n - 1, kind)| { ListedGrammatical(statements, n - 1, kind, i); }
  }

  lemma MeasurementsCompile(program: Ast.Program, p: S.Program, q: Ir.Program)
    requires MeasurementsDeclared(StatementsOf(program, AMeasurement), p.measurements)
    requires LowersMeasurements(p, q.measurements, |p.measurements|)
    ensures var list := StatementsOf(program, AMeasurement);
      |list| == |q.measurements| && forall j :: 0 <= j < |q.measurements| ==>
        CompilesMeasurement(list[j], q.measurements[j])
  {
    var list := StatementsOf(program, AMeasurement);
    forall j | 0 <= j < |q.measurements| ensures CompilesMeasurement(list[j], q.measurements[j]) {
      assert q.measurements[j] == LoweredMeasurement(p, j) && DeclaresMeasurement(list[j], p.measurements[j]);
    }
  }

  lemma NamesCompile(program: Ast.Program, p: S.Program, q: Ir.Program, symbols: map<S.SymbolId, Lowering.Binding>)
    requires DerivedsDeclared(StatementsOf(program, ADerivation), p.derived)
    requires NamesAll(p, symbols, q.namedValues, |p.derived|)
    ensures var list := StatementsOf(program, ADerivation);
      && |list| == |q.namedValues|
      && forall k :: 0 <= k < |q.namedValues| ==> list[k].DeriveStatement? && q.namedValues[k].name == list[k].name
  {
    var list := StatementsOf(program, ADerivation);
    forall k | 0 <= k < |q.namedValues| ensures list[k].DeriveStatement? && q.namedValues[k].name == list[k].name {
      assert NamesDerived(p, k, symbols, q.namedValues[k]) && DeclaresDerived(list[k], p.derived[k]);
    }
  }

  lemma ReferenceCompiles(p: S.Program, q: Ir.Program, symbols: map<S.SymbolId, Lowering.Binding>)
    requires Implements(p, q, symbols)
    ensures q.reference < |q.values| && q.values[q.reference].definition == ReferencePower(p.reference)
  {
  }

  lemma MeasurementChosen(program: Ast.Program, p: S.Program, q: Ir.Program)
    requires S.WellTypedMeasurements(p) && MeasurementsDeclared(StatementsOf(program, AMeasurement), p.measurements)
    requires LowersMeasurements(p, q.measurements, |p.measurements|)
    requires PicksFirstPower(p, q.measurement, |p.measurements|)
    ensures ChoosesMeasurement(StatementsOf(program, AMeasurement), q)
  {
    var list := StatementsOf(program, AMeasurement);
    var j :| 0 <= j < |p.measurements| && S.FirstPower(p, j);
    forall k | 0 <= k <= j ensures list[k].operation == "power" <==> p.measurements[k].operation == MeasurePower {
      assert DeclaresMeasurement(list[k], p.measurements[k]);
    }
    assert q.measurements[j] == LoweredMeasurement(p, j);
  }
}
