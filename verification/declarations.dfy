/** What a script declares, read off its statements, and what the analyzer records of it. */
module Declarations {
  import opened Domain
  import opened Ast
  import opened SweepLattice
  import opened Analysis
  import S = Semantic

  // ----- The statements of a kind, in order -----

  datatype StatementKind = AReference | ASweep | AMeasurement | ADerivation | AnAssertion | ACalibration

  function KindOf(statement: Statement): StatementKind {
    match statement
    case ReferenceStatement(_) => AReference
    case SweepStatement(_, _, _, _) => ASweep
    case MeasurementStatement(_, _, _) => AMeasurement
    case DeriveStatement(_, _) => ADerivation
    case AssertionStatement(_) => AnAssertion
    case CalibrationStatement(_, _, _) => ACalibration
  }

  /** Those of the first n statements that are of the kind. */
  function Listed(statements: seq<Statement>, n: nat, kind: StatementKind): (list: seq<Statement>)
    requires n <= |statements|
    ensures forall statement <- list :: KindOf(statement) == kind
  {
    if n == 0 then []
    else if KindOf(statements[n - 1]) == kind then Listed(statements, n - 1, kind) + [statements[n - 1]]
    else Listed(statements, n - 1, kind)
  }

  // ----- What a statement declares -----

  /** The literal stands for an amount of the kind, in the kind's canonical unit. */
  predicate Reads(literal: Literal, kind: Dimension, amount: real) {
    Convert(literal) == Converted(Scalar(kind, amount))
  }

  /** The bounds make a lattice of so many points, which is within the limit. */
  ghost predicate MakesLattice(start: real, end: real, step: real, count: nat) {
    && step > 0.0 && start <= end && count <= MAXIMUM_POINTS
    && forall k: nat :: k < count <==> InLattice(start, end, step, k)
  }

  predicate ReadsBounds(statement: Statement, axis: Axis, start: real, end: real, step: real)
    requires statement.SweepStatement?
  {
    if statement.dimension == "frequency" then
      && axis == FrequencyAxis && Reads(statement.start, Frequency, start)
      && Reads(statement.end, Frequency, end) && Reads(statement.step, Frequency, step)
    else
      && axis == TemperatureAxis && Reads(statement.start, Temperature, start)
      && Reads(statement.end, Temperature, end) && Reads(statement.step, TemperatureDelta, step)
  }

  ghost predicate DeclaresSweep(statement: Statement, sweep: S.Sweep) {
    && statement.SweepStatement?
    && ReadsBounds(statement, sweep.axis, sweep.start, sweep.end, sweep.step)
    && MakesLattice(sweep.start, sweep.end, sweep.step, sweep.pointCount)
  }

  /** The words for the measurements, and the types of what they return. */
  predicate Names(word: string, op: MeasurementOperation, typ: ValueType) {
    || (word == "power" && op == MeasurePower && typ == Power)
    || (word == "evm" && op == MeasureEvm && typ == Ratio)
    || (word == "frequency_error" && op == MeasureFrequencyError && typ == FrequencyDelta)
  }

  predicate DeclaresMeasurement(statement: Statement, m: S.Measurement) {
    && statement.MeasurementStatement? && m.name == statement.name && m.legacy == statement.legacy
    && Names(statement.operation, m.operation, m.typ)
  }

  predicate DeclaresDerived(statement: Statement, d: S.Derived) {
    statement.DeriveStatement? && d.name == statement.name
  }

  predicate DeclaresReference(statements: seq<Statement>, reference: Option<Reference>) {
    if reference.None? then statements == []
    else
      && |statements| == 1 && statements[0].ReferenceStatement?
      && Reads(statements[0].power, Power, reference.value.dbm)
  }

  predicate DeclaresCalibration(statements: seq<Statement>, calibration: Option<S.Calibration>) {
    if calibration.None? then statements == []
    else
      && |statements| == 1 && statements[0].CalibrationStatement? && calibration.value.name == statements[0].name
      && |calibration.value.indexes| == |statements[0].dimensions|
  }

  // ----- What the analyzer has recorded -----

  ghost predicate SweepsDeclared(list: seq<Statement>, sweeps: seq<S.Sweep>) {
    |list| == |sweeps| && forall i :: 0 <= i < |sweeps| ==> DeclaresSweep(list[i], sweeps[i])
  }

  predicate MeasurementsDeclared(list: seq<Statement>, measurements: seq<S.Measurement>) {
    |list| == |measurements| && forall j :: 0 <= j < |measurements| ==> DeclaresMeasurement(list[j], measurements[j])
  }

  predicate DerivedsDeclared(list: seq<Statement>, derived: seq<S.Derived>) {
    |list| == |derived| && forall k :: 0 <= k < |derived| ==> DeclaresDerived(list[k], derived[k])
  }

  /** Every list holds what the statements of its kind declare, in their order. */
  ghost predicate Records(statements: seq<Statement>, n: nat, s: State)
    requires n <= |statements|
  {
    && DeclaresReference(Listed(statements, n, AReference), s.reference) && (s.reference.Some? <==> s.seenReference)
    && SweepsDeclared(Listed(statements, n, ASweep), s.sweeps)
    && MeasurementsDeclared(Listed(statements, n, AMeasurement), s.measurements)
    && DerivedsDeclared(Listed(statements, n, ADerivation), s.derived)
    && |Listed(statements, n, AnAssertion)| == |s.assertions|
    && DeclaresCalibration(Listed(statements, n, ACalibration), s.calibration)
    && (s.calibration.Some? <==> s.seenCalibration)
  }

  lemma SweepIsDeclared(s: State, statement: Statement)
    requires statement.SweepStatement? && Grammatical(statement) && Step(s, statement).Some?
    ensures var t := Step(s, statement).value;
      && |t.sweeps| == |s.sweeps| + 1 && t.sweeps[..|s.sweeps|] == s.sweeps
      && DeclaresSweep(statement, t.sweeps[|s.sweeps|])
  {
    var sweep := PlannedAxis(DimensionAxis(statement.dimension), statement.start, statement.end, statement.step,
                             s.nextSymbol).value;
    assert Step(s, statement).value.sweeps == s.sweeps + [sweep];
    CountExact(sweep.start, sweep.end, sweep.step);
  }

  lemma MeasurementIsDeclared(s: State, statement: Statement)
    requires statement.MeasurementStatement? && Step(s, statement).Some?
    ensures var t := Step(s, statement).value;
      && |t.measurements| == |s.measurements| + 1 && t.measurements[..|s.measurements|] == s.measurements
      && DeclaresMeasurement(statement, t.measurements[|s.measurements|])
  {
  }

  lemma DerivedIsDeclared(s: State, statement: Statement)
    requires statement.DeriveStatement? && Step(s, statement).Some?
    ensures var t := Step(s, statement).value;
      && |t.derived| == |s.derived| + 1 && t.derived[..|s.derived|] == s.derived
      && DeclaresDerived(statement, t.derived[|s.derived|])
  {
  }

  /** A statement of another kind leaves a list alone. */
  lemma OthersUntouched(s: State, statement: Statement)
    requires Step(s, statement).Some?
    ensures var t := Step(s, statement).value;
      && (!statement.SweepStatement? ==> t.sweeps == s.sweeps)
      && (!statement.MeasurementStatement? ==> t.measurements == s.measurements)
      && (!statement.DeriveStatement? ==> t.derived == s.derived)
      && (!statement.AssertionStatement? ==> |t.assertions| == |s.assertions|)
      && (statement.AssertionStatement? ==> |t.assertions| == |s.assertions| + 1)
      && (!statement.ReferenceStatement? ==> t.reference == s.reference && t.seenReference == s.seenReference)
      && (!statement.CalibrationStatement? ==>
            t.calibration == s.calibration && t.seenCalibration == s.seenCalibration)
  {
  }

  lemma ReferenceIsDeclared(s: State, statement: Statement)
    requires statement.ReferenceStatement? && Step(s, statement).Some?
    ensures !s.seenReference && Step(s, statement).value.seenReference
    ensures DeclaresReference([statement], Step(s, statement).value.reference)
    ensures Step(s, statement).value.reference.Some?
  {
  }

  lemma CalibrationIsDeclared(s: State, statement: Statement)
    requires statement.CalibrationStatement? && Step(s, statement).Some?
    ensures !s.seenCalibration && Step(s, statement).value.seenCalibration
    ensures DeclaresCalibration([statement], Step(s, statement).value.calibration)
    ensures Step(s, statement).value.calibration.Some?
  {
  }

  lemma SweepsGrow(list: seq<Statement>, sweeps: seq<S.Sweep>, statement: Statement, more: seq<S.Sweep>)
    requires SweepsDeclared(list, sweeps) && |more| == |sweeps| + 1 && more[..|sweeps|] == sweeps
    requires DeclaresSweep(statement, more[|sweeps|])
    ensures SweepsDeclared(list + [statement], more)
  {
    assert forall i :: 0 <= i < |sweeps| ==> more[i] == sweeps[i];
  }

  lemma MeasurementsGrow(list: seq<Statement>, measurements: seq<S.Measurement>, statement: Statement,
                         more: seq<S.Measurement>)
    requires MeasurementsDeclared(list, measurements)
    requires |more| == |measurements| + 1 && more[..|measurements|] == measurements
    requires DeclaresMeasurement(statement, more[|measurements|])
    ensures MeasurementsDeclared(list + [statement], more)
  {
    assert forall j :: 0 <= j < |measurements| ==> more[j] == measurements[j];
  }

  lemma DerivedsGrow(list: seq<Statement>, derived: seq<S.Derived>, statement: Statement, more: seq<S.Derived>)
    requires DerivedsDeclared(list, derived) && |more| == |derived| + 1 && more[..|derived|] == derived
    requires DeclaresDerived(statement, more[|derived|])
    ensures DerivedsDeclared(list + [statement], more)
  {
    assert forall k :: 0 <= k < |derived| ==> more[k] == derived[k];
  }

  lemma SweepListGrows(statements: seq<Statement>, n: nat, s: State)
    requires 0 < n <= |statements| && SweepsDeclared(Listed(statements, n - 1, ASweep), s.sweeps)
    requires Grammatical(statements[n - 1]) && Step(s, statements[n - 1]).Some?
    ensures SweepsDeclared(Listed(statements, n, ASweep), Step(s, statements[n - 1]).value.sweeps)
  {
    if statements[n - 1].SweepStatement? {
      SweepIsDeclared(s, statements[n - 1]);
      SweepsGrow(Listed(statements, n - 1, ASweep), s.sweeps, statements[n - 1],
                 Step(s, statements[n - 1]).value.sweeps);
    } else {
      OthersUntouched(s, statements[n - 1]);
    }
  }

  lemma MeasurementListGrows(statements: seq<Statement>, n: nat, s: State)
    requires 0 < n <= |statements| && MeasurementsDeclared(Listed(statements, n - 1, AMeasurement), s.measurements)
    requires Step(s, statements[n - 1]).Some?
    ensures MeasurementsDeclared(Listed(statements, n, AMeasurement), Step(s, statements[n - 1]).value.measurements)
  {
    if statements[n - 1].MeasurementStatement? {
      MeasurementIsDeclared(s, statements[n - 1]);
      MeasurementsGrow(Listed(statements, n - 1, AMeasurement), s.measurements, statements[n - 1],
                       Step(s, statements[n - 1]).value.measurements);
    } else {
      OthersUntouched(s, statements[n - 1]);
    }
  }

  lemma DerivedListGrows(statements: seq<Statement>, n: nat, s: State)
    requires 0 < n <= |statements| && DerivedsDeclared(Listed(statements, n - 1, ADerivation), s.derived)
    requires Step(s, statements[n - 1]).Some?
    ensures DerivedsDeclared(Listed(statements, n, ADerivation), Step(s, statements[n - 1]).value.derived)
  {
    if statements[n - 1].DeriveStatement? {
      DerivedIsDeclared(s, statements[n - 1]);
      DerivedsGrow(Listed(statements, n - 1, ADerivation), s.derived, statements[n - 1],
                   Step(s, statements[n - 1]).value.derived);
    } else {
      OthersUntouched(s, statements[n - 1]);
    }
  }

  lemma StepRecords(statements: seq<Statement>, n: nat, s: State)
    requires 0 < n <= |statements| && Records(statements, n - 1, s) && Grammatical(statements[n - 1])
    requires Step(s, statements[n - 1]).Some?
    ensures Records(statements, n, Step(s, statements[n - 1]).value)
  {
    SweepListGrows(statements, n, s);
    MeasurementListGrows(statements, n, s);
    DerivedListGrows(statements, n, s);
    OthersUntouched(s, statements[n - 1]);
    if statements[n - 1].ReferenceStatement? { ReferenceIsDeclared(s, statements[n - 1]); }
    if statements[n - 1].CalibrationStatement? { CalibrationIsDeclared(s, statements[n - 1]); }
  }

  /** After every prefix the analyzer has recorded exactly what the prefix declares. */
  lemma {:induction false} AnalyzerRecords(statements: seq<Statement>, n: nat)
    requires n <= |statements| && Analyzed(statements, n).Some?
    requires forall statement <- statements :: Grammatical(statement)
    ensures Records(statements, n, Analyzed(statements, n).value)
  {
    if n > 0 {
      AnalyzerRecords(statements, n - 1);
      assert statements[n - 1] in statements;
      StepRecords(statements, n, Analyzed(statements, n - 1).value);
    }
  }
}
