/** What holds of every program the analyzer accepts. */
module AnalyzedPrograms {
  import opened Domain
  import opened Ast
  import opened Analysis
  import opened AnalysisCorrectness
  import S = Semantic

  // ----- The invariant after every prefix -----

  /** The types of the symbols declared by the first n statements. */
  function AnalyzedTypes(statements: seq<Statement>, n: nat): Types
    requires n <= |statements|
  {
    if n == 0 || Analyzed(statements, n - 1).None? then map[]
    else StepTypes(Analyzed(statements, n - 1).value, AnalyzedTypes(statements, n - 1), statements[n - 1])
  }

  predicate AllGrammatical(statements: seq<Statement>) {
    forall statement <- statements :: Grammatical(statement)
  }

  lemma {:induction false} InvariantHolds(statements: seq<Statement>, n: nat)
    requires n <= |statements| && Analyzed(statements, n).Some? && AllGrammatical(statements)
    ensures Invariant(Analyzed(statements, n).value, AnalyzedTypes(statements, n))
  {
    if n > 0 {
      InvariantHolds(statements, n - 1);
      assert statements[n - 1] in statements;
      StepKeeps(Analyzed(statements, n - 1).value, AnalyzedTypes(statements, n - 1), statements[n - 1]);
    }
  }

  // ----- The declared types, list by list -----

  function SweepTypes(sweeps: seq<S.Sweep>): Types {
    if |sweeps| == 0 then map[]
    else
      var last := sweeps[|sweeps| - 1];
      SweepTypes(sweeps[..|sweeps| - 1])[last.symbol := AxisType(last.axis)]
  }

  function MeasurementTypes(measurements: seq<S.Measurement>): Types {
    if |measurements| == 0 then map[]
    else
      var last := measurements[|measurements| - 1];
      MeasurementTypes(measurements[..|measurements| - 1])[last.symbol := last.typ]
  }

  function DerivedTypes(derived: seq<S.Derived>): Types {
    if |derived| == 0 then map[]
    else
      var last := derived[|derived| - 1];
      DerivedTypes(derived[..|derived| - 1])[last.symbol := last.typ]
  }

  function ReferenceTypes(reference: Option<Reference>): Types {
    if reference.Some? then map[reference.value.symbol := Power] else map[]
  }

  function Union(a: Types, b: Types, c: Types, d: Types): Types {
    a + b + c + d
  }

  lemma PairGrows(a: Types, b: Types, id: S.SymbolId, typ: ValueType)
    ensures a + b[id := typ] == (a + b)[id := typ]
    ensures id !in b ==> a[id := typ] + b == (a + b)[id := typ]
  {
  }

  /** A symbol new to all four parts may be added to any of them. */
  lemma UnionGrows(a: Types, b: Types, c: Types, d: Types, id: S.SymbolId, typ: ValueType)
    requires id !in b && id !in c && id !in d
    ensures Union(a[id := typ], b, c, d) == Union(a, b, c, d)[id := typ]
    ensures Union(a, b[id := typ], c, d) == Union(a, b, c, d)[id := typ]
    ensures Union(a, b, c[id := typ], d) == Union(a, b, c, d)[id := typ]
    ensures Union(a, b, c, d[id := typ]) == Union(a, b, c, d)[id := typ]
  {
    PairGrows(a, b, id, typ);
    PairGrows(a + b, c, id, typ);
    PairGrows(a + b + c, d, id, typ);
  }

  function ListedTypes(s: State): Types {
    Union(ReferenceTypes(s.reference), SweepTypes(s.sweeps), MeasurementTypes(s.measurements), DerivedTypes(s.derived))
  }

  lemma SweepTypesAppend(sweeps: seq<S.Sweep>, x: S.Sweep)
    ensures SweepTypes(sweeps + [x]) == SweepTypes(sweeps)[x.symbol := AxisType(x.axis)]
  {
    assert (sweeps + [x])[..|sweeps|] == sweeps;
  }

  lemma MeasurementTypesAppend(measurements: seq<S.Measurement>, x: S.Measurement)
    ensures MeasurementTypes(measurements + [x]) == MeasurementTypes(measurements)[x.symbol := x.typ]
  {
    assert (measurements + [x])[..|measurements|] == measurements;
  }

  lemma DerivedTypesAppend(derived: seq<S.Derived>, x: S.Derived)
    ensures DerivedTypes(derived + [x]) == DerivedTypes(derived)[x.symbol := x.typ]
  {
    assert (derived + [x])[..|derived|] == derived;
  }

  lemma ReferenceLists(s: State, reference: Reference)
    requires s.reference.None? && reference.symbol !in ListedTypes(s)
    ensures ListedTypes(s.(reference := Some(reference))) == ListedTypes(s)[reference.symbol := Power]
  {
    var b, c, d := SweepTypes(s.sweeps), MeasurementTypes(s.measurements), DerivedTypes(s.derived);
    assert reference.symbol !in b && reference.symbol !in c && reference.symbol !in d;
    UnionGrows(map[], b, c, d, reference.symbol, Power);
  }

  lemma SweepLists(s: State, sweep: S.Sweep)
    requires sweep.symbol !in ListedTypes(s)
    ensures ListedTypes(s.(sweeps := s.sweeps + [sweep])) == ListedTypes(s)[sweep.symbol := AxisType(sweep.axis)]
  {
    var a, b, c, d := ReferenceTypes(s.reference), SweepTypes(s.sweeps), MeasurementTypes(s.measurements),
      DerivedTypes(s.derived);
    assert sweep.symbol !in b && sweep.symbol !in c && sweep.symbol !in d;
    SweepTypesAppend(s.sweeps, sweep);
    UnionGrows(a, b, c, d, sweep.symbol, AxisType(sweep.axis));
  }

  lemma MeasurementLists(s: State, m: S.Measurement)
    requires m.symbol !in ListedTypes(s)
    ensures ListedTypes(s.(measurements := s.measurements + [m])) == ListedTypes(s)[m.symbol := m.typ]
  {
    var a, b, c, d := ReferenceTypes(s.reference), SweepTypes(s.sweeps), MeasurementTypes(s.measurements),
      DerivedTypes(s.derived);
    assert m.symbol !in b && m.symbol !in c && m.symbol !in d;
    MeasurementTypesAppend(s.measurements, m);
    UnionGrows(a, b, c, d, m.symbol, m.typ);
  }

  lemma DerivedLists(s: State, x: S.Derived)
    requires x.symbol !in ListedTypes(s)
    ensures ListedTypes(s.(derived := s.derived + [x])) == ListedTypes(s)[x.symbol := x.typ]
  {
    var a, b, c, d := ReferenceTypes(s.reference), SweepTypes(s.sweeps), MeasurementTypes(s.measurements),
      DerivedTypes(s.derived);
    assert x.symbol !in b && x.symbol !in c && x.symbol !in d;
    DerivedTypesAppend(s.derived, x);
    UnionGrows(a, b, c, d, x.symbol, x.typ);
  }

  lemma StepLists(s: State, statement: Statement)
    requires Step(s, statement).Some? && s.nextSymbol !in ListedTypes(s) && Recorded(s)
    ensures ListedTypes(Step(s, statement).value) == StepTypes(s, ListedTypes(s), statement)
  {
    match statement
    case ReferenceStatement(power) => ReferenceLists(s, Reference(s.nextSymbol, ReadAs(power, Power).value));
    case SweepStatement(dimension, start, end, step) =>
      SweepLists(s, PlannedAxis(DimensionAxis(dimension), start, end, step, s.nextSymbol).value);
    case MeasurementStatement(name, operation, legacy) =>
      var op := OperationNamed(operation).value;
      MeasurementLists(s, S.Measurement(s.nextSymbol, name, op, ResultType(op), legacy));
    case DeriveStatement(name, expression) =>
      var x := Elaborate(expression, s.symbols, s.reference).value;
      DerivedLists(s, S.Derived(s.nextSymbol, name, x, x.typ));
    case _ =>
  }

  lemma {:induction false} TypesListed(statements: seq<Statement>, n: nat)
    requires n <= |statements| && Analyzed(statements, n).Some? && AllGrammatical(statements)
    ensures AnalyzedTypes(statements, n) == ListedTypes(Analyzed(statements, n).value)
  {
    if n > 0 {
      TypesListed(statements, n - 1);
      InvariantHolds(statements, n - 1);
      StepLists(Analyzed(statements, n - 1).value, statements[n - 1]);
    }
  }

  // The program's own type table, list by list.

  lemma {:induction false} SweepTable(p: S.Program, i: nat)
    requires i <= |p.sweeps|
    ensures S.Types(p, i) == map[p.referenceSymbol := Power] + SweepTypes(p.sweeps[..i])
  {
    if i > 0 {
      SweepTable(p, i - 1);
      assert p.sweeps[..i] == p.sweeps[..i - 1] + [p.sweeps[i - 1]];
      SweepTypesAppend(p.sweeps[..i - 1], p.sweeps[i - 1]);
    }
  }

  lemma {:induction false} MeasurementTable(p: S.Program, j: nat)
    requires j <= |p.measurements|
    ensures S.Types(p, |p.sweeps| + j) ==
      map[p.referenceSymbol := Power] + SweepTypes(p.sweeps) + MeasurementTypes(p.measurements[..j])
  {
    var before := map[p.referenceSymbol := Power] + SweepTypes(p.sweeps);
    if j == 0 {
      SweepTable(p, |p.sweeps|);
      assert p.sweeps[..|p.sweeps|] == p.sweeps;
      assert before + map[] == before;
    } else {
      MeasurementTable(p, j - 1);
      var m := p.measurements[j - 1];
      assert p.measurements[..j] == p.measurements[..j - 1] + [m];
      MeasurementTypesAppend(p.measurements[..j - 1], m);
      PairGrows(before, MeasurementTypes(p.measurements[..j - 1]), m.symbol, m.typ);
    }
  }

  lemma {:induction false} DerivedTable(p: S.Program, k: nat)
    requires k <= |p.derived|
    ensures S.Types(p, |p.sweeps| + |p.measurements| + k) ==
      Union(map[p.referenceSymbol := Power], SweepTypes(p.sweeps), MeasurementTypes(p.measurements),
        DerivedTypes(p.derived[..k]))
  {
    var before := map[p.referenceSymbol := Power] + SweepTypes(p.sweeps) + MeasurementTypes(p.measurements);
    if k == 0 {
      MeasurementTable(p, |p.measurements|);
      assert p.measurements[..|p.measurements|] == p.measurements;
      assert before + map[] == before;
    } else {
      DerivedTable(p, k - 1);
      var d := p.derived[k - 1];
      assert p.derived[..k] == p.derived[..k - 1] + [d];
      DerivedTypesAppend(p.derived[..k - 1], d);
      PairGrows(before, DerivedTypes(p.derived[..k - 1]), d.symbol, d.typ);
    }
  }

  /** A table with one entry per declaration leaves no room for a repeated symbol. */
  lemma {:induction false} FreshByCount(p: S.Program, n: nat)
    requires n <= S.DeclarationCount(p)
    ensures |S.Types(p, n)| <= n + 1
    ensures |S.Types(p, n)| == n + 1 ==> forall i :: 0 <= i < n ==> S.Fresh(p, i)
  {
    if n > 0 {
      FreshByCount(p, n - 1);
      var before, symbol := S.Types(p, n - 1), S.DeclaredSymbol(p, n - 1);
      assert S.Types(p, n).Keys == before.Keys + {symbol};
      if symbol in before { assert before.Keys + {symbol} == before.Keys; }
    }
  }

  // ----- The whole program -----

  /** The calibration covers the sweeps declared so far unless one was declared after it. */
  predicate Covered(statements: seq<Statement>, n: nat, s: State)
    requires n <= |statements|
  {
    if s.calibration.None? then forall i :: 0 <= i < n ==> !statements[i].CalibrationStatement?
    else
      && s.calibration.value.name != ""
      && 0 < |s.calibration.value.indexes| <= |s.sweeps|
      && (|s.calibration.value.indexes| == |s.sweeps| <==>
          forall i, j :: 0 <= i < j < n && statements[i].CalibrationStatement? ==> !statements[j].SweepStatement?)
      && exists i :: 0 <= i < n && statements[i].CalibrationStatement?
  }

  lemma CoveredStep(statements: seq<Statement>, n: nat, s: State)
    requires n < |statements| && Covered(statements, n, s) && Step(s, statements[n]).Some? && Recorded(s)
    requires Grammatical(statements[n])
    ensures Covered(statements, n + 1, Step(s, statements[n]).value)
  {
    var t := Step(s, statements[n]).value;
    if s.calibration.Some? {
      var i :| 0 <= i < n && statements[i].CalibrationStatement?;
      if statements[n].SweepStatement? {
        assert t.calibration == s.calibration && |t.sweeps| == |s.sweeps| + 1;
      } else {
        assert t.calibration == s.calibration && t.sweeps == s.sweeps;
      }
    }
  }

  lemma {:induction false} CoverageHolds(statements: seq<Statement>, n: nat)
    requires n <= |statements| && Analyzed(statements, n).Some? && AllGrammatical(statements)
    ensures Covered(statements, n, Analyzed(statements, n).value)
  {
    if n > 0 {
      CoverageHolds(statements, n - 1);
      EverythingRecorded(statements, n - 1);
      assert statements[n - 1] in statements;
      CoveredStep(statements, n - 1, Analyzed(statements, n - 1).value);
    }
  }

  predicate SweepsAsPlanned(p: S.Program) {
    forall sweep <- p.sweeps :: PlannedSweep(sweep)
  }

  /** Every derived quantity mentions only symbols declared before its own. */
  predicate EarlierOnly(p: S.Program) {
    forall k :: 0 <= k < |p.derived| ==> forall m <- S.Mentions(p.derived[k].expression) :: m < p.derived[k].symbol
  }

  lemma {:induction false} LaterDerived(derived: seq<S.Derived>, n: nat, id: S.SymbolId)
    requires n <= |derived| && id in DerivedTypes(derived)
    requires forall k :: n <= k < |derived| ==> id < derived[k].symbol
    ensures id in DerivedTypes(derived[..n]) && DerivedTypes(derived[..n])[id] == DerivedTypes(derived)[id]
  {
    if n == |derived| {
      assert derived[..n] == derived;
    } else {
      assert derived[..|derived| - 1][..n] == derived[..n];
      LaterDerived(derived[..|derived| - 1], n, id);
    }
  }

  lemma {:induction false} PrefixDerived(derived: seq<S.Derived>, n: nat)
    requires n <= |derived|
    ensures DerivedTypes(derived[..n]).Keys <= DerivedTypes(derived).Keys
  {
    if n == |derived| {
      assert derived[..n] == derived;
    } else {
      assert derived[..|derived| - 1][..n] == derived[..n];
      PrefixDerived(derived[..|derived| - 1], n);
    }
  }

  /** A derived quantity is typed by the declarations listed before it. */
  lemma DerivedListed(p: S.Program, k: nat)
    requires k < |p.derived| && S.Typed(p.derived[k].expression, S.AllTypes(p)) && EarlierOnly(p)
    requires forall i, j :: 0 <= i < j < |p.derived| ==> p.derived[i].symbol < p.derived[j].symbol
    ensures S.Typed(p.derived[k].expression, S.Types(p, |p.sweeps| + |p.measurements| + k))
  {
    var e, n := p.derived[k].expression, |p.sweeps| + |p.measurements| + k;
    DerivedTable(p, k);
    DerivedTable(p, |p.derived|);
    assert p.derived[..|p.derived|] == p.derived;
    PrefixDerived(p.derived, k);
    forall m <- S.Mentions(e) ensures m in S.AllTypes(p) ==> Has(S.Types(p, n), m, S.AllTypes(p)[m]) {
      if m in DerivedTypes(p.derived) { LaterDerived(p.derived, k, m); }
    }
    S.TypingIsMonotonic(e, S.AllTypes(p), S.Types(p, n));
  }

  lemma AssembledTypes(name: string, s: State, types: Types)
    requires Complete(s) && Recorded(s) && types == ListedTypes(s)
    ensures S.AllTypes(Assemble(name, s)) == types
  {
    var p := Assemble(name, s);
    DerivedTable(p, |p.derived|);
    assert p.derived[..|p.derived|] == p.derived;
  }

  lemma AssembledIsDeclared(name: string, s: State, types: Types)
    requires Complete(s) && Invariant(s, types) && S.AllTypes(Assemble(name, s)) == types
    ensures S.WellDeclared(Assemble(name, s)) && EarlierOnly(Assemble(name, s))
  {
    var p := Assemble(name, s);
    FreshByCount(p, S.DeclarationCount(p));
    AxesBounded(s.sweeps);
    var j :| 0 <= j < |s.measurements| && FirstPower(s.measurements, p.measurement, j);
    assert S.FirstPower(p, j);
    forall k | 0 <= k < |p.derived| ensures DerivedTyped(types, p.derived[k]) { assert p.derived[k] in p.derived; }
    forall k | 0 <= k < |p.derived| ensures S.WellTypedDerived(p, k) { DerivedListed(p, k); }
  }

  /** Three sweeps repeat an axis. */
  lemma AxesBounded(sweeps: seq<S.Sweep>)
    ensures |sweeps| > 2 ==> exists i, j :: 0 <= i < j < |sweeps| && sweeps[i].axis == sweeps[j].axis
  {
    if |sweeps| > 2 {
      assert sweeps[0].axis == sweeps[1].axis || sweeps[0].axis == sweeps[2].axis || sweeps[1].axis == sweeps[2].axis;
    }
  }

  lemma AssembledIsPlanned(name: string, s: State, types: Types)
    requires Complete(s) && Invariant(s, types) && S.AllTypes(Assemble(name, s)) == types
    ensures S.SweepCounts(Assemble(name, s)) && SweepsAsPlanned(Assemble(name, s))
    ensures S.WellFormedCalibration(Assemble(name, s))
  {
  }

  lemma AssembledAssertions(name: string, s: State, types: Types)
    requires Complete(s) && Invariant(s, types) && S.AllTypes(Assemble(name, s)) == types
    ensures forall i :: 0 <= i < |s.assertions| ==> S.WellTypedAssertion(Assemble(name, s), i)
  {
    var p := Assemble(name, s);
    forall i | 0 <= i < |p.assertions| ensures S.WellTypedAssertion(p, i) {
      assert AssertionTyped(types, p.assertions[i], i);
    }
  }

  lemma AssembledIsWellFormed(name: string, s: State, types: Types)
    requires Complete(s) && Invariant(s, types) && types == ListedTypes(s)
    ensures S.WellFormed(Assemble(name, s))
    ensures SweepsAsPlanned(Assemble(name, s)) && EarlierOnly(Assemble(name, s))
  {
    AssembledTypes(name, s, types);
    AssembledIsDeclared(name, s, types);
    AssembledIsPlanned(name, s, types);
    AssembledAssertions(name, s, types);
  }

  /** Whatever the analyzer accepts is well formed: one reference, one frequency sweep, a power
      measurement and a calibration; distinct symbols, well-typed trees over earlier symbols, the
      planned number of points within the limit. The calibration lists every sweep exactly when no
      sweep statement follows the calibration statement. */
  lemma AnalyzerIsSound(program: Program)
    requires GrammaticalProgram(program) && Analyze(program).Some?
    ensures var p := Analyze(program).value;
      && S.WellFormed(p) && SweepsAsPlanned(p) && EarlierOnly(p)
      && p.calibration.name != "" && p.calibration.indexes != []
      && (|p.calibration.indexes| == |p.sweeps| <==> SweepsPrecedeCalibration(program.statements))
  {
    var n := |program.statements|;
    var s := Analyzed(program.statements, n).value;
    InvariantHolds(program.statements, n);
    TypesListed(program.statements, n);
    CoverageHolds(program.statements, n);
    AssembledIsWellFormed(program.name, s, AnalyzedTypes(program.statements, n));
  }
}
