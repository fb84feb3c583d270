/** What holds of every program that lowering produces. */
module LoweredPrograms {
  import opened Domain
  import opened Points
  import opened Ir
  import opened Evaluator
  import opened Validator
  import opened Soundness
  import opened Lowering
  import opened Representation
  import opened LoweringPass
  import opened LoweringCorrectness
  import S = Semantic

  /** Every stage but the calibration check. */
  predicate ValidUpToCalibration(q: Program) {
    ValidDefinitions(q.values) && ValidBaseBindings(q) && ValidNamedValues(q) && ValidAssertions(q)
  }

  lemma {:induction false} SameProduct(p: S.Program, sweeps: seq<TypedSweep>, n: nat)
    requires LowersSweeps(p, sweeps, |p.sweeps|) && n <= |p.sweeps|
    ensures PartialProduct(sweeps, n) == S.PartialProduct(p.sweeps, n)
  {
    if n > 0 { SameProduct(p, sweeps, n - 1); }
  }

  lemma SweepsValidate(p: S.Program, q: Program, symbols: map<S.SymbolId, Binding>)
    requires S.SweepAxes(p) && S.SweepCounts(p) && Implements(p, q, symbols)
    ensures forall sweep <- q.sweeps :: ValidSweep(q, sweep)
    ensures PointProduct(q.sweeps) == q.totalPointCount <= MAXIMUM_POINTS
  {
    assert Layout(p, S.DeclarationCount(p), q.values);
    forall i | 0 <= i < |q.sweeps| ensures ValidSweep(q, q.sweeps[i]) {
      assert p.sweeps[i] in p.sweeps;
      assert q.sweeps[i] == LoweredSweep(p, i);
    }
    SameProduct(p, q.sweeps, |p.sweeps|);
  }

  lemma ShapeValidates(p: S.Program, q: Program)
    requires S.SweepAxes(p) && LowersSweeps(p, q.sweeps, |p.sweeps|) && LegacyCopies(p, q.sweep, |p.sweeps|)
    ensures SweepShape(q)
  {
    assert forall i :: 0 <= i < |p.sweeps| ==> q.sweeps[i] == LoweredSweep(p, i);
    var s := q.sweeps;
    if |s| == 1 {
      assert s[..1] == s && s[..0] == [];
      assert AxisCount(s[..0], FrequencyAxis) == 0;
      assert LastFrequency(p, 0, 1);
    } else {
      assert s[..|s| - 1] == s[..1] && s[..1][..0] == [];
      assert AxisCount(s[..1], FrequencyAxis) == (if s[0].dimension == FrequencyAxis then 1 else 0);
      assert AxisCount(s[..1], TemperatureAxis) == (if s[0].dimension == TemperatureAxis then 1 else 0);
      assert p.sweeps[0].axis == FrequencyAxis ==> LastFrequency(p, 0, 2);
      assert p.sweeps[1].axis == FrequencyAxis ==> LastFrequency(p, 1, 2);
    }
  }

  lemma MeasurementValidates(p: S.Program, q: Program, symbols: map<S.SymbolId, Binding>, j: nat)
    requires S.WellTypedMeasurements(p) && Implements(p, q, symbols) && j < |q.measurements|
    ensures ValidMeasurement(q, q.measurements[j])
  {
    assert Layout(p, S.DeclarationCount(p), q.values);
    assert p.measurements[j] in p.measurements;
    assert q.measurements[j] == LoweredMeasurement(p, j);
  }

  lemma MeasurementsValidate(p: S.Program, q: Program, symbols: map<S.SymbolId, Binding>)
    requires S.WellTypedMeasurements(p) && Implements(p, q, symbols)
    ensures MeasurementBindings(q) && Ordered(q)
  {
    assert Layout(p, S.DeclarationCount(p), q.values);
    var f :| 0 <= f < |p.measurements| && S.FirstPower(p, f);
    assert p.measurements[f] in p.measurements;
    assert q.values[1 + |p.sweeps| + f].definition == Measure(MeasurePower);
    forall j | 0 <= j < |q.measurements| ensures ValidMeasurement(q, q.measurements[j]) {
      MeasurementValidates(p, q, symbols, j);
    }
  }

  lemma NamesValidate(p: S.Program, q: Program, symbols: map<S.SymbolId, Binding>)
    requires Implements(p, q, symbols)
    ensures ValidNamedValues(q)
  {
    forall k | 0 <= k < |q.namedValues|
      ensures q.namedValues[k].value < |q.values| && q.values[q.namedValues[k].value].typ == q.namedValues[k].typ
    {
      assert NamesDerived(p, k, symbols, q.namedValues[k]);
      assert p.derived[k].symbol in symbols;
    }
  }

  lemma AssertionsValidate(p: S.Program, q: Program, symbols: map<S.SymbolId, Binding>)
    requires Implements(p, q, symbols)
    requires forall i :: 0 <= i < |p.assertions| ==> S.WellTypedAssertion(p, i)
    ensures ValidAssertions(q)
  {
    forall i | 0 <= i < |q.assertions| ensures ValidAssertion(q, i) {
      assert S.WellTypedAssertion(p, i);
      assert LowersAssertion(p, i, q.values, q.assertions[i]);
    }
  }

  lemma BindingsValidate(p: S.Program, q: Program, symbols: map<S.SymbolId, Binding>)
    requires S.WellFormed(p) && Implements(p, q, symbols)
    ensures ValidBaseBindings(q) && Ordered(q)
  {
    SweepsValidate(p, q, symbols);
    ShapeValidates(p, q);
    MeasurementsValidate(p, q, symbols);
    assert Counts(p, S.DeclarationCount(p), q.values) && Layout(p, S.DeclarationCount(p), q.values);
  }

  /** The calibration check passes exactly when every sweep is listed. */
  lemma CalibrationValidates(p: S.Program, q: Program, symbols: map<S.SymbolId, Binding>)
    requires Implements(p, q, symbols) && p.calibration.correction.typ == PowerDelta
    ensures ValidCalibration(q) <==> |p.calibration.indexes| == |p.sweeps|
  {
    assert forall i :: 0 <= i < |p.sweeps| ==> q.sweeps[i] == LoweredSweep(p, i);
  }

  /** Pipeline closure, lowering to validation: lowering succeeds exactly when the calibration
      lists a sweep; then the program is accepted by every stage, and in sound order, exactly when
      the calibration lists them all; and the silent acceptance of the binding stage never occurs. */
  lemma LoweredProgramsValidate(p: S.Program)
    requires S.WellFormed(p)
    ensures LowerProgram(p).Some? <==> p.calibration.indexes != []
    ensures LowerProgram(p).Some? ==>
      var q := LowerProgram(p).value;
      && Ordered(q) && !SilentlyAccepted(q) && ValidUpToCalibration(q)
      && (Valid(q) <==> |p.calibration.indexes| == |p.sweeps|)
  {
    LoweringIsFaithful(p);
    if LowerProgram(p).Some? {
      var q := LowerProgram(p).value;
      var symbols: map<S.SymbolId, Binding> :| Implements(p, q, symbols);
      BindingsValidate(p, q, symbols);
      NamesValidate(p, q, symbols);
      AssertionsValidate(p, q, symbols);
      CalibrationValidates(p, q, symbols);
    }
  }

  /** The slots named by the IR program hold the direct values of the trees they came from. */
  ghost predicate Realizes(p: S.Program, q: Program, point: Point)
    requires S.PointMatches(p, point)
  {
    var env := S.FullEnvironment(p, point);
    && Fold(q.values, point).Some?
    && var filled := Fold(q.values, point).value;
    && |filled| == |q.values|
    && |q.namedValues| == |p.derived| && |q.assertions| == |p.assertions|
    && q.reference < |filled| && filled[q.reference] == Quantity(Power, p.reference)
    && (forall k :: 0 <= k < |p.derived| ==>
          && q.namedValues[k].name == p.derived[k].name
          && q.namedValues[k].value < |filled| && p.derived[k].symbol in env
          && filled[q.namedValues[k].value] == env[p.derived[k].symbol])
    && (forall i :: 0 <= i < |p.assertions| ==>
          && q.assertions[i].value < |filled|
          && Some(filled[q.assertions[i].value]) == S.Evaluate(p.assertions[i].expression, env))
    && q.calibration.correction < |filled|
    && Some(filled[q.calibration.correction]) == S.Evaluate(p.calibration.correction, env)
  }

  lemma PointsAgree(p: S.Program, q: Program, symbols: map<S.SymbolId, Binding>, point: Point)
    requires Implements(p, q, symbols)
    ensures PointFits(q, point) <==> S.PointMatches(p, point)
  {
    assert forall i :: 0 <= i < |p.sweeps| ==> q.sweeps[i] == LoweredSweep(p, i);
  }

  /** Lowering preserves meaning: at every point that fits, the fold of the IR agrees with the
      direct evaluation of every derived value, every assertion and the correction. */
  lemma LoweringPreservesProgramMeaning(p: S.Program, point: Point)
    requires S.WellFormed(p) && LowerProgram(p).Some?
    ensures PointFits(LowerProgram(p).value, point) <==> S.PointMatches(p, point)
    ensures S.PointMatches(p, point) ==> Realizes(p, LowerProgram(p).value, point)
  {
    LoweringIsFaithful(p);
    var q := LowerProgram(p).value;
    var symbols: map<S.SymbolId, Binding> :| Implements(p, q, symbols);
    PointsAgree(p, q, symbols, point);
    if S.PointMatches(p, point) {
      assert Agrees(p, S.DeclarationCount(p), q.values, symbols, point);
      assert Layout(p, S.DeclarationCount(p), q.values);
      ReferenceSlot(p, q.values, point);
      var filled, env := Fold(q.values, point).value, S.FullEnvironment(p, point);
      forall k | 0 <= k < |p.derived|
        ensures p.derived[k].symbol in env && filled[q.namedValues[k].value] == env[p.derived[k].symbol]
      {
        assert NamesDerived(p, k, symbols, q.namedValues[k]);
        assert SlotEnvironment(symbols, filled)[p.derived[k].symbol] == filled[symbols[p.derived[k].symbol].value];
      }
      forall i | 0 <= i < |p.assertions|
        ensures Some(filled[q.assertions[i].value]) == S.Evaluate(p.assertions[i].expression, env)
      {
        assert LowersAssertion(p, i, q.values, q.assertions[i]);
        assert Denotes(p, q.values, q.assertions[i].value, p.assertions[i].expression);
      }
    }
  }

  lemma ReferenceSlot(p: S.Program, values: seq<Slot>, point: Point)
    requires Layout(p, S.DeclarationCount(p), values) && Fold(values, point).Some?
    ensures Fold(values, point).value[0] == Quantity(Power, p.reference)
  {
    var first := [Slot(0, Power, ReferencePower(p.reference))];
    var empty: seq<Slot> := [];
    assert values[..1] == first == empty + first;
    FoldPrefix(values, 1, point);
    FoldAppend(empty, first[0], point);
    assert Fold(values, point).value[0] == Fold(values, point).value[..1][0];
  }
}
