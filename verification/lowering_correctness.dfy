/** Every well-formed analyzed program is lowered faithfully. */
module LoweringCorrectness {
  import opened Domain
  import opened Points
  import opened Ir
  import opened Evaluator
  import opened Validator
  import opened Soundness
  import opened Lowering
  import opened Representation
  import opened LoweringPass
  import S = Semantic

  /** The state after n declarations represents them, list by list. */
  ghost predicate Progress(p: S.Program, n: nat, s: State)
    requires n <= S.DeclarationCount(p)
  {
    && Represents(p, n, s.values, s.symbols) && s.used == s.symbols.Keys
    && (n <= |p.sweeps| + |p.measurements| ==> |s.values| == 1 + n)
    && LowersSweeps(p, s.sweeps, Clamp(n, 0, |p.sweeps|))
    && LegacyCopies(p, s.legacy, Clamp(n, 0, |p.sweeps|))
    && LowersMeasurements(p, s.measurements, Clamp(n, |p.sweeps|, |p.measurements|))
    && PicksFirstPower(p, s.measurement, Clamp(n, |p.sweeps|, |p.measurements|))
    && NamesAll(p, s.symbols, s.named, Clamp(n, |p.sweeps| + |p.measurements|, |p.derived|))
    && BindsSweeps(p, s.symbols, Clamp(n, 0, |p.sweeps|))
    && s.assertions == []
  }

  /** Each sweep symbol is bound to the sweep's own slot. */
  predicate BindsSweeps(p: S.Program, symbols: map<S.SymbolId, Binding>, n: nat) {
    n <= |p.sweeps| && forall i :: 0 <= i < n ==>
      p.sweeps[i].symbol in symbols && symbols[p.sweeps[i].symbol] == Binding(1 + i, AxisType(p.sweeps[i].axis))
  }

  lemma ReferenceProgress(p: S.Program)
    ensures Swept(p, 0).Some? && Progress(p, 0, Swept(p, 0).value)
  {
    RepresentsReference(p);
    assert Swept(p, 0).value.values == [Slot(0, Power, ReferencePower(p.reference))];
  }

  predicate AllReady(p: S.Program) {
    forall n :: 0 <= n < S.DeclarationCount(p) ==> Ready(p, n)
  }

  lemma WellDeclaredIsReady(p: S.Program)
    requires S.WellDeclared(p)
    ensures AllReady(p)
  {
    forall n | 0 <= n < S.DeclarationCount(p) ensures Ready(p, n) {
      assert S.Fresh(p, n);
      var j, k := n - |p.sweeps|, n - |p.sweeps| - |p.measurements|;
      if 0 <= j < |p.measurements| {
        assert p.measurements[j] in p.measurements;
        DistinctFromFirst(p, j);
      } else if k >= 0 {
        assert S.WellTypedDerived(p, k);
      }
    }
  }

  lemma SweptNext(p: S.Program, n: nat, s: State, t: State)
    requires n < |p.sweeps| && Swept(p, n) == Some(s) && DeclareSweep(p, n, s) == Some(t)
    ensures Swept(p, n + 1) == Some(t)
  {
  }

  lemma MeasuredNext(p: S.Program, j: nat, s: State, t: State)
    requires j < |p.measurements| && Measured(p, j) == Some(s) && DeclareMeasurement(p, j, s) == Some(t)
    ensures Measured(p, j + 1) == Some(t)
  {
  }

  lemma DerivedNext(p: S.Program, k: nat, s: State, t: State)
    requires k < |p.derived| && Derived(p, k) == Some(s) && DeclareDerived(p, k, s) == Some(t)
    ensures Derived(p, k + 1) == Some(t)
  {
  }

  /** The state s is reached after so many sweeps, measurements or derived values. */
  ghost predicate SweptReached(p: S.Program, n: nat, s: State)
    requires n <= |p.sweeps|
  {
    Swept(p, n) == Some(s) && Progress(p, n, s)
  }

  ghost predicate MeasuredReached(p: S.Program, n: nat, j: nat, s: State)
    requires j <= |p.measurements| && n == |p.sweeps| + j
  {
    Measured(p, j) == Some(s) && Progress(p, n, s)
  }

  ghost predicate DerivedReached(p: S.Program, n: nat, k: nat, s: State)
    requires k <= |p.derived| && n == |p.sweeps| + |p.measurements| + k
  {
    Derived(p, k) == Some(s) && Progress(p, n, s)
  }

  ghost predicate CanSweep(p: S.Program, n: nat)
    requires n <= |p.sweeps|
  {
    exists s :: SweptReached(p, n, s)
  }

  ghost predicate CanMeasure(p: S.Program, n: nat, j: nat)
    requires j <= |p.measurements| && n == |p.sweeps| + j
  {
    exists s :: MeasuredReached(p, n, j, s)
  }

  ghost predicate CanDerive(p: S.Program, n: nat, k: nat)
    requires k <= |p.derived| && n == |p.sweeps| + |p.measurements| + k
  {
    exists s :: DerivedReached(p, n, k, s)
  }

  lemma SweptStart(p: S.Program) returns (s: State)
    ensures SweptReached(p, 0, s)
  {
    ReferenceProgress(p);
    s := Swept(p, 0).value;
  }

  /** From m sweeps to the next n. */
  lemma SweptAfter(p: S.Program, m: nat, n: nat, before: State) returns (s: State)
    requires m < |p.sweeps| && Ready(p, m) && SweptReached(p, m, before) && n == m + 1
    ensures SweptReached(p, n, s)
  {
    s := SweepProgress(p, m, before);
    SweptNext(p, m, before, s);
  }

  lemma SweptStep(p: S.Program, m: nat, n: nat)
    requires m < |p.sweeps| && n == m + 1 && AllReady(p) && CanSweep(p, m)
    ensures CanSweep(p, n)
  {
    var before :| SweptReached(p, m, before);
    var s := SweptAfter(p, m, n, before);
  }

  lemma SweptBase(p: S.Program, n: nat)
    requires n == 0
    ensures CanSweep(p, n)
  {
    var s := SweptStart(p);
  }

  lemma {:induction false} SweptProgress(p: S.Program, n: nat)
    requires AllReady(p) && n <= |p.sweeps|
    ensures CanSweep(p, n)
  {
    if n == 0 {
      SweptBase(p, n);
    } else {
      SweptProgress(p, n - 1);
      SweptStep(p, n - 1, n);
    }
  }

  lemma MeasuredStart(p: S.Program, n: nat, s: State)
    requires n == |p.sweeps| && SweptReached(p, n, s)
    ensures MeasuredReached(p, n, 0, s)
  {
  }

  /** From i measurements to the next j. */
  lemma MeasuredAfter(p: S.Program, m: nat, i: nat, n: nat, j: nat, before: State) returns (s: State)
    requires i < |p.measurements| && m == |p.sweeps| + i && Ready(p, m) && MeasuredReached(p, m, i, before)
    requires n == m + 1 && j == i + 1
    ensures MeasuredReached(p, n, j, s)
  {
    s := MeasurementProgress(p, m, i, before);
  }

  lemma MeasuredBase(p: S.Program, n: nat)
    requires n == |p.sweeps| && CanSweep(p, n)
    ensures CanMeasure(p, n, 0)
  {
    var s :| SweptReached(p, n, s);
    MeasuredStart(p, n, s);
  }

  lemma MeasuredStep(p: S.Program, m: nat, i: nat, n: nat, j: nat)
    requires i < |p.measurements| && m == |p.sweeps| + i && n == m + 1 && j == i + 1
    requires AllReady(p) && CanMeasure(p, m, i)
    ensures CanMeasure(p, n, j)
  {
    var before :| MeasuredReached(p, m, i, before);
    var s := MeasuredAfter(p, m, i, n, j, before);
  }

  lemma {:induction false} MeasuredProgress(p: S.Program, n: nat, j: nat)
    requires AllReady(p) && j <= |p.measurements| && n == |p.sweeps| + j
    ensures CanMeasure(p, n, j)
    decreases j
  {
    if j == 0 {
      SweptProgress(p, n);
      MeasuredBase(p, n);
    } else {
      MeasuredProgress(p, n - 1, j - 1);
      MeasuredStep(p, n - 1, j - 1, n, j);
    }
  }

  lemma DerivedStart(p: S.Program, n: nat, s: State)
    requires n == |p.sweeps| + |p.measurements| && MeasuredReached(p, n, |p.measurements|, s)
    ensures DerivedReached(p, n, 0, s)
  {
  }

  lemma DerivedAfter(p: S.Program, m: nat, i: nat, n: nat, k: nat, before: State) returns (s: State)
    requires i < |p.derived| && m == |p.sweeps| + |p.measurements| + i && Ready(p, m)
    requires DerivedReached(p, m, i, before) && n == m + 1 && k == i + 1
    ensures DerivedReached(p, n, k, s)
  {
    s := DerivedProgress(p, m, i, before);
  }

  lemma DerivedBase(p: S.Program, n: nat)
    requires n == |p.sweeps| + |p.measurements| && CanMeasure(p, n, |p.measurements|)
    ensures CanDerive(p, n, 0)
  {
    var s :| MeasuredReached(p, n, |p.measurements|, s);
    DerivedStart(p, n, s);
  }

  lemma DerivedStep(p: S.Program, m: nat, i: nat, n: nat, k: nat)
    requires i < |p.derived| && m == |p.sweeps| + |p.measurements| + i && n == m + 1 && k == i + 1
    requires AllReady(p) && CanDerive(p, m, i)
    ensures CanDerive(p, n, k)
  {
    var before :| DerivedReached(p, m, i, before);
    var s := DerivedAfter(p, m, i, n, k, before);
  }

  lemma {:induction false} DerivedsProgress(p: S.Program, n: nat, k: nat)
    requires AllReady(p) && k <= |p.derived| && n == |p.sweeps| + |p.measurements| + k
    ensures CanDerive(p, n, k)
    decreases k
  {
    if k == 0 {
      MeasuredProgress(p, n, |p.measurements|);
      DerivedBase(p, n);
    } else {
      DerivedsProgress(p, n - 1, k - 1);
      DerivedStep(p, n - 1, k - 1, n, k);
    }
  }

  /** Declarations never fail on a ready program. */
  lemma DeclaredProgress(p: S.Program) returns (s: State)
    requires AllReady(p)
    ensures Derived(p, |p.derived|) == Some(s) && Progress(p, S.DeclarationCount(p), s)
  {
    var n := S.DeclarationCount(p);
    DerivedsProgress(p, n, |p.derived|);
    s :| DerivedReached(p, n, |p.derived|, s);
  }

  lemma NextSymbolIsFresh(p: S.Program, n: nat, s: State)
    requires n < S.DeclarationCount(p) && Ready(p, n) && Progress(p, n, s)
    ensures S.DeclaredSymbol(p, n) !in s.symbols && S.DeclaredSymbol(p, n) !in s.used
  {
    assert S.Types(p, n) == SymbolTypes(s.symbols);
  }

  /** Binding the symbol of declaration n to one new slot. */
  predicate OneSlot(p: S.Program, n: nat, s: State, t: State)
    requires n < |p.sweeps| + |p.measurements|
  {
    var symbol := S.DeclaredSymbol(p, n);
    && t.values == s.values + [DeclarationSlot(p, n)]
    && t.symbols == s.symbols[symbol := Binding(1 + n, S.DeclaredType(p, n))]
    && t.used == s.used + {symbol}
    && t.named == s.named && t.assertions == s.assertions
  }

  lemma OneSlotRepresents(p: S.Program, n: nat, s: State, t: State)
    requires n < |p.sweeps| + |p.measurements| && Ready(p, n) && Progress(p, n, s) && OneSlot(p, n, s, t)
    ensures Represents(p, n + 1, t.values, t.symbols) && t.used == t.symbols.Keys && |t.values| == 2 + n
  {
    NextSymbolIsFresh(p, n, s);
    RepresentsSlot(p, n, s.values, s.symbols);
  }

  lemma OneSlotBinds(p: S.Program, n: nat, s: State, t: State)
    requires n < |p.sweeps| + |p.measurements| && Ready(p, n) && Progress(p, n, s) && OneSlot(p, n, s, t)
    ensures BindsSweeps(p, t.symbols, Clamp(n + 1, 0, |p.sweeps|))
  {
    NextSymbolIsFresh(p, n, s);
  }

  lemma SweepProgress(p: S.Program, n: nat, s: State) returns (t: State)
    requires n < |p.sweeps| && Ready(p, n) && Progress(p, n, s)
    ensures DeclareSweep(p, n, s) == Some(t) && Progress(p, n + 1, t)
  {
    NextSymbolIsFresh(p, n, s);
    SweepState(p, n, s);
    SweepEntry(p, n, s.sweeps, s.legacy);
    t := DeclareSweep(p, n, s).value;
    OneSlotRepresents(p, n, s, t);
    OneSlotBinds(p, n, s, t);
  }

  lemma SweepState(p: S.Program, n: nat, s: State)
    requires n < |p.sweeps| && |s.values| == 1 + n
    requires p.sweeps[n].symbol !in s.used && p.sweeps[n].symbol !in s.symbols
    ensures DeclareSweep(p, n, s).Some?
    ensures var t, sweep := DeclareSweep(p, n, s).value, p.sweeps[n];
      && OneSlot(p, n, s, t)
      && t.sweeps == s.sweeps + [LoweredSweep(p, n)]
      && t.legacy == (if sweep.axis == FrequencyAxis
         then LegacySweep(1 + n, sweep.start, sweep.end, sweep.step) else s.legacy)
      && t.measurement == s.measurement && t.measurements == s.measurements
  {
  }

  lemma SweepEntry(p: S.Program, i: nat, sweeps: seq<TypedSweep>, legacy: LegacySweep)
    requires i < |p.sweeps| && LowersSweeps(p, sweeps, i) && LegacyCopies(p, legacy, i)
    ensures LowersSweeps(p, sweeps + [LoweredSweep(p, i)], i + 1)
    ensures var s := p.sweeps[i];
      LegacyCopies(p, if s.axis == FrequencyAxis then LegacySweep(1 + i, s.start, s.end, s.step) else legacy, i + 1)
  {
    forall k | 0 <= k < i && LastFrequency(p, k, i + 1) ensures LastFrequency(p, k, i) {}
  }

  lemma MeasuringProgresses(p: S.Program, n: nat, j: nat, s: State, t: State)
    requires j < |p.measurements| && n == |p.sweeps| + j && Progress(p, n, s)
    requires t.sweeps == s.sweeps && t.legacy == s.legacy && t.named == s.named && t.assertions == s.assertions
    requires Represents(p, n + 1, t.values, t.symbols) && t.used == t.symbols.Keys && |t.values| == 2 + n
    requires LowersMeasurements(p, t.measurements, j + 1) && PicksFirstPower(p, t.measurement, j + 1)
    requires BindsSweeps(p, t.symbols, |p.sweeps|)
    ensures Progress(p, n + 1, t)
  {
  }

  /** Declaring a measurement adds its slot and its entry. */
  predicate MeasurementAdded(p: S.Program, n: nat, j: nat, s: State, t: State)
    requires j < |p.measurements| && n == |p.sweeps| + j
  {
    && OneSlot(p, n, s, t) && t.sweeps == s.sweeps && t.legacy == s.legacy
    && LowersMeasurements(p, t.measurements, j + 1) && PicksFirstPower(p, t.measurement, j + 1)
  }

  lemma MeasurementDeclared(p: S.Program, n: nat, j: nat, s: State) returns (t: State)
    requires j < |p.measurements| && n == |p.sweeps| + j && Ready(p, n) && Progress(p, n, s)
    ensures DeclareMeasurement(p, j, s) == Some(t) && MeasurementAdded(p, n, j, s, t)
  {
    NextSymbolIsFresh(p, n, s);
    MeasurementState(p, n, j, s);
    MeasurementEntry(p, j, s.measurements, s.measurement);
    t := DeclareMeasurement(p, j, s).value;
  }

  lemma AddedProgresses(p: S.Program, n: nat, j: nat, s: State, t: State)
    requires j < |p.measurements| && n == |p.sweeps| + j && Ready(p, n) && Progress(p, n, s)
    requires MeasurementAdded(p, n, j, s, t)
    ensures Progress(p, n + 1, t)
  {
    OneSlotRepresents(p, n, s, t);
    OneSlotBinds(p, n, s, t);
    MeasuringProgresses(p, n, j, s, t);
  }

  lemma MeasurementProgress(p: S.Program, n: nat, j: nat, s: State) returns (t: State)
    requires j < |p.measurements| && n == |p.sweeps| + j && Ready(p, n) && Progress(p, n, s)
    requires Measured(p, j) == Some(s)
    ensures Measured(p, j + 1) == Some(t) && Progress(p, n + 1, t)
  {
    t := MeasurementDeclared(p, n, j, s);
    AddedProgresses(p, n, j, s, t);
    MeasuredNext(p, j, s, t);
  }

  lemma MeasurementState(p: S.Program, n: nat, j: nat, s: State)
    requires j < |p.measurements| && n == |p.sweeps| + j && |s.values| == 1 + n
    requires p.measurements[j].symbol !in s.used && p.measurements[j].symbol !in s.symbols
    ensures DeclareMeasurement(p, j, s).Some?
    ensures var t := DeclareMeasurement(p, j, s).value;
      && OneSlot(p, n, s, t)
      && t.measurements == s.measurements + [LoweredMeasurement(p, j)]
      && t.measurement == (if p.measurements[j].symbol == p.measurement then 1 + |p.sweeps| + j else s.measurement)
      && t.sweeps == s.sweeps && t.legacy == s.legacy
  {
    var m := p.measurements[j];
    assert DeclarationSlot(p, n) == Slot(1 + n, m.typ, Measure(m.operation));
  }

  lemma MeasurementEntry(p: S.Program, j: nat, measurements: seq<Measurement>, measurement: ValueId)
    requires j < |p.measurements| && LowersMeasurements(p, measurements, j) && PicksFirstPower(p, measurement, j)
    requires p.measurements[j].symbol == p.measurement <==> S.FirstPower(p, j)
    ensures LowersMeasurements(p, measurements + [LoweredMeasurement(p, j)], j + 1)
    ensures PicksFirstPower(
              p, if p.measurements[j].symbol == p.measurement then 1 + |p.sweeps| + j else measurement, j + 1)
  {
  }

  /** A derived value leaves the other lists alone. */
  predicate OnlyNames(s: State, t: State) {
    && t.sweeps == s.sweeps && t.legacy == s.legacy && t.measurements == s.measurements
    && t.measurement == s.measurement && t.assertions == s.assertions
  }

  lemma DerivedState(p: S.Program, k: nat, s: State)
    requires k < |p.derived| && p.derived[k].symbol !in s.used && p.derived[k].symbol !in s.symbols
    requires LoweredDerived(p.derived[k], s.symbols, s.values).Some?
    requires LoweredDerived(p.derived[k], s.symbols, s.values).value.typ == p.derived[k].typ
    ensures DeclareDerived(p, k, s).Some?
    ensures var d, r, t := p.derived[k], LoweredDerived(p.derived[k], s.symbols, s.values).value,
        DeclareDerived(p, k, s).value;
      && t.values == r.values && t.symbols == s.symbols[d.symbol := Binding(r.id, r.typ)]
      && t.used == s.used + {d.symbol} && OnlyNames(s, t)
  {
  }

  lemma NamingProgresses(p: S.Program, n: nat, k: nat, s: State, t: State)
    requires k < |p.derived| && n == |p.sweeps| + |p.measurements| + k && Progress(p, n, s) && OnlyNames(s, t)
    requires Represents(p, n + 1, t.values, t.symbols) && t.used == t.symbols.Keys
    requires NamesAll(p, t.symbols, t.named, k + 1) && BindsSweeps(p, t.symbols, |p.sweeps|)
    ensures Progress(p, n + 1, t)
  {
  }

  lemma BindingKeepsSweeps(p: S.Program, symbols: map<S.SymbolId, Binding>, symbol: S.SymbolId, b: Binding, n: nat)
    requires BindsSweeps(p, symbols, n) && symbol !in symbols
    ensures BindsSweeps(p, symbols[symbol := b], n)
  {
  }

  lemma DerivedProgress(p: S.Program, n: nat, k: nat, s: State) returns (t: State)
    requires k < |p.derived| && n == |p.sweeps| + |p.measurements| + k && Ready(p, n) && Progress(p, n, s)
    requires Derived(p, k) == Some(s)
    ensures Derived(p, k + 1) == Some(t) && Progress(p, n + 1, t)
  {
    NextSymbolIsFresh(p, n, s);
    RepresentsDerived(p, n, k, s.values, s.symbols);
    DerivedState(p, k, s);
    DerivedEntry(p, k, s);
    t := DeclareDerived(p, k, s).value;
    var r := LoweredDerived(p.derived[k], s.symbols, s.values).value;
    BindingKeepsSweeps(p, s.symbols, p.derived[k].symbol, Binding(r.id, r.typ), |p.sweeps|);
    NamingProgresses(p, n, k, s, t);
    DerivedNext(p, k, s, t);
  }

  lemma DerivedEntry(p: S.Program, k: nat, s: State)
    requires k < |p.derived| && p.derived[k].symbol !in s.symbols && NamesAll(p, s.symbols, s.named, k)
    requires DeclareDerived(p, k, s).Some?
    ensures var t := DeclareDerived(p, k, s).value; NamesAll(p, t.symbols, t.named, k + 1)
  {
  }

  lemma {:induction false} DeclaredBefore(p: S.Program, i: nat, n: nat)
    requires i < n <= S.DeclarationCount(p)
    ensures S.DeclaredSymbol(p, i) in S.Types(p, n)
  {
    if i < n - 1 { DeclaredBefore(p, i, n - 1); }
  }

  /** Only the first power measurement carries the program's measurement symbol. */
  lemma DistinctFromFirst(p: S.Program, j: nat)
    requires S.DistinctSymbols(p) && S.WellTypedMeasurements(p) && j < |p.measurements|
    ensures p.measurements[j].symbol == p.measurement <==> S.FirstPower(p, j)
  {
    var f :| 0 <= f < |p.measurements| && S.FirstPower(p, f);
    var base := |p.sweeps|;
    if f < j {
      DeclaredBefore(p, base + f, base + j);
      assert S.Fresh(p, base + j);
    } else if j < f {
      DeclaredBefore(p, base + j, base + f);
      assert S.Fresh(p, base + f);
    }
  }

  // ----- Assertions -----

  lemma DenotesExtended(p: S.Program, values: seq<Slot>, after: seq<Slot>, id: ValueId, e: S.Expression)
    requires Denotes(p, values, id, e) && ValidDefinitions(after) && Extends(values, after)
    requires forall point | S.PointMatches(p, point) :: Answerable(values, point)
    ensures Denotes(p, after, id, e)
  {
    assert after[id] == after[..|values|][id];
    forall point | S.PointMatches(p, point)
      ensures Fold(after, point).Some? && Fold(after, point).value[id] == Fold(values, point).value[id]
    {
      ExtensionFills(values, after, point);
      assert Fold(after, point).value[id] == Fold(after, point).value[..|values|][id];
    }
  }

  lemma AllAnswerable(p: S.Program, n: nat, values: seq<Slot>, symbols: map<S.SymbolId, Binding>)
    requires n <= S.DeclarationCount(p) && Represents(p, n, values, symbols)
    ensures forall point | S.PointMatches(p, point) :: Answerable(values, point)
  {
    forall point | S.PointMatches(p, point) ensures Answerable(values, point) {
      assert Agrees(p, n, values, symbols, point);
    }
  }

  /** A tree lowered once everything is declared denotes its value in the full environment. */
  lemma LoweredDenotes(p: S.Program, values: seq<Slot>, symbols: map<S.SymbolId, Binding>, e: S.Expression)
    requires Represents(p, S.DeclarationCount(p), values, symbols) && S.Typed(e, S.AllTypes(p))
    ensures Lower(e, symbols, values).Some?
    ensures var r := Lower(e, symbols, values).value;
      && GoodResult(values, r, e.typ)
      && Represents(p, S.DeclarationCount(p), r.values, symbols)
      && Denotes(p, r.values, r.id, e)
  {
    LoweringAcceptsTyped(e, symbols, values);
    var r := Lower(e, symbols, values).value;
    RepresentsExtended(p, values, symbols, r.values);
    forall point | S.PointMatches(p, point)
      ensures
        && Fold(r.values, point).Some?
        && Some(Fold(r.values, point).value[r.id]) == S.Evaluate(e, S.FullEnvironment(p, point))
    {
      assert Agrees(p, S.DeclarationCount(p), values, symbols, point);
      LoweringPreservesMeaning(e, symbols, values, point);
    }
  }

  ghost predicate AssertionProgress(p: S.Program, n: nat, s: State)
    requires n <= |p.assertions|
  {
    var d := Derived(p, |p.derived|);
    && d.Some?
    && s == d.value.(values := s.values, assertions := s.assertions)
    && Represents(p, S.DeclarationCount(p), s.values, s.symbols)
    && LowersAssertions(p, s.values, s.assertions, n)
  }

  lemma {:induction false} AssertedProgress(p: S.Program, n: nat) returns (s: State)
    requires AllReady(p) && n <= |p.assertions|
    requires forall i :: 0 <= i < |p.assertions| ==> S.WellTypedAssertion(p, i)
    ensures Asserted(p, n) == Some(s) && AssertionProgress(p, n, s)
  {
    if n == 0 {
      s := DeclaredProgress(p);
    } else {
      var before := AssertedProgress(p, n - 1);
      assert S.WellTypedAssertion(p, n - 1);
      s := AssertionStep(p, n - 1, before);
    }
  }

  lemma AssertionStep(p: S.Program, i: nat, s: State) returns (t: State)
    requires i < |p.assertions| && S.WellTypedAssertion(p, i) && AssertionProgress(p, i, s)
    ensures DeclareAssertion(p, i, s) == Some(t) && AssertionProgress(p, i + 1, t)
  {
    var a := p.assertions[i];
    LoweredDenotes(p, s.values, s.symbols, a.expression);
    var r := Lower(a.expression, s.symbols, s.values).value;
    BooleansCompare(r.values, r.id);
    AssertionsExtended(p, i, s.values, s.symbols, r.values, s.assertions);
    t := DeclareAssertion(p, i, s).value;
  }

  lemma AssertionsExtended(p: S.Program, n: nat, values: seq<Slot>, symbols: map<S.SymbolId, Binding>,
                           after: seq<Slot>, assertions: seq<Assertion>)
    requires Represents(p, S.DeclarationCount(p), values, symbols)
    requires LowersAssertions(p, values, assertions, n)
    requires ValidDefinitions(after) && Extends(values, after)
    ensures LowersAssertions(p, after, assertions, n)
  {
    AllAnswerable(p, S.DeclarationCount(p), values, symbols);
    forall k | 0 <= k < n ensures LowersAssertion(p, k, after, assertions[k]) {
      assert LowersAssertion(p, k, values, assertions[k]);
      DenotesExtended(p, values, after, assertions[k].value, p.assertions[k].expression);
      ComparisonStable(values, after, assertions[k].value);
    }
  }

  // ----- The whole pass -----

  /** The state before the calibration, and what lowering the correction adds to it. */
  ghost predicate Corrected(p: S.Program, s: State, d: State, r: Lowered) {
    && Lower(p.calibration.correction, s.symbols, s.values) == Some(r)
    && Progress(p, S.DeclarationCount(p), d) && s == d.(values := s.values, assertions := s.assertions)
    && Represents(p, S.DeclarationCount(p), r.values, s.symbols)
    && Denotes(p, r.values, r.id, p.calibration.correction)
    && LowersAssertions(p, r.values, s.assertions, |p.assertions|)
  }

  lemma CorrectionLowers(p: S.Program) returns (s: State, d: State, r: Lowered)
    requires S.WellFormed(p)
    ensures Asserted(p, |p.assertions|) == Some(s) && AssertionProgress(p, |p.assertions|, s)
    ensures Corrected(p, s, d, r) && r.typ == PowerDelta && s.used == SymbolTypes(s.symbols).Keys
  {
    WellDeclaredIsReady(p);
    s := AssertedProgress(p, |p.assertions|);
    d := DeclaredProgress(p);
    LoweredDenotes(p, s.values, s.symbols, p.calibration.correction);
    r := Lower(p.calibration.correction, s.symbols, s.values).value;
    AssertionsExtended(p, |p.assertions|, s.values, s.symbols, r.values, s.assertions);
  }

  /** Lowering succeeds on exactly the well-formed programs whose calibration lists a sweep, and
      what it produces implements the program. */
  lemma LoweringIsFaithful(p: S.Program)
    requires S.WellFormed(p)
    ensures LowerProgram(p).Some? <==> p.calibration.indexes != []
    ensures LowerProgram(p).Some? ==>
      exists symbols :: Implements(p, LowerProgram(p).value, symbols)
  {
    WellDeclaredIsReady(p);
    var s, d, r := CorrectionLowers(p);
    IndexesAccepted(p, s);
    if p.calibration.indexes != [] { CalibrationImplements(p, s, d, r, LowerProgram(p).value); }
  }

  lemma CalibrationImplements(p: S.Program, s: State, d: State, r: Lowered, q: Program)
    requires LowerCalibration(p, s) == Some(q) && Corrected(p, s, d, r)
    requires ListsSweeps(p, Calibration("", 0, IndexSlots(s, p.calibration.indexes), p.calibration.indexTypes,
      PowerDelta))
    ensures Implements(p, q, s.symbols)
  {
  }

  lemma IndexesAccepted(p: S.Program, s: State)
    requires AllReady(p) && S.WellFormedCalibration(p) && AssertionProgress(p, |p.assertions|, s)
    ensures p.calibration.indexes != [] <==> CalibrationAccepted(p, s)
    ensures ListsSweeps(p, Calibration("", 0, IndexSlots(s, p.calibration.indexes), p.calibration.indexTypes,
      PowerDelta))
  {
    var d := DeclaredProgress(p);
    assert BindsSweeps(p, s.symbols, |p.sweeps|) && LowersSweeps(p, s.sweeps, |p.sweeps|);
    forall i | 0 <= i < |p.calibration.indexes| ensures IndexAccepted(p, i, s) {
      assert p.calibration.indexes[i] == p.sweeps[i].symbol;
      forall k | 0 <= k < i ensures p.calibration.indexes[k] != p.sweeps[i].symbol {
        assert s.symbols[p.sweeps[k].symbol].value == 1 + k;
      }
    }
  }
}
