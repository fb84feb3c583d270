/** How the slots filled so far represent the declarations of an analyzed program. */
module Representation {
  import opened Domain
  import opened Points
  import opened Ir
  import opened Evaluator
  import opened Validator
  import opened Soundness
  import opened Lowering
  import S = Semantic

  function Clamp(n: nat, low: nat, length: nat): nat {
    if n <= low then 0 else if n - low < length then n - low else length
  }

  /** The reference comes first, then the sweeps, then the measurements, each in order. */
  predicate Layout(p: S.Program, n: nat, values: seq<Slot>) {
    var s, m := |p.sweeps|, |p.measurements|;
    && |values| >= 1 + Clamp(n, 0, s) + Clamp(n, s, m)
    && values[0] == Slot(0, Power, ReferencePower(p.reference))
    && (forall i :: 0 <= i < Clamp(n, 0, s) ==>
          values[1 + i] == Slot(1 + i, AxisType(p.sweeps[i].axis), SweepValue(p.sweeps[i].axis)))
    && (forall j :: 0 <= j < Clamp(n, s, m) ==>
          values[1 + s + j] == Slot(1 + s + j, p.measurements[j].typ, Measure(p.measurements[j].operation)))
  }

  predicate Counts(p: S.Program, n: nat, values: seq<Slot>) {
    && Count(values, References) == 1
    && Count(values, Sweeps) == Clamp(n, 0, |p.sweeps|)
    && Count(values, Measurements) == Clamp(n, |p.sweeps|, |p.measurements|)
  }

  predicate NoTruthConstants(values: seq<Slot>) {
    forall i :: 0 <= i < |values| && values[i].definition.Constant? ==> values[i].definition.value.Quantity?
  }

  /** At the point, the bound slots hold what the declarations denote. */
  ghost predicate Agrees(p: S.Program, n: nat, values: seq<Slot>, symbols: map<S.SymbolId, Binding>, point: Point)
    requires n <= S.DeclarationCount(p) && S.PointMatches(p, point)
  {
    && Answerable(values, point)
    && Fold(values, point).Some?
    && SlotEnvironment(symbols, Fold(values, point).value) == S.Environment(p, point, n)
  }

  ghost predicate Represents(p: S.Program, n: nat, values: seq<Slot>, symbols: map<S.SymbolId, Binding>)
    requires n <= S.DeclarationCount(p)
  {
    && ValidDefinitions(values) && NoTruthConstants(values) && BindingsMatch(symbols, values)
    && SymbolTypes(symbols) == S.Types(p, n)
    && Layout(p, n, values) && Counts(p, n, values)
    && forall point | S.PointMatches(p, point) :: Agrees(p, n, values, symbols, point)
  }

  lemma CountAppend(values: seq<Slot>, slot: Slot, family: Family)
    ensures Count(values + [slot], family) ==
      Count(values, family) + (if Belongs(slot.definition, family) then 1 else 0)
  {
    assert (values + [slot])[..|values|] == values;
  }

  /** The reference slot alone represents no declaration yet. */
  lemma RepresentsReference(p: S.Program)
    ensures Represents(p, 0, [Slot(0, Power, ReferencePower(p.reference))],
                       map[p.referenceSymbol := Binding(0, Power)])
  {
    var slot := Slot(0, Power, ReferencePower(p.reference));
    var values := [slot];
    assert values == [] + [slot];
    CountAppend([], slot, References);
    CountAppend([], slot, Sweeps);
    CountAppend([], slot, Measurements);
    forall point | S.PointMatches(p, point)
      ensures Agrees(p, 0, values, map[p.referenceSymbol := Binding(0, Power)], point)
    {
      var empty: seq<Slot> := [];
      FoldAppend(empty, slot, point);
      MeasureCountAppend(empty, slot);
      assert empty + [slot] == values
        && Fold(empty, point).value + [Quantity(Power, p.reference)] == [Quantity(Power, p.reference)];
    }
  }

  /** What one more slot or tree must satisfy to represent the next declaration. */
  ghost predicate Next(p: S.Program, n: nat, values: seq<Slot>, after: seq<Slot>, id: ValueId)
    requires n < S.DeclarationCount(p)
  {
    && ValidDefinitions(after) && NoTruthConstants(after) && |values| <= |after| && after[..|values|] == values
    && id < |after| && after[id].typ == S.DeclaredType(p, n)
    && forall point | S.PointMatches(p, point) ::
         && Answerable(after, point) && Fold(after, point).Some?
         && Some(Fold(after, point).value[id]) == S.DeclaredValue(p, point, n, S.Environment(p, point, n))
  }

  lemma RepresentsNext(p: S.Program, n: nat, values: seq<Slot>, symbols: map<S.SymbolId, Binding>,
                       after: seq<Slot>, id: ValueId)
    requires n < S.DeclarationCount(p) && S.DeclaredSymbol(p, n) !in S.Types(p, n)
    requires Represents(p, n, values, symbols) && Next(p, n, values, after, id)
    requires Layout(p, n + 1, after) && Counts(p, n + 1, after)
    ensures Represents(p, n + 1, after, symbols[S.DeclaredSymbol(p, n) := Binding(id, S.DeclaredType(p, n))])
  {
    var symbols' := symbols[S.DeclaredSymbol(p, n) := Binding(id, S.DeclaredType(p, n))];
    forall s <- symbols' ensures symbols'[s].value < |after| && after[symbols'[s].value].typ == symbols'[s].typ {
      if s in symbols { assert after[symbols[s].value] == after[..|values|][symbols[s].value]; }
    }
    assert SymbolTypes(symbols') == S.Types(p, n + 1);
    forall point | S.PointMatches(p, point) ensures Agrees(p, n + 1, after, symbols', point) {
      assert Agrees(p, n, values, symbols, point);
      FoldPrefix(after, |values|, point);
      BindOne(symbols, Fold(values, point).value, Fold(after, point).value, S.DeclaredSymbol(p, n),
              Binding(id, S.DeclaredType(p, n)));
    }
  }

  /** Binding one more symbol to a new slot adds one entry to the environment. */
  lemma BindOne(symbols: map<S.SymbolId, Binding>, before: seq<Value>, filled: seq<Value>, symbol: S.SymbolId,
                b: Binding)
    requires symbol !in symbols && b.value < |filled| && |before| <= |filled| && filled[..|before|] == before
    requires forall s <- symbols :: symbols[s].value < |before|
    ensures SlotEnvironment(symbols[symbol := b], filled) == SlotEnvironment(symbols, before)[symbol := filled[b.value]]
  {
    var env, env' := SlotEnvironment(symbols, before), SlotEnvironment(symbols[symbol := b], filled);
    assert env'.Keys == env.Keys + {symbol};
    forall s <- symbols ensures env'[s] == env[s] {
      assert filled[symbols[s].value] == filled[..|before|][symbols[s].value];
    }
  }

  // ----- Sweeps and measurements: one slot each -----

  lemma {:induction false} CoordinateAt(coordinates: seq<Coordinate>, i: nat)
    requires i < |coordinates| && coordinates[i].value.kind == AxisType(coordinates[i].axis)
    requires forall j :: 0 <= j < i ==> coordinates[j].axis != coordinates[i].axis
    ensures CoordinateOf(coordinates, coordinates[i].axis) ==
            Some(Quantity(coordinates[i].value.kind, coordinates[i].value.amount))
  {
    if i > 0 { CoordinateAt(coordinates[1..], i - 1); }
  }

  /** What the n-th declaration must satisfy, given those before it. */
  predicate Ready(p: S.Program, n: nat)
    requires n < S.DeclarationCount(p)
  {
    var s, m := |p.sweeps|, |p.measurements|;
    && S.Fresh(p, n)
    && (n < s ==> forall j :: 0 <= j < n ==> p.sweeps[j].axis != p.sweeps[n].axis)
    && (s <= n < s + m ==>
         && p.measurements[n - s].typ == ResultType(p.measurements[n - s].operation)
         && (p.measurements[n - s].symbol == p.measurement <==> S.FirstPower(p, n - s)))
    && (s + m <= n ==> S.WellTypedDerived(p, n - s - m))
  }

  function DeclarationSlot(p: S.Program, n: nat): Slot
    requires n < |p.sweeps| + |p.measurements|
  {
    Slot(1 + n, S.DeclaredType(p, n),
         if n < |p.sweeps| then SweepValue(p.sweeps[n].axis) else Measure(p.measurements[n - |p.sweeps|].operation))
  }

  lemma SlotValue(p: S.Program, n: nat, values: seq<Slot>, point: Point)
    requires n < |p.sweeps| + |p.measurements| && Ready(p, n) && S.PointMatches(p, point)
    requires Answerable(values, point) && Fold(values, point).Some?
      && MeasureCount(values) == Clamp(n, |p.sweeps|, |p.measurements|)
    ensures var after := values + [DeclarationSlot(p, n)];
      && Answerable(after, point) && Fold(after, point).Some?
      && Some(Fold(after, point).value[|values|]) == S.DeclaredValue(p, point, n, S.Environment(p, point, n))
  {
    var slot := DeclarationSlot(p, n);
    FoldAppend(values, slot, point);
    MeasureCountAppend(values, slot);
    if n < |p.sweeps| { CoordinateAt(point.coordinates, n); }
  }

  lemma AppendValid(values: seq<Slot>, slot: Slot)
    requires ValidDefinitions(values) && slot.id == |values| && ValidDefinition(values + [slot], |values|)
    ensures ValidDefinitions(values + [slot])
  {
    var after := values + [slot];
    forall i | 0 <= i < |after| ensures ValidSlot(after, i) {
      if i < |values| { assert ValidSlot(values, i); }
    }
  }

  lemma AppendCounts(values: seq<Slot>, slot: Slot)
    ensures forall family :: Count(values + [slot], family) ==
                             Count(values, family) + (if Belongs(slot.definition, family) then 1 else 0)
  {
    forall family { CountAppend(values, slot, family); }
  }

  lemma AppendLayout(p: S.Program, n: nat, values: seq<Slot>)
    requires n < |p.sweeps| + |p.measurements| && |values| == 1 + n
    requires Layout(p, n, values) && Counts(p, n, values)
    ensures Layout(p, n + 1, values + [DeclarationSlot(p, n)])
    ensures Counts(p, n + 1, values + [DeclarationSlot(p, n)])
  {
    AppendCounts(values, DeclarationSlot(p, n));
  }

  lemma RepresentsSlot(p: S.Program, n: nat, values: seq<Slot>, symbols: map<S.SymbolId, Binding>)
    requires n < |p.sweeps| + |p.measurements| && Ready(p, n)
    requires Represents(p, n, values, symbols) && |values| == 1 + n
    ensures Represents(p, n + 1, values + [DeclarationSlot(p, n)],
                       symbols[S.DeclaredSymbol(p, n) := Binding(|values|, S.DeclaredType(p, n))])
  {
    var slot := DeclarationSlot(p, n);
    var after := values + [slot];
    AppendValid(values, slot);
    AppendLayout(p, n, values);
    MeasureCountIsCount(values);
    forall point | S.PointMatches(p, point)
      ensures
        && Answerable(after, point) && Fold(after, point).Some?
        && Some(Fold(after, point).value[|values|]) == S.DeclaredValue(p, point, n, S.Environment(p, point, n))
    {
      assert Agrees(p, n, values, symbols, point);
      SlotValue(p, n, values, point);
    }
    RepresentsNext(p, n, values, symbols, after, |values|);
  }

  // ----- Derived quantities -----

  function LoweredDerived(d: S.Derived, symbols: map<S.SymbolId, Binding>, values: seq<Slot>): Option<Lowered> {
    var r := Lower(d.expression, symbols, values);
    if r.Some? && Leaf(d.expression) then Some(Emit(r.value.values, r.value.typ, Alias(r.value.id))) else r
  }

  predicate Leaf(e: S.Expression) {
    e.node.SymbolNode? || e.node.ReferenceNode?
  }

  lemma DerivedIsGood(e: S.Derived, symbols: map<S.SymbolId, Binding>, values: seq<Slot>)
    requires ValidDefinitions(values) && BindingsMatch(symbols, values)
    requires S.Typed(e.expression, SymbolTypes(symbols))
    ensures LoweredDerived(e, symbols, values).Some?
    ensures GoodResult(values, LoweredDerived(e, symbols, values).value, e.expression.typ)
  {
    LoweringAcceptsTyped(e.expression, symbols, values);
    var r := Lower(e.expression, symbols, values).value;
    if Leaf(e.expression) { EmitIsGood(values, r.values, r.typ, Alias(r.id)); }
  }

  lemma DerivedHolds(e: S.Derived, symbols: map<S.SymbolId, Binding>, values: seq<Slot>, point: Point)
    requires ValidDefinitions(values) && BindingsMatch(symbols, values) && Answerable(values, point)
    requires S.Typed(e.expression, SymbolTypes(symbols))
    ensures LoweredDerived(e, symbols, values).Some?
    ensures Means(e.expression, symbols, values, LoweredDerived(e, symbols, values).value, point)
  {
    LoweringAcceptsTyped(e.expression, symbols, values);
    LoweringPreservesMeaning(e.expression, symbols, values, point);
    var r := Lower(e.expression, symbols, values).value;
    if Leaf(e.expression) {
      var filled := Fold(r.values, point).value;
      EmitHolds(r.values, r.typ, Alias(r.id), point, filled, filled[r.id]);
      HoldsMeans(e.expression, symbols, values, Emit(r.values, r.typ, Alias(r.id)), point, filled[r.id]);
    }
  }

  lemma LayoutExtends(p: S.Program, n: nat, values: seq<Slot>, after: seq<Slot>)
    requires |p.sweeps| + |p.measurements| <= n && Layout(p, n, values) && Counts(p, n, values)
    requires Extends(values, after)
    ensures Layout(p, n + 1, after) && Counts(p, n + 1, after)
  {
    PureCount(values, after);
    assert forall i :: 0 <= i < |values| ==> after[i] == after[..|values|][i];
  }

  lemma DerivedValue(p: S.Program, n: nat, k: nat, values: seq<Slot>, symbols: map<S.SymbolId, Binding>, point: Point)
    requires k < |p.derived| && n == |p.sweeps| + |p.measurements| + k && S.PointMatches(p, point)
    requires ValidDefinitions(values) && BindingsMatch(symbols, values)
    requires S.Typed(p.derived[k].expression, SymbolTypes(symbols))
    requires Agrees(p, n, values, symbols, point)
    ensures LoweredDerived(p.derived[k], symbols, values).Some?
    ensures
      var r := LoweredDerived(p.derived[k], symbols, values).value;
      && Answerable(r.values, point) && Fold(r.values, point).Some?
      && r.id < |r.values|
      && Some(Fold(r.values, point).value[r.id]) == S.DeclaredValue(p, point, n, S.Environment(p, point, n))
  {
    DerivedIsGood(p.derived[k], symbols, values);
    ExtensionFills(values, LoweredDerived(p.derived[k], symbols, values).value.values, point);
    DerivedHolds(p.derived[k], symbols, values, point);
  }

  lemma RepresentsDerived(p: S.Program, n: nat, k: nat, values: seq<Slot>, symbols: map<S.SymbolId, Binding>)
    requires k < |p.derived| && n == |p.sweeps| + |p.measurements| + k && Ready(p, n)
    requires Represents(p, n, values, symbols)
    ensures LoweredDerived(p.derived[k], symbols, values).Some?
    ensures var r := LoweredDerived(p.derived[k], symbols, values).value;
      && r.typ == p.derived[k].typ
      && Represents(p, n + 1, r.values, symbols[p.derived[k].symbol := Binding(r.id, r.typ)])
  {
    var d := p.derived[k];
    DerivedIsGood(d, symbols, values);
    var r := LoweredDerived(d, symbols, values).value;
    LayoutExtends(p, n, values, r.values);
    forall point | S.PointMatches(p, point)
      ensures
        && Answerable(r.values, point) && Fold(r.values, point).Some?
        && Some(Fold(r.values, point).value[r.id]) == S.DeclaredValue(p, point, n, S.Environment(p, point, n))
    {
      DerivedValue(p, n, k, values, symbols, point);
    }
    ExtensionKeepsConstants(values, r.values);
    RepresentsNext(p, n, values, symbols, r.values, r.id);
  }

  // ----- Later slots -----

  lemma ExtensionKeepsConstants(values: seq<Slot>, after: seq<Slot>)
    requires Extends(values, after) && NoTruthConstants(values)
    ensures NoTruthConstants(after)
  {
    forall i | 0 <= i < |after| && after[i].definition.Constant? ensures after[i].definition.value.Quantity? {
      if i < |values| { assert after[i] == after[..|values|][i]; }
    }
  }

  /** Once everything is declared, more pure slots change nothing. */
  lemma RepresentsExtended(p: S.Program, values: seq<Slot>, symbols: map<S.SymbolId, Binding>, after: seq<Slot>)
    requires Represents(p, S.DeclarationCount(p), values, symbols)
    requires ValidDefinitions(after) && Extends(values, after)
    ensures Represents(p, S.DeclarationCount(p), after, symbols)
  {
    var n := S.DeclarationCount(p);
    PureCount(values, after);
    ExtensionKeepsConstants(values, after);
    assert forall i :: 0 <= i < |values| ==> after[i] == after[..|values|][i];
    forall point | S.PointMatches(p, point) ensures Agrees(p, n, after, symbols, point) {
      assert Agrees(p, n, values, symbols, point);
      ExtensionFills(values, after, point);
      EnvironmentStable(symbols, values, after, point);
    }
  }

  lemma {:induction false} ComparisonStable(values: seq<Slot>, after: seq<Slot>, id: ValueId)
    requires |values| <= |after| && after[..|values|] == values && id < |values|
    ensures Comparison(after, id) == Comparison(values, id)
    decreases id
  {
    assert after[id] == after[..|values|][id];
    match values[id].definition
    case Alias(target) => if target < id { ComparisonStable(values, after, target); }
    case _ =>
  }

  /** Behind every Boolean slot that lowering emits there is a comparison. */
  lemma {:induction false} BooleansCompare(values: seq<Slot>, id: ValueId)
    requires ValidDefinitions(values) && NoTruthConstants(values)
    requires id < |values| && values[id].typ == Boolean
    ensures Comparison(values, id).Some? && Comparison(values, id).value.Compare?
    decreases id
  {
    assert ValidSlot(values, id);
    match values[id].definition
    case Alias(target) => BooleansCompare(values, target);
    case _ =>
  }
}
