/** Type soundness of the IR: what a full validation guarantees about evaluation. */
module Soundness {
  import opened Domain
  import opened Ir
  import opened Points
  import opened Evaluator
  import opened Validator

  /** One coordinate per sweep, in declaration order and of the right kind. */
  predicate CoordinatesFit(p: Program, coordinates: seq<Coordinate>) {
    && |coordinates| == |p.sweeps|
    && forall i :: 0 <= i < |p.sweeps| ==>
         && coordinates[i].name == p.sweeps[i].name
         && coordinates[i].axis == p.sweeps[i].dimension
         && coordinates[i].value.kind == AxisType(p.sweeps[i].dimension)
  }

  /** The coordinates fit, and the devices answer every measurement. */
  predicate PointFits(p: Program, point: Point) {
    CoordinatesFit(p, point.coordinates) && |point.readings| == |p.measurements|
  }

  /** What lowering adds to validity: the reference precedes every measurement, and the
      measurement entries name distinct slots in slot order. */
  predicate Ordered(p: Program) {
    && |p.measurements| > 0
    && p.reference < p.measurements[0].value
    && forall i, j :: 0 <= i < j < |p.measurements| ==> p.measurements[i].value < p.measurements[j].value
  }

  predicate Sound(p: Program) {
    Valid(p) && Ordered(p)
  }

  /** Every slot of a filled program holds a value of its declared type. */
  predicate WellTyped(values: seq<Slot>, filled: seq<Value>) {
    |filled| == |values| && forall i :: 0 <= i < |values| ==> TypeOf(filled[i]) == values[i].typ
  }

  predicate Answerable(values: seq<Slot>, point: Point) {
    && (forall i :: 0 <= i < |values| && values[i].definition.SweepValue? ==>
          CoordinateOf(point.coordinates, values[i].definition.axis).Some?)
    && MeasureCount(values) <= |point.readings|
  }

  lemma ValidPrefix(values: seq<Slot>, n: nat)
    requires n <= |values| && ValidDefinitions(values)
    ensures ValidDefinitions(values[..n])
  {
    forall i | 0 <= i < n ensures ValidSlot(values[..n], i) {
      assert ValidSlot(values, i);
    }
  }

  lemma {:induction false} FoldIsTyped(values: seq<Slot>, point: Point)
    requires ValidDefinitions(values) && Answerable(values, point)
    ensures Fold(values, point).Some? && WellTyped(values, Fold(values, point).value)
  {
    if |values| > 0 {
      var n := |values| - 1;
      var before := values[..n];
      ValidPrefix(values, n);
      FoldIsTyped(before, point);
      assert ValidSlot(values, n);
      assert forall i :: 0 <= i < n ==> before[i] == values[i];
      var filled := Fold(before, point).value;
      StepIsTyped(values, point, filled);
    }
  }

  lemma StepIsTyped(values: seq<Slot>, point: Point, filled: seq<Value>)
    requires |values| > 0 && ValidDefinition(values, |values| - 1)
    requires WellTyped(values[..|values| - 1], filled)
    requires Answerable(values, point)
    ensures var n := |values| - 1;
      var v := EvaluateDefinition(values[n].definition, point, MeasureCount(values[..n]), filled);
      v.Some? && TypeOf(v.value) == values[n].typ
  {
    var n := |values| - 1;
    assert forall i :: 0 <= i < n ==> TypeOf(filled[i]) == values[i].typ;
    match values[n].definition
    case SweepValue(axis) => CoordinateType(point.coordinates, axis);
    case _ =>
  }

  lemma {:induction false} CoordinateType(coordinates: seq<Coordinate>, axis: Axis)
    ensures var v := CoordinateOf(coordinates, axis);
      v.Some? ==> v.value.Quantity? && v.value.kind == AxisType(axis)
  {
    if |coordinates| > 0 { CoordinateType(coordinates[1..], axis); }
  }

  lemma {:induction false} CoordinateFound(coordinates: seq<Coordinate>, i: nat)
    requires i < |coordinates|
    requires forall c <- coordinates :: c.value.kind == AxisType(c.axis)
    ensures CoordinateOf(coordinates, coordinates[i].axis).Some?
  {
    assert coordinates[0] in coordinates;
    if coordinates[0].axis != coordinates[i].axis {
      CoordinateFound(coordinates[1..], i - 1);
    }
  }

  lemma {:induction false} CountAtLeast(values: seq<Slot>, i: nat, family: Family)
    requires i < |values| && Belongs(values[i].definition, family)
    ensures Count(values, family) >= 1
  {
    if i < |values| - 1 { CountAtLeast(values[..|values| - 1], i, family); }
  }

  lemma {:induction false} CountTwo(values: seq<Slot>, i: nat, j: nat, family: Family)
    requires i < j < |values|
    requires Belongs(values[i].definition, family) && Belongs(values[j].definition, family)
    ensures Count(values, family) >= 2
  {
    if j < |values| - 1 {
      CountTwo(values[..|values| - 1], i, j, family);
    } else {
      CountAtLeast(values[..j], i, family);
    }
  }

  lemma {:induction false} AxesPartition(sweeps: seq<TypedSweep>)
    ensures AxisCount(sweeps, FrequencyAxis) + AxisCount(sweeps, TemperatureAxis) == |sweeps|
  {
    if |sweeps| > 0 { AxesPartition(sweeps[..|sweeps| - 1]); }
  }

  lemma {:induction false} AxisWitness(sweeps: seq<TypedSweep>, axis: Axis) returns (i: nat)
    requires AxisCount(sweeps, axis) >= 1
    ensures i < |sweeps| && sweeps[i].dimension == axis
  {
    if sweeps[|sweeps| - 1].dimension == axis {
      i := |sweeps| - 1;
    } else {
      i := AxisWitness(sweeps[..|sweeps| - 1], axis);
    }
  }

  lemma {:induction false} MeasureCountIsCount(values: seq<Slot>)
    ensures MeasureCount(values) == Count(values, Measurements)
  {
    if |values| > 0 { MeasureCountIsCount(values[..|values| - 1]); }
  }

  /** Every sweep definition of a valid program belongs to a declared sweep: the counts leave no
      room for a stray one. */
  lemma SweepDefinitionsDeclared(p: Program, slot: nat) returns (i: nat)
    requires ValidDefinitions(p.values) && ReportedBindings(p) && SweepShape(p)
    requires slot < |p.values| && p.values[slot].definition.SweepValue?
    ensures i < |p.sweeps| && p.sweeps[i].dimension == p.values[slot].definition.axis
  {
    var axis := p.values[slot].definition.axis;
    var f := AxisWitness(p.sweeps, FrequencyAxis);
    AxesPartition(p.sweeps);
    if axis == FrequencyAxis {
      i := f;
    } else if AxisCount(p.sweeps, TemperatureAxis) >= 1 {
      i := AxisWitness(p.sweeps, TemperatureAxis);
    } else {
      assert p.sweeps[f] in p.sweeps;
      var g := p.sweeps[f].value;
      if g < slot { CountTwo(p.values, g, slot, Sweeps); } else { CountTwo(p.values, slot, g, Sweeps); }
      assert false;
    }
  }

  lemma FittingPointAnswers(p: Program, point: Point)
    requires ValidDefinitions(p.values) && ReportedBindings(p) && SweepShape(p) && PointFits(p, point)
    ensures Answerable(p.values, point)
  {
    MeasureCountIsCount(p.values);
    forall slot | 0 <= slot < |p.values| && p.values[slot].definition.SweepValue?
      ensures CoordinateOf(point.coordinates, p.values[slot].definition.axis).Some?
    {
      var i := SweepDefinitionsDeclared(p, slot);
      CoordinateFound(point.coordinates, i);
    }
  }

  /** Evaluation of a fully validated program at a fitting point never reads an unfilled slot and
      never takes a wrong alternative, and slot i holds a value of type values[i].typ. */
  lemma TypeSoundness(p: Program, point: Point)
    requires Valid(p) && PointFits(p, point)
    ensures Fold(p.values, point).Some?
    ensures WellTyped(p.values, Fold(p.values, point).value)
  {
    FittingPointAnswers(p, point);
    FoldIsTyped(p.values, point);
  }
}
