/** What each kind of requirement asks of the program itself. */
module RequirementClauses {
  import opened Domain
  import opened Ir
  import opened NormalForms
  import opened Normalizing
  import opened Requirements
  import Comparing
  import MatchedData
  import Thresholds
  import V = Validator

  // ----- The facts, list by list -----

  predicate Text(num: NumberFormat, p: Program, id: ValueId, text: string)
    requires OperandsPrecede(p.values)
  {
    id < |p.values| && text == Render(num, NormOf(num, p.values, id))
  }

  predicate OperandsUpTo(p: Program, n: nat)
    requires n <= |p.assertions|
  {
    forall k :: 0 <= k < n ==> p.assertions[k].left < |p.values| && p.assertions[k].right < |p.values|
  }

  predicate BoundUpTo(p: Program, n: nat)
    requires n <= |p.calibration.indexes|
  {
    forall j :: 0 <= j < n ==> exists i :: 0 <= i < |p.sweeps| && p.sweeps[i].value == p.calibration.indexes[j]
  }

  /** The facts of a program can be projected. */
  predicate Projectable(p: Program) {
    && p.reference < |p.values| && p.values[p.reference].definition.ReferencePower?
    && MatchedData.NamesReadable(p) && OperandsUpTo(p, |p.assertions|)
    && p.calibration.correction < |p.values| && BoundUpTo(p, |p.calibration.indexes|)
  }

  /** The facts describe the program item by item. */
  predicate Describes(num: NumberFormat, p: Program, f: Facts)
    requires OperandsPrecede(p.values)
  {
    && p.reference < |p.values| && p.values[p.reference].definition == ReferencePower(f.referencePower)
    && DescribesSweeps(p, f.sweeps) && DescribesMeasurements(p, f.measurements)
    && DescribesDerived(num, p, f.derived) && DescribesAssertions(num, p, f.assertions)
    && f.calibration.name == p.calibration.name
    && Text(num, p, p.calibration.correction, f.calibration.correction)
    && DescribesIndexes(p, f.calibration.indexes)
  }

  predicate DescribesSweeps(p: Program, sweeps: seq<SweepFact>) {
    && |sweeps| == |p.sweeps|
    && forall i :: 0 <= i < |sweeps| ==>
         && sweeps[i].dimension == p.sweeps[i].dimension && sweeps[i].order == i
         && sweeps[i].start == p.sweeps[i].start && sweeps[i].end == p.sweeps[i].end
         && sweeps[i].step == p.sweeps[i].step && sweeps[i].pointCount == p.sweeps[i].pointCount
  }

  predicate DescribesMeasurements(p: Program, measurements: seq<MeasurementFact>) {
    && |measurements| == |p.measurements|
    && forall i :: 0 <= i < |measurements| ==>
         && measurements[i].name == p.measurements[i].name
         && measurements[i].operation == p.measurements[i].operation
         && measurements[i].typ == p.measurements[i].typ && measurements[i].legacy == p.measurements[i].legacy
  }

  predicate DescribesDerived(num: NumberFormat, p: Program, derived: seq<DerivedFact>)
    requires OperandsPrecede(p.values)
  {
    && |derived| == |p.namedValues|
    && forall i :: 0 <= i < |derived| ==>
         && derived[i].name == p.namedValues[i].name && derived[i].typ == p.namedValues[i].typ
         && Text(num, p, p.namedValues[i].value, derived[i].expression)
  }

  predicate DescribesAssertions(num: NumberFormat, p: Program, assertions: seq<AssertionFact>)
    requires OperandsPrecede(p.values)
  {
    && |assertions| == |p.assertions|
    && forall i :: 0 <= i < |assertions| ==>
         && assertions[i].ordinal == p.assertions[i].ordinal && assertions[i].op == p.assertions[i].op
         && assertions[i].operandType == p.assertions[i].operandType
         && Text(num, p, p.assertions[i].left, assertions[i].left)
         && Text(num, p, p.assertions[i].right, assertions[i].right)
  }

  predicate DescribesIndexes(p: Program, axes: seq<Axis>) {
    && |axes| == |p.calibration.indexes|
    && forall j :: 0 <= j < |axes| ==> MatchedData.IndexIs(p, j, axes[j])
  }

  lemma {:induction false} SweepFactAt(p: Program, n: nat, i: nat)
    requires i < n <= |p.sweeps|
    ensures |SweepFacts(p, n)| == n
    ensures var s := p.sweeps[i];
      SweepFacts(p, n)[i] == SweepFact(s.dimension, s.start, s.end, s.step, s.pointCount, i)
  {
    if i < n - 1 { SweepFactAt(p, n - 1, i); } else if n > 1 { SweepFactAt(p, n - 1, 0); }
  }

  lemma SweepsDescribed(p: Program)
    ensures DescribesSweeps(p, SweepFacts(p, |p.sweeps|))
  {
    if |p.sweeps| > 0 { SweepFactAt(p, |p.sweeps|, 0); }
    forall i | 0 <= i < |p.sweeps| { SweepFactAt(p, |p.sweeps|, i); }
  }

  lemma {:induction false} MeasurementFactAt(p: Program, n: nat, i: nat)
    requires i < n <= |p.measurements|
    ensures |MeasurementFacts(p, n)| == n
    ensures var m := p.measurements[i];
      MeasurementFacts(p, n)[i] == MeasurementFact(m.name, m.operation, m.typ, m.legacy)
  {
    if i < n - 1 { MeasurementFactAt(p, n - 1, i); } else if n > 1 { MeasurementFactAt(p, n - 1, 0); }
  }

  lemma MeasurementsDescribed(p: Program)
    ensures DescribesMeasurements(p, MeasurementFacts(p, |p.measurements|))
  {
    if |p.measurements| > 0 { MeasurementFactAt(p, |p.measurements|, 0); }
    forall i | 0 <= i < |p.measurements| { MeasurementFactAt(p, |p.measurements|, i); }
  }

  lemma {:induction false} DerivedThere(num: NumberFormat, p: Program, n: nat)
    requires OperandsPrecede(p.values) && n <= |p.namedValues|
    ensures DerivedFacts(num, p, n).Some? <==> MatchedData.NamesUpTo(p, n)
    ensures DerivedFacts(num, p, n).Some? ==> |DerivedFacts(num, p, n).value| == n
  {
    if n > 0 {
      MatchedData.NamesStep(p, n);
      DerivedThere(num, p, n - 1);
    }
  }

  lemma {:induction false} DerivedFactAt(num: NumberFormat, p: Program, n: nat, i: nat)
    requires OperandsPrecede(p.values) && i < n <= |p.namedValues| && DerivedFacts(num, p, n).Some?
    ensures i < |DerivedFacts(num, p, n).value|
    ensures var d, named := DerivedFacts(num, p, n).value[i], p.namedValues[i];
      d.name == named.name && d.typ == named.typ && Text(num, p, named.value, d.expression)
  {
    DerivedThere(num, p, n);
    DerivedThere(num, p, n - 1);
    if i < n - 1 { DerivedFactAt(num, p, n - 1, i); }
  }

  lemma DerivedDescribed(num: NumberFormat, p: Program)
    requires OperandsPrecede(p.values) && DerivedFacts(num, p, |p.namedValues|).Some?
    ensures DescribesDerived(num, p, DerivedFacts(num, p, |p.namedValues|).value)
  {
    DerivedThere(num, p, |p.namedValues|);
    forall i | 0 <= i < |p.namedValues| { DerivedFactAt(num, p, |p.namedValues|, i); }
  }

  lemma OperandsStep(p: Program, n: nat)
    requires 0 < n <= |p.assertions|
    ensures OperandsUpTo(p, n) <==>
      OperandsUpTo(p, n - 1) && p.assertions[n - 1].left < |p.values| && p.assertions[n - 1].right < |p.values|
  {
  }

  lemma {:induction false} AssertionsThere(num: NumberFormat, p: Program, n: nat)
    requires OperandsPrecede(p.values) && n <= |p.assertions|
    ensures AssertionFacts(num, p, n).Some? <==> OperandsUpTo(p, n)
    ensures AssertionFacts(num, p, n).Some? ==> |AssertionFacts(num, p, n).value| == n
  {
    if n > 0 {
      OperandsStep(p, n);
      AssertionsThere(num, p, n - 1);
    }
  }

  lemma {:induction false} AssertionFactAt(num: NumberFormat, p: Program, n: nat, i: nat)
    requires OperandsPrecede(p.values) && i < n <= |p.assertions| && AssertionFacts(num, p, n).Some?
    ensures i < |AssertionFacts(num, p, n).value|
    ensures var a, f := p.assertions[i], AssertionFacts(num, p, n).value[i];
      && f.ordinal == a.ordinal && f.op == a.op && f.operandType == a.operandType
      && Text(num, p, a.left, f.left) && Text(num, p, a.right, f.right)
  {
    AssertionsThere(num, p, n);
    AssertionsThere(num, p, n - 1);
    if i < n - 1 { AssertionFactAt(num, p, n - 1, i); }
  }

  lemma AssertionsDescribed(num: NumberFormat, p: Program)
    requires OperandsPrecede(p.values) && AssertionFacts(num, p, |p.assertions|).Some?
    ensures DescribesAssertions(num, p, AssertionFacts(num, p, |p.assertions|).value)
  {
    AssertionsThere(num, p, |p.assertions|);
    forall i | 0 <= i < |p.assertions| { AssertionFactAt(num, p, |p.assertions|, i); }
  }

  lemma BoundIsFound(p: Program, j: nat)
    requires j < |p.calibration.indexes|
    ensures Comparing.SweepAt(p.sweeps, p.calibration.indexes[j]).Some? <==>
      exists i :: 0 <= i < |p.sweeps| && p.sweeps[i].value == p.calibration.indexes[j]
  {
    var i := MatchedData.SweepAtIsFirst(p.sweeps, p.calibration.indexes[j]);
  }

  lemma BoundStep(p: Program, n: nat)
    requires 0 < n <= |p.calibration.indexes|
    ensures BoundUpTo(p, n) <==>
      BoundUpTo(p, n - 1) && Comparing.SweepAt(p.sweeps, p.calibration.indexes[n - 1]).Some?
  {
    BoundIsFound(p, n - 1);
  }

  lemma {:induction false} IndexesThere(p: Program, n: nat)
    requires n <= |p.calibration.indexes|
    ensures IndexFacts(p, n).Some? <==> BoundUpTo(p, n)
    ensures IndexFacts(p, n).Some? ==> |IndexFacts(p, n).value| == n
  {
    if n > 0 {
      BoundStep(p, n);
      IndexesThere(p, n - 1);
    }
  }

  lemma {:induction false} IndexFactAt(p: Program, n: nat, j: nat)
    requires j < n <= |p.calibration.indexes| && IndexFacts(p, n).Some?
    ensures j < |IndexFacts(p, n).value| && MatchedData.IndexIs(p, j, IndexFacts(p, n).value[j])
  {
    IndexesThere(p, n);
    IndexesThere(p, n - 1);
    if j < n - 1 {
      IndexFactAt(p, n - 1, j);
    } else {
      MatchedData.IndexIsFound(p, j, IndexFacts(p, n).value[j]);
    }
  }

  lemma IndexesDescribed(p: Program)
    requires IndexFacts(p, |p.calibration.indexes|).Some?
    ensures DescribesIndexes(p, IndexFacts(p, |p.calibration.indexes|).value)
  {
    IndexesThere(p, |p.calibration.indexes|);
    forall j | 0 <= j < |p.calibration.indexes| { IndexFactAt(p, |p.calibration.indexes|, j); }
  }

  /** The facts are projected exactly where everything they read is there, and describe the program. */
  lemma FactsDescribeProgram(num: NumberFormat, p: Program)
    requires OperandsPrecede(p.values)
    ensures FactsOf(num, p).Some? <==> Projectable(p)
    ensures FactsOf(num, p).Some? ==> Describes(num, p, FactsOf(num, p).value)
  {
    DerivedThere(num, p, |p.namedValues|);
    AssertionsThere(num, p, |p.assertions|);
    IndexesThere(p, |p.calibration.indexes|);
    if FactsOf(num, p).Some? {
      SweepsDescribed(p);
      MeasurementsDescribed(p);
      DerivedDescribed(num, p);
      AssertionsDescribed(num, p);
      IndexesDescribed(p);
    }
  }

  // ----- The clauses -----

  /** The clause carries the typed field its kind is checked by. */
  predicate Complete(r: Requirement) {
    match r.kind
    case ReferencePowerKind => r.referencePower.Some?
    case SweepKind => r.sweep.Some?
    case MeasurementKind => r.measurement.Some?
    case AssertionKind => r.assertion.Some?
    case CalibrationKind => r.calibration.Some?
  }

  /** The program's reference slot holds that power. */
  predicate ReferenceIs(p: Program, dbm: real) {
    p.reference < |p.values| && p.values[p.reference].definition == ReferencePower(dbm)
  }

  predicate FirstSweep(p: Program, axis: Axis, i: nat) {
    i < |p.sweeps| && p.sweeps[i].dimension == axis && forall k :: 0 <= k < i ==> p.sweeps[k].dimension != axis
  }

  /** The first sweep of the axis has the bounds, the step and the position that are asked for. */
  predicate SweepIs(p: Program, r: Requirement, i: nat)
    requires r.sweep.Some?
  {
    var asked := r.sweep.value;
    && FirstSweep(p, asked.dimension, i)
    && (r.constrainSweepBounds ==> p.sweeps[i].start == asked.start && p.sweeps[i].end == asked.end)
    && (r.constrainSweepStep ==> p.sweeps[i].step == asked.step)
    && (r.constrainSweepOrder ==> i == asked.order)
  }

  predicate FirstMeasurement(p: Program, op: MeasurementOperation, i: nat) {
    && i < |p.measurements| && p.measurements[i].operation == op
    && forall k :: 0 <= k < i ==> p.measurements[k].operation != op
  }

  predicate MeasurementIs(p: Program, r: Requirement, i: nat)
    requires r.measurement.Some?
  {
    && FirstMeasurement(p, r.measurement.value.operation, i)
    && (r.constrainMeasurementName ==> p.measurements[i].name == r.measurement.value.name)
  }

  /** The part occurs in the text. */
  predicate Occurs(text: string, part: string) {
    exists i: nat :: i <= |text| && part <= text[i..]
  }

  /** The assertion makes the comparison asked for. A left side that is not fixed must still take an
      absolute value where one is asked for. */
  predicate AssertionIs(num: NumberFormat, p: Program, r: Requirement, i: nat)
    requires OperandsPrecede(p.values) && r.assertion.Some?
  {
    var asked := r.assertion.value;
    && i < |p.assertions| && p.assertions[i].op == asked.op && p.assertions[i].operandType == asked.operandType
    && Text(num, p, p.assertions[i].right, asked.right)
    && p.assertions[i].left < |p.values|
    && var left := Render(num, NormOf(num, p.values, p.assertions[i].left));
       if r.constrainAssertionLeft then left == asked.left
       else asked.left == "absolute" ==> Occurs(left, "absolute(")
  }

  /** The correction is the relation asked for, or has the text asked for, and the calibration lists
      the axes asked for in their order. */
  ghost predicate CalibrationIs(num: NumberFormat, p: Program, r: Requirement)
    requires OperandsPrecede(p.values) && Projectable(p) && r.calibration.Some?
  {
    var asked := r.calibration.value;
    && (r.constrainCorrection ==>
          if r.relation.Some? then CorrectionIs(num, p, r.relation.value, p.values[p.reference].definition.dbm)
          else Text(num, p, p.calibration.correction, asked.correction))
    && (r.constrainIndexes ==> DescribesIndexes(p, asked.indexes))
  }

  /** What a complete clause asks of the program. */
  ghost predicate Met(num: NumberFormat, p: Program, r: Requirement)
    requires OperandsPrecede(p.values) && Projectable(p) && Complete(r)
  {
    match r.kind
    case ReferencePowerKind => ReferenceIs(p, r.referencePower.value)
    case SweepKind => exists i: nat :: SweepIs(p, r, i)
    case MeasurementKind => exists i: nat :: MeasurementIs(p, r, i)
    case AssertionKind => exists i: nat :: AssertionIs(num, p, r, i)
    case CalibrationKind => CalibrationIs(num, p, r)
  }

  // ----- Searches -----

  lemma {:induction false} SweepOfIsFirst(sweeps: seq<SweepFact>, axis: Axis) returns (i: nat)
    ensures SweepOf(sweeps, axis).Some? <==> exists k :: 0 <= k < |sweeps| && sweeps[k].dimension == axis
    ensures SweepOf(sweeps, axis).Some? ==>
      && i < |sweeps| && SweepOf(sweeps, axis).value == sweeps[i] && sweeps[i].dimension == axis
      && forall k :: 0 <= k < i ==> sweeps[k].dimension != axis
  {
    i := 0;
    if |sweeps| > 0 && sweeps[0].dimension != axis {
      var rest := sweeps[1..];
      i := SweepOfIsFirst(rest, axis);
      assert forall k :: 0 <= k < |rest| ==> rest[k] == sweeps[k + 1];
      if k :| 0 <= k < |sweeps| && sweeps[k].dimension == axis { assert rest[k - 1].dimension == axis; }
      i := i + 1;
    }
  }

  lemma {:induction false} MeasurementOfIsFirst(list: seq<MeasurementFact>, op: MeasurementOperation) returns (i: nat)
    ensures MeasurementOf(list, op).Some? <==> exists k :: 0 <= k < |list| && list[k].operation == op
    ensures MeasurementOf(list, op).Some? ==>
      && i < |list| && MeasurementOf(list, op).value == list[i] && list[i].operation == op
      && forall k :: 0 <= k < i ==> list[k].operation != op
  {
    i := 0;
    if |list| > 0 && list[0].operation != op {
      var rest := list[1..];
      i := MeasurementOfIsFirst(rest, op);
      assert forall k :: 0 <= k < |rest| ==> rest[k] == list[k + 1];
      if k :| 0 <= k < |list| && list[k].operation == op { assert rest[k - 1].operation == op; }
      i := i + 1;
    }
  }

  lemma {:induction false} ContainsIsExact(text: string, part: string)
    ensures Contains(text, part) <==> Occurs(text, part)
  {
    if part <= text {
      assert part <= text[0..];
    } else if |text| > 0 {
      var rest := text[1..];
      ContainsIsExact(rest, part);
      if Occurs(text, part) {
        var i: nat :| i <= |text| && part <= text[i..];
        assert text[0..] == text;
        assert rest[i - 1..] == text[i..];
      }
      if Occurs(rest, part) {
        var i: nat :| i <= |rest| && part <= rest[i..];
        assert text[i + 1..] == rest[i..];
      }
    }
  }

  // ----- Each kind is exact -----

  lemma SweepClauseIsExact(p: Program, r: Requirement, f: Facts)
    requires r.sweep.Some? && DescribesSweeps(p, f.sweeps)
    ensures SweepMatches(r, r.sweep.value, f) <==> exists i: nat :: SweepIs(p, r, i)
  {
    var axis := r.sweep.value.dimension;
    var first := SweepOfIsFirst(f.sweeps, axis);
    if SweepMatches(r, r.sweep.value, f) { assert SweepIs(p, r, first); }
    if i: nat :| SweepIs(p, r, i) {
      assert f.sweeps[i].dimension == axis;
      assert i == first;
    }
  }

  lemma MeasurementClauseIsExact(p: Program, r: Requirement, f: Facts)
    requires r.measurement.Some? && DescribesMeasurements(p, f.measurements)
    ensures MeasurementMatches(r, r.measurement.value, f) <==> exists i: nat :: MeasurementIs(p, r, i)
  {
    var op := r.measurement.value.operation;
    var first := MeasurementOfIsFirst(f.measurements, op);
    if MeasurementMatches(r, r.measurement.value, f) { assert MeasurementIs(p, r, first); }
    if i: nat :| MeasurementIs(p, r, i) {
      assert f.measurements[i].operation == op;
      assert i == first;
    }
  }

  lemma AssertionMatchIsExact(num: NumberFormat, p: Program, r: Requirement, f: Facts, i: nat)
    requires OperandsPrecede(p.values) && r.assertion.Some? && DescribesAssertions(num, p, f.assertions)
    requires i < |p.assertions|
    ensures AssertionMatches(r, r.assertion.value, f.assertions[i]) <==> AssertionIs(num, p, r, i)
  {
    ContainsIsExact(f.assertions[i].left, "absolute(");
  }

  lemma AssertionClauseIsExact(num: NumberFormat, p: Program, r: Requirement, f: Facts)
    requires OperandsPrecede(p.values) && r.assertion.Some? && DescribesAssertions(num, p, f.assertions)
    ensures (exists a <- f.assertions :: AssertionMatches(r, r.assertion.value, a)) <==>
      exists i: nat :: AssertionIs(num, p, r, i)
  {
    forall i | 0 <= i < |p.assertions|
      ensures AssertionMatches(r, r.assertion.value, f.assertions[i]) <==> AssertionIs(num, p, r, i)
    {
      AssertionMatchIsExact(num, p, r, f, i);
    }
    Thresholds.SomeFact(f.assertions, a => AssertionMatches(r, r.assertion.value, a));
  }

  lemma IndexIsOne(p: Program, j: nat, a: Axis, b: Axis)
    requires j < |p.calibration.indexes| && MatchedData.IndexIs(p, j, a)
    ensures MatchedData.IndexIs(p, j, b) <==> a == b
  {
    MatchedData.IndexIsFound(p, j, a);
    MatchedData.IndexIsFound(p, j, b);
  }

  lemma AxesAreOne(p: Program, a: seq<Axis>, b: seq<Axis>)
    requires DescribesIndexes(p, a)
    ensures DescribesIndexes(p, b) <==> a == b
  {
    if |a| == |b| {
      forall j | 0 <= j < |a| ensures MatchedData.IndexIs(p, j, b[j]) <==> a[j] == b[j] {
        IndexIsOne(p, j, a[j], b[j]);
      }
      assert a == b <==> forall j :: 0 <= j < |a| ==> a[j] == b[j];
    }
  }

  lemma ReferenceIsWritable(num: NumberFormat, p: Program)
    requires Faithful(num, p.values)
    requires p.reference < |p.values| && p.values[p.reference].definition.ReferencePower?
    ensures p.values[p.reference].definition.dbm in num.numbers
  {
    assert p.values[p.reference] in p.values;
  }

  lemma CalibrationClauseIsExact(num: NumberFormat, p: Program, r: Requirement, f: Facts)
    requires Faithful(num, p.values) && V.Valid(p) && OperandsPrecede(p.values) && Projectable(p)
    requires r.calibration.Some? && Describes(num, p, f)
    ensures CalibrationMatches(num, r, r.calibration.value, f) <==> CalibrationIs(num, p, r)
  {
    AxesAreOne(p, f.calibration.indexes, r.calibration.value.indexes);
    ReferenceIsWritable(num, p);
    if r.relation.Some? { RelationIsExact(num, p, r.relation.value, f.referencePower); }
  }

  // ----- The theorem -----

  ghost predicate Judged(num: NumberFormat, p: Program, r: Requirement, f: Facts)
    requires OperandsPrecede(p.values) && Projectable(p)
  {
    Verify(num, r, f) == if !Complete(r) then Unknown else if Met(num, p, r) then Satisfied else Violated
  }

  lemma SweepJudged(num: NumberFormat, p: Program, r: Requirement, f: Facts)
    requires OperandsPrecede(p.values) && Projectable(p) && DescribesSweeps(p, f.sweeps) && r.kind == SweepKind
    ensures Judged(num, p, r, f)
  {
    if r.sweep.Some? {
      SweepClauseIsExact(p, r, f);
      assert Met(num, p, r) <==> exists i: nat :: SweepIs(p, r, i);
    }
  }

  lemma MeasurementJudged(num: NumberFormat, p: Program, r: Requirement, f: Facts)
    requires OperandsPrecede(p.values) && Projectable(p) && DescribesMeasurements(p, f.measurements)
    requires r.kind == MeasurementKind
    ensures Judged(num, p, r, f)
  {
    if r.measurement.Some? {
      MeasurementClauseIsExact(p, r, f);
      assert Met(num, p, r) <==> exists i: nat :: MeasurementIs(p, r, i);
    }
  }

  lemma AssertionJudged(num: NumberFormat, p: Program, r: Requirement, f: Facts)
    requires OperandsPrecede(p.values) && Projectable(p) && DescribesAssertions(num, p, f.assertions)
    requires r.kind == AssertionKind
    ensures Judged(num, p, r, f)
  {
    if r.assertion.Some? {
      AssertionClauseIsExact(num, p, r, f);
      assert Met(num, p, r) <==> exists i: nat :: AssertionIs(num, p, r, i);
    }
  }

  lemma CalibrationJudged(num: NumberFormat, p: Program, r: Requirement, f: Facts)
    requires Faithful(num, p.values) && V.Valid(p) && OperandsPrecede(p.values) && Projectable(p)
    requires Describes(num, p, f) && r.kind == CalibrationKind
    ensures Judged(num, p, r, f)
  {
    if r.calibration.Some? {
      CalibrationClauseIsExact(num, p, r, f);
      assert Met(num, p, r) <==> CalibrationIs(num, p, r);
    }
  }

  /** A clause stays unknown exactly when it lacks the typed field of its kind; otherwise it is
      satisfied exactly when the program meets what it asks, and violated exactly when not. */
  lemma ClausesAreExact(num: NumberFormat, p: Program, r: Requirement)
    requires Faithful(num, p.values) && V.Valid(p) && OperandsPrecede(p.values) && FactsOf(num, p).Some?
    ensures Projectable(p)
    ensures Verify(num, r, FactsOf(num, p).value) ==
      if !Complete(r) then Unknown else if Met(num, p, r) then Satisfied else Violated
  {
    FactsDescribeProgram(num, p);
    ClauseJudged(num, p, r, FactsOf(num, p).value);
  }

  lemma ClauseJudged(num: NumberFormat, p: Program, r: Requirement, f: Facts)
    requires Faithful(num, p.values) && V.Valid(p) && OperandsPrecede(p.values) && Projectable(p)
    requires Describes(num, p, f)
    ensures Judged(num, p, r, f)
  {
    match r.kind
    case ReferencePowerKind =>
    case SweepKind => SweepJudged(num, p, r, f);
    case MeasurementKind => MeasurementJudged(num, p, r, f);
    case AssertionKind => AssertionJudged(num, p, r, f);
    case CalibrationKind => CalibrationJudged(num, p, r, f);
  }
}
