/** Comparison of two programs by what can be observed of them. */
module Comparing {
  import opened Domain
  import opened Text
  import opened Ir
  import opened Sorting
  import opened NormalForms
  import opened Normalizing
  import V = Validator

  datatype SweepKey = SweepKey(dimension: Axis, start: Scalar, end: Scalar, step: Scalar, pointCount: nat)

  /** Everything the comparison looks at. */
  datatype Observable = Observable(
    reference: string, sweeps: seq<SweepKey>, measurements: seq<string>, named: seq<string>,
    assertions: seq<string>, indexes: seq<string>, correctionType: ValueType, correction: string)

  function KeyOf(s: TypedSweep): SweepKey {
    SweepKey(s.dimension, s.start, s.end, s.step, s.pointCount)
  }

  function SweepKeys(p: Program): (keys: seq<SweepKey>)
    ensures |keys| == |p.sweeps| && forall i :: 0 <= i < |p.sweeps| ==> keys[i] == KeyOf(p.sweeps[i])
  {
    seq(|p.sweeps|, i requires 0 <= i < |p.sweeps| => KeyOf(p.sweeps[i]))
  }

  function MeasurementText(m: Measurement): string {
    OperationName(m.operation) + ":" + TypeName(m.typ)
  }

  function MeasurementTexts(p: Program, n: nat): seq<string>
    requires n <= |p.measurements|
  {
    if n == 0 then [] else MeasurementTexts(p, n - 1) + [MeasurementText(p.measurements[n - 1])]
  }

  function NamedTexts(num: NumberFormat, p: Program, n: nat): Option<seq<string>>
    requires OperandsPrecede(p.values) && n <= |p.namedValues|
  {
    if n == 0 then Some([])
    else
      var before, named := NamedTexts(num, p, n - 1), p.namedValues[n - 1];
      var text := Identity(num, p.values, named.value);
      if before.None? || text.None? then None else Some(before.value + [TypeName(named.typ) + ":" + text.value])
  }

  function AssertionTexts(num: NumberFormat, p: Program, n: nat): (texts: Option<seq<string>>)
    requires OperandsPrecede(p.values) && n <= |p.assertions|
    ensures texts.Some? ==> |texts.value| == n && forall i :: 0 <= i < n ==>
      Identity(num, p.values, p.assertions[i].value) == Some(texts.value[i])
  {
    if n == 0 then Some([])
    else
      var before, text := AssertionTexts(num, p, n - 1), Identity(num, p.values, p.assertions[n - 1].value);
      if before.None? || text.None? then None else Some(before.value + [text.value])
  }

  /** The first sweep bound to a value. */
  function SweepAt(sweeps: seq<TypedSweep>, value: ValueId): Option<TypedSweep> {
    if |sweeps| == 0 then None
    else if sweeps[0].value == value then Some(sweeps[0])
    else SweepAt(sweeps[1..], value)
  }

  function IndexTexts(p: Program, n: nat): Option<seq<string>>
    requires n <= |p.calibration.indexes|
  {
    if n == 0 then Some([])
    else
      var before, sweep := IndexTexts(p, n - 1), SweepAt(p.sweeps, p.calibration.indexes[n - 1]);
      if before.None? || sweep.None? || n > |p.calibration.indexTypes| then None
      else Some(before.value + [AxisName(sweep.value.dimension) + ":" + TypeName(p.calibration.indexTypes[n - 1])])
  }

  function ObservableOf(num: NumberFormat, p: Program): Option<Observable>
    requires OperandsPrecede(p.values)
  {
    var reference, correction := Identity(num, p.values, p.reference),
      Identity(num, p.values, p.calibration.correction);
    var named, assertions, indexes :=
      NamedTexts(num, p, |p.namedValues|), AssertionTexts(num, p, |p.assertions|),
        IndexTexts(p, |p.calibration.indexes|);
    if reference.None? || correction.None? || named.None? || assertions.None? || indexes.None? then None
    else Some(Observable(
      reference.value, SweepKeys(p), Sort(MeasurementTexts(p, |p.measurements|)), Sort(named.value),
      Sort(assertions.value), indexes.value, p.calibration.correctionType, correction.value))
  }

  // ----- The procedure -----

  datatype Status = Match | Mismatch | NotEvaluated

  method NormalizedMeasurements(p: Program) returns (texts: seq<string>)
    ensures texts == Sort(MeasurementTexts(p, |p.measurements|))
  {
    texts := [];
    for i := 0 to |p.measurements|
      invariant texts == MeasurementTexts(p, i)
    {
      texts := texts + [MeasurementText(p.measurements[i])];
    }
    texts := Sort(texts);
  }

  method NormalizedNamedValues(num: NumberFormat, p: Program) returns (texts: Option<seq<string>>)
    requires OperandsPrecede(p.values)
    ensures var all := NamedTexts(num, p, |p.namedValues|);
      texts == if all.None? then None else Some(Sort(all.value))
  {
    var list: seq<string> := [];
    for i := 0 to |p.namedValues|
      invariant NamedTexts(num, p, i) == Some(list)
    {
      var text := NormalizeExpression(p.values, num, p.namedValues[i].value);
      if text.None? {
        NamedTextsStop(num, p, i + 1, |p.namedValues|);
        return None;
      }
      list := list + [TypeName(p.namedValues[i].typ) + ":" + text.value];
    }
    texts := Some(Sort(list));
  }

  lemma {:induction false} NamedTextsStop(num: NumberFormat, p: Program, m: nat, n: nat)
    requires OperandsPrecede(p.values) && m <= n <= |p.namedValues| && NamedTexts(num, p, m).None?
    ensures NamedTexts(num, p, n).None?
    decreases n
  {
    if m < n { NamedTextsStop(num, p, m, n - 1); }
  }

  method NormalizedAssertions(num: NumberFormat, p: Program) returns (texts: Option<seq<string>>)
    requires OperandsPrecede(p.values)
    ensures var all := AssertionTexts(num, p, |p.assertions|);
      texts == if all.None? then None else Some(Sort(all.value))
  {
    var list: seq<string> := [];
    for i := 0 to |p.assertions|
      invariant AssertionTexts(num, p, i) == Some(list)
    {
      var text := NormalizeExpression(p.values, num, p.assertions[i].value);
      if text.None? {
        AssertionTextsStop(num, p, i + 1, |p.assertions|);
        return None;
      }
      list := list + [text.value];
    }
    texts := Some(Sort(list));
  }

  lemma {:induction false} AssertionTextsStop(num: NumberFormat, p: Program, m: nat, n: nat)
    requires OperandsPrecede(p.values) && m <= n <= |p.assertions| && AssertionTexts(num, p, m).None?
    ensures AssertionTexts(num, p, n).None?
    decreases n
  {
    if m < n { AssertionTextsStop(num, p, m, n - 1); }
  }

  method FindSweep(sweeps: seq<TypedSweep>, value: ValueId) returns (found: Option<TypedSweep>)
    ensures found == SweepAt(sweeps, value)
  {
    assert sweeps[0..] == sweeps;
    for i := 0 to |sweeps|
      invariant SweepAt(sweeps, value) == SweepAt(sweeps[i..], value)
    {
      assert sweeps[i..][1..] == sweeps[i + 1..];
      if sweeps[i].value == value { return Some(sweeps[i]); }
    }
    found := None;
  }

  method CalibrationIndexes(p: Program) returns (texts: Option<seq<string>>)
    ensures texts == IndexTexts(p, |p.calibration.indexes|)
  {
    var list: seq<string> := [];
    for i := 0 to |p.calibration.indexes|
      invariant IndexTexts(p, i) == Some(list)
    {
      var sweep := FindSweep(p.sweeps, p.calibration.indexes[i]);
      if sweep.None? || i >= |p.calibration.indexTypes| {
        IndexTextsStop(p, i + 1, |p.calibration.indexes|);
        return None;
      }
      list := list + [AxisName(sweep.value.dimension) + ":" + TypeName(p.calibration.indexTypes[i])];
    }
    texts := Some(list);
  }

  lemma {:induction false} IndexTextsStop(p: Program, m: nat, n: nat)
    requires m <= n <= |p.calibration.indexes| && IndexTexts(p, m).None?
    ensures IndexTexts(p, n).None?
    decreases n
  {
    if m < n { IndexTextsStop(p, m, n - 1); }
  }

  /** The path of a sweep or of a part of it. */
  predicate SweepPath(path: string) {
    |path| > 6 && path[0] == 's' && path[6] == '['
  }

  /** The paths at which two sweeps differ, added to the differences. */
  method CompareSweep(differences: seq<string>, path: string, e: TypedSweep, a: TypedSweep) returns (after: seq<string>)
    requires SweepPath(path)
    ensures differences <= after && (after == differences <==> KeyOf(e) == KeyOf(a))
    ensures forall d <- after :: d in differences || SweepPath(d)
  {
    after := differences;
    if e.dimension != a.dimension { after := after + [path + ".dimension"]; }
    if e.start != a.start { after := after + [path + ".start"]; }
    if e.end != a.end { after := after + [path + ".end"]; }
    if e.step != a.step { after := after + [path + ".step"]; }
    if e.pointCount != a.pointCount { after := after + [path + ".point_count"]; }
  }

  method CompareSweeps(expected: Program, actual: Program) returns (differences: seq<string>)
    ensures differences == [] <==> SweepKeys(expected) == SweepKeys(actual)
    ensures "sweeps.count" in differences <==> |expected.sweeps| != |actual.sweeps|
    ensures forall d <- differences :: |d| > 0 && d[0] == 's'
  {
    differences := [];
    if |expected.sweeps| != |actual.sweeps| { differences := ["sweeps.count"]; }
    var count := if |expected.sweeps| < |actual.sweeps| then |expected.sweeps| else |actual.sweeps|;
    for i := 0 to count
      invariant differences == [] <==>
        |expected.sweeps| == |actual.sweeps| &&
        forall k :: 0 <= k < i ==> KeyOf(expected.sweeps[k]) == KeyOf(actual.sweeps[k])
      invariant "sweeps.count" in differences <==> |expected.sweeps| != |actual.sweeps|
      invariant forall d <- differences :: d == "sweeps.count" || SweepPath(d)
    {
      differences := CompareSweep(differences, "sweeps[" + Decimal(i) + "]", expected.sweeps[i], actual.sweeps[i]);
    }
    KeysAgree(expected, actual);
  }

  lemma KeysAgree(p: Program, q: Program)
    ensures SweepKeys(p) == SweepKeys(q) <==>
      |p.sweeps| == |q.sweeps| && forall k :: 0 <= k < |p.sweeps| ==> KeyOf(p.sweeps[k]) == KeyOf(q.sweeps[k])
  {
    if |p.sweeps| == |q.sweeps| {
      assert forall k :: 0 <= k < |p.sweeps| ==>
        SweepKeys(p)[k] == KeyOf(p.sweeps[k]) && SweepKeys(q)[k] == KeyOf(q.sweeps[k]);
    }
  }

  /** The paths of the parts other than the sweeps, in the order of the comparison. */
  const PARTS := ["reference", "measurements", "derived_values", "assertions", "calibration.indexes",
                  "calibration.correction_type", "calibration.correction"]

  lemma PartsDiffer()
    ensures forall i, j :: 0 <= i < j < |PARTS| ==> PARTS[i] != PARTS[j]
    ensures forall i :: 0 <= i < |PARTS| ==> |PARTS[i]| > 0 && PARTS[i][0] != 's'
  {
    var lengths := [9, 12, 14, 10, 19, 27, 22];
    assert |PARTS| == 7;
    assert forall i :: 0 <= i < 7 ==> |PARTS[i]| == lengths[i];
  }

  /** Each part is named exactly where two observations differ in it. */
  predicate NamesParts(e: Observable, a: Observable, parts: seq<string>, differences: seq<string>)
    requires |parts| == 7
  {
    && (parts[0] in differences <==> e.reference != a.reference)
    && (parts[1] in differences <==> e.measurements != a.measurements)
    && (parts[2] in differences <==> e.named != a.named)
    && (parts[3] in differences <==> e.assertions != a.assertions)
    && (parts[4] in differences <==> e.indexes != a.indexes)
    && (parts[5] in differences <==> e.correctionType != a.correctionType)
    && (parts[6] in differences <==> e.correction != a.correction)
  }

  /** The reference comes before the sweeps. */
  method AddReference(sweeps: seq<string>, path: string, differs: bool) returns (after: seq<string>)
    requires path !in sweeps
    ensures path in after <==> differs
    ensures forall d :: d != path ==> (d in after <==> d in sweeps)
    ensures after == [] <==> sweeps == [] && !differs
  {
    after := if differs then [path] + sweeps else sweeps;
  }

  /** A path other than the sweeps' own, added where the part differs. */
  method AddDifference(differences: seq<string>, path: string, differs: bool) returns (after: seq<string>)
    requires path !in differences
    ensures path in after <==> differs
    ensures forall d :: d != path ==> (d in after <==> d in differences)
    ensures after == [] <==> differences == [] && !differs
  {
    after := if differs then differences + [path] else differences;
  }

  /** Lists the parts in which two observations differ, with the paths of their sweeps. */
  method AddParts(sweeps: seq<string>, parts: seq<string>, e: Observable, a: Observable)
    returns (differences: seq<string>)
    requires |parts| == 7 && forall i, j :: 0 <= i < j < 7 ==> parts[i] != parts[j]
    requires forall i :: 0 <= i < 7 ==> parts[i] !in sweeps
    requires sweeps == [] <==> e.sweeps == a.sweeps
    ensures NamesParts(e, a, parts, differences) && (differences == [] <==> e == a)
    ensures forall d :: d !in parts ==> (d in differences <==> d in sweeps)
  {
    differences := AddReference(sweeps, parts[0], e.reference != a.reference);
    differences := AddDifference(differences, parts[1], e.measurements != a.measurements);
    differences := AddDifference(differences, parts[2], e.named != a.named);
    differences := AddDifference(differences, parts[3], e.assertions != a.assertions);
    differences := AddDifference(differences, parts[4], e.indexes != a.indexes);
    differences := AddDifference(differences, parts[5], e.correctionType != a.correctionType);
    differences := AddDifference(differences, parts[6], e.correction != a.correction);
  }

  /** Two programs match exactly when everything observed of them is there and is the same; otherwise
      the parts that differ are named. */
  method ComparePrograms(num: NumberFormat, expected: Program, actual: Program)
    returns (status: Status, differences: seq<string>)
    requires OperandsPrecede(expected.values) && OperandsPrecede(actual.values)
    ensures var e, a := ObservableOf(num, expected), ObservableOf(num, actual);
      && (status == NotEvaluated <==> e.None? || a.None?)
      && (status == Match <==> e.Some? && e == a)
    ensures status == Match <==> differences == []
    ensures status != NotEvaluated ==>
      && NamesParts(ObservableOf(num, expected).value, ObservableOf(num, actual).value, PARTS, differences)
      && ("sweeps.count" in differences <==> |expected.sweeps| != |actual.sweeps|)
  {
    var expectedReference := NormalizeExpression(expected.values, num, expected.reference);
    var actualReference := NormalizeExpression(actual.values, num, actual.reference);
    if expectedReference.None? || actualReference.None? { return NotEvaluated, ["reference"]; }
    var expectedNamed := NormalizedNamedValues(num, expected);
    var actualNamed := NormalizedNamedValues(num, actual);
    var expectedAssertions := NormalizedAssertions(num, expected);
    var actualAssertions := NormalizedAssertions(num, actual);
    var expectedIndexes := CalibrationIndexes(expected);
    var actualIndexes := CalibrationIndexes(actual);
    var expectedCorrection := NormalizeExpression(expected.values, num, expected.calibration.correction);
    var actualCorrection := NormalizeExpression(actual.values, num, actual.calibration.correction);
    var expectedMeasurements := NormalizedMeasurements(expected);
    var actualMeasurements := NormalizedMeasurements(actual);
    var sweeps := CompareSweeps(expected, actual);
    if expectedNamed.None? || actualNamed.None? || expectedAssertions.None? || actualAssertions.None?
       || expectedIndexes.None? || actualIndexes.None? || expectedCorrection.None? || actualCorrection.None? {
      return NotEvaluated, ["expressions"];
    }
    PartsDiffer();
    forall i | 0 <= i < |PARTS| ensures PARTS[i] !in sweeps { assert PARTS[i][0] != 's'; }
    assert "sweeps.count"[0] == 's' && "sweeps.count" !in PARTS;
    differences := AddParts(
      sweeps, PARTS,
      Observable(expectedReference.value, SweepKeys(expected), expectedMeasurements, expectedNamed.value,
                 expectedAssertions.value, expectedIndexes.value, expected.calibration.correctionType,
                 expectedCorrection.value),
      Observable(actualReference.value, SweepKeys(actual), actualMeasurements, actualNamed.value,
                 actualAssertions.value, actualIndexes.value, actual.calibration.correctionType,
                 actualCorrection.value));
    status := if differences == [] then Match else Mismatch;
  }
}
