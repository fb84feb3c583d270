/** A match is exact: it is answered for the programs that agree in what they declare. */
module MatchedData {
  import opened Domain
  import opened Points
  import opened Ir
  import opened Evaluator
  import opened Soundness
  import opened Sorting
  import opened NormalForms
  import opened Normalizing
  import opened NormalSemantics
  import opened Comparing
  import opened Matching
  import V = Validator

  // ----- The data, before any of it is printed or sorted -----

  predicate Readable(p: Program, id: ValueId) {
    id < |p.values|
  }

  predicate NamesReadable(p: Program) {
    forall k :: 0 <= k < |p.namedValues| ==> Readable(p, p.namedValues[k].value)
  }

  predicate AssertionsReadable(p: Program) {
    forall k :: 0 <= k < |p.assertions| ==> Readable(p, p.assertions[k].value)
  }

  /** The axis a calibration index stands for: that of the first sweep bound to the slot. */
  predicate IndexIs(p: Program, j: nat, axis: Axis)
    requires j < |p.calibration.indexes|
  {
    exists i :: 0 <= i < |p.sweeps| && p.sweeps[i].value == p.calibration.indexes[j] && p.sweeps[i].dimension == axis
      && forall k :: 0 <= k < i ==> p.sweeps[k].value != p.calibration.indexes[j]
  }

  /** Every index has its type and stands for a sweep. */
  predicate IndexesBound(p: Program) {
    && |p.calibration.indexes| <= |p.calibration.indexTypes|
    && forall j :: 0 <= j < |p.calibration.indexes| ==>
         exists i :: 0 <= i < |p.sweeps| && p.sweeps[i].value == p.calibration.indexes[j]
  }

  /** Every slot and index the comparison reads is there. */
  predicate Observed(p: Program) {
    && Readable(p, p.reference) && Readable(p, p.calibration.correction)
    && NamesReadable(p) && AssertionsReadable(p) && IndexesBound(p)
  }

  function DerivedData(num: NumberFormat, p: Program): (data: seq<(ValueType, Norm)>)
    requires OperandsPrecede(p.values) && NamesReadable(p)
    ensures |data| == |p.namedValues|
    ensures forall k :: 0 <= k < |p.namedValues| ==>
      data[k] == (p.namedValues[k].typ, NormOf(num, p.values, p.namedValues[k].value))
  {
    seq(|p.namedValues|, k requires 0 <= k < |p.namedValues| =>
      (p.namedValues[k].typ, NormOf(num, p.values, p.namedValues[k].value)))
  }

  function AssertionData(num: NumberFormat, p: Program): (data: seq<Norm>)
    requires OperandsPrecede(p.values) && AssertionsReadable(p)
    ensures |data| == |p.assertions|
    ensures forall k :: 0 <= k < |p.assertions| ==> data[k] == NormOf(num, p.values, p.assertions[k].value)
  {
    seq(|p.assertions|, k requires 0 <= k < |p.assertions| => NormOf(num, p.values, p.assertions[k].value))
  }

  function MeasuredData(p: Program): (data: seq<(MeasurementOperation, ValueType)>)
    ensures |data| == |p.measurements|
    ensures forall j :: 0 <= j < |p.measurements| ==> data[j] == (p.measurements[j].operation, p.measurements[j].typ)
  {
    seq(|p.measurements|, j requires 0 <= j < |p.measurements| =>
      (p.measurements[j].operation, p.measurements[j].typ))
  }

  predicate SameSweeps(p: Program, q: Program) {
    && |p.sweeps| == |q.sweeps|
    && forall i :: 0 <= i < |p.sweeps| ==>
         && p.sweeps[i].dimension == q.sweeps[i].dimension && p.sweeps[i].start == q.sweeps[i].start
         && p.sweeps[i].end == q.sweeps[i].end && p.sweeps[i].step == q.sweeps[i].step
         && p.sweeps[i].pointCount == q.sweeps[i].pointCount
  }

  predicate IndexAgrees(p: Program, q: Program, j: nat)
    requires j < |p.calibration.indexes| && j < |q.calibration.indexes|
    requires j < |p.calibration.indexTypes| && j < |q.calibration.indexTypes|
  {
    && p.calibration.indexTypes[j] == q.calibration.indexTypes[j]
    && exists axis :: IndexIs(p, j, axis) && IndexIs(q, j, axis)
  }

  /** The calibrations list the same axes and types in the same order. */
  predicate SameIndexes(p: Program, q: Program)
    requires Observed(p) && Observed(q)
  {
    && |p.calibration.indexes| == |q.calibration.indexes|
    && forall j :: 0 <= j < |p.calibration.indexes| ==> IndexAgrees(p, q, j)
  }

  /** The programs agree in everything a match is about. */
  predicate SameData(num: NumberFormat, p: Program, q: Program)
    requires OperandsPrecede(p.values) && OperandsPrecede(q.values) && Observed(p) && Observed(q)
  {
    && NormOf(num, p.values, p.reference) == NormOf(num, q.values, q.reference)
    && SameSweeps(p, q)
    && multiset(MeasuredData(p)) == multiset(MeasuredData(q))
    && multiset(DerivedData(num, p)) == multiset(DerivedData(num, q))
    && multiset(AssertionData(num, p)) == multiset(AssertionData(num, q))
    && SameIndexes(p, q) && p.calibration.correctionType == q.calibration.correctionType
    && NormOf(num, p.values, p.calibration.correction) == NormOf(num, q.values, q.calibration.correction)
  }

  // ----- The texts of the comparison -----

  lemma TypeNameIsPlain(typ: ValueType)
    ensures ':' !in TypeName(typ)
  {
  }

  lemma OperationNamesDiffer(a: MeasurementOperation, b: MeasurementOperation)
    ensures OperationName(a) == OperationName(b) <==> a == b
    ensures ':' !in OperationName(a)
  {
    assert a != b ==> |OperationName(a)| != |OperationName(b)|;
  }

  lemma AxisNamesDiffer(a: Axis, b: Axis)
    ensures AxisName(a) == AxisName(b) <==> a == b
    ensures ':' !in AxisName(a)
  {
    assert a != b ==> |AxisName(a)| != |AxisName(b)|;
  }

  /** Texts around a colon are equal exactly when their parts are. */
  lemma ColonSplits(a: string, s: string, b: string, t: string)
    requires ':' !in a && ':' !in b
    ensures a + ":" + s == b + ":" + t <==> a == b && s == t
  {
    assert a + ":" + s == a + (":" + s) && b + ":" + t == b + (":" + t);
    if a + ":" + s == b + ":" + t { Split(a, b, ":", s, t); }
  }

  lemma MeasurementTextDecides(m: Measurement, n: Measurement)
    ensures MeasurementText(m) == MeasurementText(n) <==> m.operation == n.operation && m.typ == n.typ
  {
    OperationNamesDiffer(m.operation, n.operation);
    OperationNamesDiffer(n.operation, m.operation);
    TypeNamesDistinct(m.typ, n.typ);
    ColonSplits(OperationName(m.operation), TypeName(m.typ), OperationName(n.operation), TypeName(n.typ));
  }

  lemma {:induction false} MeasurementTextAt(p: Program, n: nat, j: nat)
    requires n <= |p.measurements| && j < n
    ensures |MeasurementTexts(p, n)| == n && MeasurementTexts(p, n)[j] == MeasurementText(p.measurements[j])
    decreases n
  {
    if n > 1 { MeasurementTextAt(p, n - 1, if j < n - 1 then j else 0); }
  }

  lemma MeasurementsDecided(p: Program, q: Program)
    ensures multiset(MeasurementTexts(p, |p.measurements|)) == multiset(MeasurementTexts(q, |q.measurements|))
            <==> multiset(MeasuredData(p)) == multiset(MeasuredData(q))
  {
    var a, b := MeasurementTexts(p, |p.measurements|), MeasurementTexts(q, |q.measurements|);
    if |p.measurements| > 0 { MeasurementTextAt(p, |p.measurements|, 0); }
    if |q.measurements| > 0 { MeasurementTextAt(q, |q.measurements|, 0); }
    forall i, j | 0 <= i < |a| && 0 <= j < |b| ensures a[i] == b[j] <==> MeasuredData(p)[i] == MeasuredData(q)[j] {
      MeasurementTextAt(p, |p.measurements|, i);
      MeasurementTextAt(q, |q.measurements|, j);
      MeasurementTextDecides(p.measurements[i], q.measurements[j]);
    }
    MultisetsCorrespond(a, MeasuredData(p), b, MeasuredData(q));
  }

  predicate NamesUpTo(p: Program, n: nat)
    requires n <= |p.namedValues|
  {
    forall k :: 0 <= k < n ==> Readable(p, p.namedValues[k].value)
  }

  lemma NamesStep(p: Program, n: nat)
    requires 0 < n <= |p.namedValues|
    ensures NamesUpTo(p, n) <==> NamesUpTo(p, n - 1) && Readable(p, p.namedValues[n - 1].value)
  {
  }

  /** A list grown item by item, as long as the items are there. */
  predicate Grows<T>(f: nat -> Option<seq<T>>, ready: nat -> bool, k: nat) {
    && (f(k + 1).Some? <==> f(k).Some? && ready(k))
    && (f(k + 1).Some? ==> |f(k + 1).value| == |f(k).value| + 1)
  }

  lemma {:induction false} GrowsWhileReady<T>(f: nat -> Option<seq<T>>, ready: nat -> bool, n: nat)
    requires f(0) == Some([]) && forall k: nat | k < n :: Grows(f, ready, k)
    ensures f(n).Some? <==> forall k: nat | k < n :: ready(k)
    ensures f(n).Some? ==> |f(n).value| == n
  {
    if n > 0 {
      GrowsWhileReady(f, ready, n - 1);
      assert Grows(f, ready, n - 1);
    }
  }

  lemma NamedTextsStep(num: NumberFormat, p: Program, k: nat)
    requires OperandsPrecede(p.values) && k < |p.namedValues|
    ensures NamedTexts(num, p, k + 1).Some? <==> NamedTexts(num, p, k).Some? && Readable(p, p.namedValues[k].value)
    ensures NamedTexts(num, p, k + 1).Some? ==>
      |NamedTexts(num, p, k + 1).value| == |NamedTexts(num, p, k).value| + 1
  {
  }

  lemma NamedTextsThere(num: NumberFormat, p: Program, n: nat)
    requires OperandsPrecede(p.values) && n <= |p.namedValues|
    ensures NamedTexts(num, p, n).Some? <==> NamesUpTo(p, n)
    ensures NamedTexts(num, p, n).Some? ==> |NamedTexts(num, p, n).value| == n
  {
    var f := (k: nat) => if k <= n then NamedTexts(num, p, k) else None;
    var ready := (k: nat) => k < n && Readable(p, p.namedValues[k].value);
    forall k: nat | k < n ensures Grows(f, ready, k) { NamedTextsStep(num, p, k); }
    GrowsWhileReady(f, ready, n);
    if f(n).Some? {
      forall k | 0 <= k < n ensures Readable(p, p.namedValues[k].value) { assert ready(k); }
    }
  }

  function NamedText(num: NumberFormat, p: Program, k: nat): string
    requires OperandsPrecede(p.values) && k < |p.namedValues| && Readable(p, p.namedValues[k].value)
  {
    TypeName(p.namedValues[k].typ) + ":" + Render(num, NormOf(num, p.values, p.namedValues[k].value))
  }

  lemma NamedTextsLast(num: NumberFormat, p: Program, k: nat)
    requires OperandsPrecede(p.values) && k < |p.namedValues| && NamedTexts(num, p, k + 1).Some?
    ensures NamedTexts(num, p, k).Some? && Readable(p, p.namedValues[k].value)
    ensures NamedTexts(num, p, k + 1).value == NamedTexts(num, p, k).value + [NamedText(num, p, k)]
  {
  }

  lemma {:induction false} EntryAt<T>(f: nat -> Option<seq<T>>, item: nat -> T, n: nat, k: nat)
    requires k < n && f(n).Some? && f(0) == Some([])
    requires forall i: nat | i < n && f(i + 1).Some? :: f(i).Some? && f(i + 1).value == f(i).value + [item(i)]
    ensures |f(n).value| == n && f(n).value[k] == item(k)
  {
    assert f(n - 1 + 1).Some?;
    if k < n - 1 {
      EntryAt(f, item, n - 1, k);
    } else if n > 1 {
      EntryAt(f, item, n - 1, 0);
    }
  }

  lemma NamedTextAt(num: NumberFormat, p: Program, n: nat, k: nat)
    requires OperandsPrecede(p.values) && k < n <= |p.namedValues| && NamedTexts(num, p, n).Some?
    ensures k < |NamedTexts(num, p, n).value| && Readable(p, p.namedValues[k].value)
    ensures NamedTexts(num, p, n).value[k] == NamedText(num, p, k)
  {
    NamedTextsThere(num, p, n);
    var f := (i: nat) => if i <= n then NamedTexts(num, p, i) else None;
    var item := (i: nat) =>
      if i < n && Readable(p, p.namedValues[i].value) then NamedText(num, p, i) else "";
    forall i: nat | i < n && f(i + 1).Some? ensures f(i).Some? && f(i + 1).value == f(i).value + [item(i)] {
      NamedTextsLast(num, p, i);
    }
    EntryAt(f, item, n, k);
  }

  lemma {:induction false} AssertionTextsAre(num: NumberFormat, p: Program, n: nat)
    requires OperandsPrecede(p.values) && n <= |p.assertions|
    ensures AssertionTexts(num, p, n).Some? <==> forall k :: 0 <= k < n ==> Readable(p, p.assertions[k].value)
    ensures AssertionTexts(num, p, n).Some? ==> forall k :: 0 <= k < n ==>
      && Readable(p, p.assertions[k].value)
      && AssertionTexts(num, p, n).value[k] == Render(num, NormOf(num, p.values, p.assertions[k].value))
  {
    if n > 0 { AssertionTextsAre(num, p, n - 1); }
  }

  lemma TypedTextDecides(num: NumberFormat, a: ValueType, x: Norm, b: ValueType, y: Norm)
    requires FaithfulNumbers(num) && Writable(num, x) && Writable(num, y)
    ensures TypeName(a) + ":" + Render(num, x) == TypeName(b) + ":" + Render(num, y) <==> a == b && x == y
  {
    TypeNameIsPlain(a);
    TypeNameIsPlain(b);
    TypeNamesDistinct(a, b);
    ColonSplits(TypeName(a), Render(num, x), TypeName(b), Render(num, y));
    RenderIsInjective(num, x, y);
  }

  lemma DerivedDecided(num: NumberFormat, p: Program, q: Program)
    requires Faithful(num, p.values) && Faithful(num, q.values)
    requires OperandsPrecede(p.values) && OperandsPrecede(q.values) && NamesReadable(p) && NamesReadable(q)
    ensures NamedTexts(num, p, |p.namedValues|).Some? && NamedTexts(num, q, |q.namedValues|).Some?
    ensures multiset(NamedTexts(num, p, |p.namedValues|).value) == multiset(NamedTexts(num, q, |q.namedValues|).value)
            <==> multiset(DerivedData(num, p)) == multiset(DerivedData(num, q))
  {
    NamedTextsThere(num, p, |p.namedValues|);
    NamedTextsThere(num, q, |q.namedValues|);
    var a, b := NamedTexts(num, p, |p.namedValues|).value, NamedTexts(num, q, |q.namedValues|).value;
    var x, y := DerivedData(num, p), DerivedData(num, q);
    forall i, j | 0 <= i < |a| && 0 <= j < |b| ensures a[i] == b[j] <==> x[i] == y[j] {
      NamedTextAt(num, p, |p.namedValues|, i);
      NamedTextAt(num, q, |q.namedValues|, j);
      NormWritable(num, p.values, p.namedValues[i].value);
      NormWritable(num, q.values, q.namedValues[j].value);
      TypedTextDecides(num, x[i].0, x[i].1, y[j].0, y[j].1);
    }
    MultisetsCorrespond(a, x, b, y);
  }

  lemma AssertionsDecided(num: NumberFormat, p: Program, q: Program)
    requires Faithful(num, p.values) && Faithful(num, q.values)
    requires OperandsPrecede(p.values) && OperandsPrecede(q.values) && AssertionsReadable(p) && AssertionsReadable(q)
    ensures AssertionTexts(num, p, |p.assertions|).Some? && AssertionTexts(num, q, |q.assertions|).Some?
    ensures multiset(AssertionTexts(num, p, |p.assertions|).value)
            == multiset(AssertionTexts(num, q, |q.assertions|).value)
            <==> multiset(AssertionData(num, p)) == multiset(AssertionData(num, q))
  {
    AssertionTextsAre(num, p, |p.assertions|);
    AssertionTextsAre(num, q, |q.assertions|);
    var a, b := AssertionTexts(num, p, |p.assertions|).value, AssertionTexts(num, q, |q.assertions|).value;
    var x, y := AssertionData(num, p), AssertionData(num, q);
    forall i, j | 0 <= i < |a| && 0 <= j < |b| ensures a[i] == b[j] <==> x[i] == y[j] {
      NormWritable(num, p.values, p.assertions[i].value);
      NormWritable(num, q.values, q.assertions[j].value);
      RenderIsInjective(num, x[i], y[j]);
    }
    MultisetsCorrespond(a, x, b, y);
  }

  // ----- The indexes of the calibration -----

  /** The lookup finds the first sweep bound to the slot. */
  lemma {:induction false} SweepAtIsFirst(sweeps: seq<TypedSweep>, value: ValueId) returns (i: nat)
    ensures SweepAt(sweeps, value).Some? <==> exists k :: 0 <= k < |sweeps| && sweeps[k].value == value
    ensures SweepAt(sweeps, value).Some? ==>
      && i < |sweeps| && SweepAt(sweeps, value).value == sweeps[i] && sweeps[i].value == value
      && forall k :: 0 <= k < i ==> sweeps[k].value != value
  {
    i := 0;
    if |sweeps| > 0 && sweeps[0].value != value {
      var rest := sweeps[1..];
      i := SweepAtIsFirst(rest, value);
      assert forall k :: 0 <= k < |rest| ==> rest[k] == sweeps[k + 1];
      if k :| 0 <= k < |sweeps| && sweeps[k].value == value { assert rest[k - 1].value == value; }
      i := i + 1;
    }
  }

  lemma IndexIsFound(p: Program, j: nat, axis: Axis)
    requires j < |p.calibration.indexes|
    ensures IndexIs(p, j, axis) <==>
      SweepAt(p.sweeps, p.calibration.indexes[j]).Some?
      && SweepAt(p.sweeps, p.calibration.indexes[j]).value.dimension == axis
  {
    var i := SweepAtIsFirst(p.sweeps, p.calibration.indexes[j]);
    if IndexIs(p, j, axis) {
      var k :| 0 <= k < |p.sweeps| && p.sweeps[k].value == p.calibration.indexes[j] && p.sweeps[k].dimension == axis
        && forall l :: 0 <= l < k ==> p.sweeps[l].value != p.calibration.indexes[j];
      assert i == k;
    }
  }

  predicate IndexedUpTo(p: Program, n: nat)
    requires n <= |p.calibration.indexes|
  {
    n <= |p.calibration.indexTypes| && forall j :: 0 <= j < n ==> SweepAt(p.sweeps, p.calibration.indexes[j]).Some?
  }

  lemma IndexedStep(p: Program, n: nat)
    requires 0 < n <= |p.calibration.indexes|
    ensures IndexedUpTo(p, n) <==>
      IndexedUpTo(p, n - 1) && n <= |p.calibration.indexTypes|
      && SweepAt(p.sweeps, p.calibration.indexes[n - 1]).Some?
  {
  }

  lemma {:induction false} IndexTextsThere(p: Program, n: nat)
    requires n <= |p.calibration.indexes|
    ensures IndexTexts(p, n).Some? <==> IndexedUpTo(p, n)
    ensures IndexTexts(p, n).Some? ==> |IndexTexts(p, n).value| == n
  {
    if n > 0 {
      IndexedStep(p, n);
      IndexTextsThere(p, n - 1);
    }
  }

  lemma {:induction false} IndexTextAt(p: Program, n: nat, j: nat)
    requires j < n <= |p.calibration.indexes| && IndexTexts(p, n).Some?
    ensures j < |IndexTexts(p, n).value| && SweepAt(p.sweeps, p.calibration.indexes[j]).Some?
    ensures j < |p.calibration.indexTypes|
    ensures IndexTexts(p, n).value[j] ==
      AxisName(SweepAt(p.sweeps, p.calibration.indexes[j]).value.dimension) + ":"
      + TypeName(p.calibration.indexTypes[j])
  {
    IndexTextsThere(p, n);
    IndexTextsThere(p, n - 1);
    if j < n - 1 { IndexTextAt(p, n - 1, j); }
  }

  lemma IndexTextDecides(a: Axis, x: ValueType, b: Axis, y: ValueType)
    ensures AxisName(a) + ":" + TypeName(x) == AxisName(b) + ":" + TypeName(y) <==> a == b && x == y
  {
    AxisNamesDiffer(a, b);
    AxisNamesDiffer(b, a);
    TypeNamesDistinct(x, y);
    ColonSplits(AxisName(a), TypeName(x), AxisName(b), TypeName(y));
  }

  lemma IndexesDecided(p: Program, q: Program)
    requires Observed(p) && Observed(q)
    ensures IndexTexts(p, |p.calibration.indexes|).Some? && IndexTexts(q, |q.calibration.indexes|).Some?
    ensures IndexTexts(p, |p.calibration.indexes|) == IndexTexts(q, |q.calibration.indexes|) <==> SameIndexes(p, q)
  {
    var m, n := |p.calibration.indexes|, |q.calibration.indexes|;
    forall j | 0 <= j < m ensures SweepAt(p.sweeps, p.calibration.indexes[j]).Some? {
      var i := SweepAtIsFirst(p.sweeps, p.calibration.indexes[j]);
    }
    forall j | 0 <= j < n ensures SweepAt(q.sweeps, q.calibration.indexes[j]).Some? {
      var i := SweepAtIsFirst(q.sweeps, q.calibration.indexes[j]);
    }
    IndexTextsThere(p, m);
    IndexTextsThere(q, n);
    var a, b := IndexTexts(p, m).value, IndexTexts(q, n).value;
    if m == n {
      forall j | 0 <= j < m ensures a[j] == b[j] <==> IndexAgrees(p, q, j) {
        IndexTextAt(p, m, j);
        IndexTextAt(q, n, j);
        IndexDecided(p, q, j);
      }
      assert a == b <==> forall j :: 0 <= j < m ==> a[j] == b[j];
    }
  }

  lemma IndexDecided(p: Program, q: Program, j: nat)
    requires j < |p.calibration.indexes| && j < |q.calibration.indexes|
    requires j < |p.calibration.indexTypes| && j < |q.calibration.indexTypes|
    requires SweepAt(p.sweeps, p.calibration.indexes[j]).Some? && SweepAt(q.sweeps, q.calibration.indexes[j]).Some?
    ensures AxisName(SweepAt(p.sweeps, p.calibration.indexes[j]).value.dimension) + ":"
            + TypeName(p.calibration.indexTypes[j])
            == AxisName(SweepAt(q.sweeps, q.calibration.indexes[j]).value.dimension) + ":"
               + TypeName(q.calibration.indexTypes[j])
            <==> IndexAgrees(p, q, j)
  {
    var a, b := SweepAt(p.sweeps, p.calibration.indexes[j]).value.dimension,
      SweepAt(q.sweeps, q.calibration.indexes[j]).value.dimension;
    IndexTextDecides(a, p.calibration.indexTypes[j], b, q.calibration.indexTypes[j]);
    IndexIsFound(p, j, a);
    IndexIsFound(q, j, b);
    forall axis ensures IndexIs(p, j, axis) <==> axis == a { IndexIsFound(p, j, axis); }
    forall axis ensures IndexIs(q, j, axis) <==> axis == b { IndexIsFound(q, j, axis); }
  }

  // ----- The theorem -----

  lemma IndexTextsExist(p: Program)
    ensures IndexTexts(p, |p.calibration.indexes|).Some? <==> IndexesBound(p)
  {
    IndexTextsThere(p, |p.calibration.indexes|);
    forall j | 0 <= j < |p.calibration.indexes|
      ensures SweepAt(p.sweeps, p.calibration.indexes[j]).Some? <==>
        exists i :: 0 <= i < |p.sweeps| && p.sweeps[i].value == p.calibration.indexes[j]
    {
      var i := SweepAtIsFirst(p.sweeps, p.calibration.indexes[j]);
    }
  }

  lemma AssertionTextsExist(num: NumberFormat, p: Program)
    requires OperandsPrecede(p.values)
    ensures AssertionTexts(num, p, |p.assertions|).Some? <==> AssertionsReadable(p)
  {
    AssertionTextsAre(num, p, |p.assertions|);
  }

  /** A program is compared exactly when every slot and index the comparison reads is there. */
  lemma ObservationIsExact(num: NumberFormat, p: Program)
    requires OperandsPrecede(p.values)
    ensures ObservableOf(num, p).Some? <==> Observed(p)
  {
    NamedTextsThere(num, p, |p.namedValues|);
    AssertionTextsExist(num, p);
    IndexTextsExist(p);
  }

  lemma SweepsDecided(p: Program, q: Program)
    ensures SweepKeys(p) == SweepKeys(q) <==> SameSweeps(p, q)
  {
    KeysAgree(p, q);
  }

  /** A match is answered exactly for programs that agree in their reference, their sweeps in order,
      the multisets of their measured operations, derived expressions and assertions, their
      calibration's axes in order, and their correction. */
  lemma MatchIsExact(num: NumberFormat, p: Program, q: Program)
    requires Faithful(num, p.values) && Faithful(num, q.values)
    requires OperandsPrecede(p.values) && OperandsPrecede(q.values)
    ensures Matches(num, p, q) <==> Observed(p) && Observed(q) && SameData(num, p, q)
  {
    ObservationIsExact(num, p);
    ObservationIsExact(num, q);
    if Observed(p) && Observed(q) { ObservedDecided(num, p, q); }
  }

  lemma ObservedDecided(num: NumberFormat, p: Program, q: Program)
    requires Faithful(num, p.values) && Faithful(num, q.values)
    requires OperandsPrecede(p.values) && OperandsPrecede(q.values) && Observed(p) && Observed(q)
    requires ObservableOf(num, p).Some? && ObservableOf(num, q).Some?
    ensures ObservableOf(num, p) == ObservableOf(num, q) <==> SameData(num, p, q)
  {
    SweepsDecided(p, q);
    MeasurementsDecided(p, q);
    DerivedDecided(num, p, q);
    AssertionsDecided(num, p, q);
    IndexesDecided(p, q);
    SlotsDecided(num, p, p.reference, q, q.reference);
    SlotsDecided(num, p, p.calibration.correction, q, q.calibration.correction);
    SortDecides(MeasurementTexts(p, |p.measurements|), MeasurementTexts(q, |q.measurements|));
    SortDecides(NamedTexts(num, p, |p.namedValues|).value, NamedTexts(num, q, |q.namedValues|).value);
    SortDecides(AssertionTexts(num, p, |p.assertions|).value, AssertionTexts(num, q, |q.assertions|).value);
  }

  lemma SlotsDecided(num: NumberFormat, p: Program, x: ValueId, q: Program, y: ValueId)
    requires Faithful(num, p.values) && Faithful(num, q.values)
    requires OperandsPrecede(p.values) && OperandsPrecede(q.values) && Readable(p, x) && Readable(q, y)
    ensures Identity(num, p.values, x) == Identity(num, q.values, y) <==>
      NormOf(num, p.values, x) == NormOf(num, q.values, y)
  {
    NormWritable(num, p.values, x);
    NormWritable(num, q.values, y);
    RenderIsInjective(num, NormOf(num, p.values, x), NormOf(num, q.values, y));
  }

  // ----- What the derived values hold -----

  /** What the derived values hold, in order; None where the normal form names a slot. */
  function DerivedValues(num: NumberFormat, p: Program, filled: seq<Value>): (values: seq<Option<Value>>)
    requires OperandsPrecede(p.values) && NamesReadable(p) && |filled| == |p.values|
    ensures |values| == |p.namedValues|
  {
    seq(|p.namedValues|, k requires 0 <= k < |p.namedValues| => DerivedValue(num, p, filled, k))
  }

  function DerivedValue(num: NumberFormat, p: Program, filled: seq<Value>, k: nat): Option<Value>
    requires OperandsPrecede(p.values) && NamesReadable(p) && |filled| == |p.values| && k < |p.namedValues|
  {
    var id := p.namedValues[k].value;
    if SlotFree(NormOf(num, p.values, id)) then Some(filled[id]) else None
  }

  /** Slots of one type and one slot-free normal form hold one value. */
  lemma SameNormSameValue(num: NumberFormat, a: seq<Slot>, x: ValueId, b: seq<Slot>, y: ValueId, s: Point, t: Point,
                          filled: seq<Value>, other: seq<Value>, rho: Readings)
    requires Faithful(num, a) && Faithful(num, b)
    requires Evaluated(a, s, filled, rho) && Evaluated(b, t, other, rho)
    requires s.coordinates == t.coordinates && x < |a| && y < |b| && a[x].typ == b[y].typ
    requires SlotFree(NormOf(num, a, x)) && NormOf(num, a, x) == NormOf(num, b, y)
    ensures filled[x] == other[y]
  {
    NormDenotes(num, a, s, filled, rho, x);
    NormDenotes(num, b, t, other, rho, y);
    SlotFreeIsPortable(NormOf(num, a, x), s.coordinates, rho, filled, other);
    assert TypeOf(filled[x]) == TypeOf(other[y]);
  }

  /** On a match the derived values hold the same values: at equal points with one reading per
      operation, the values whose normal forms name no slot form the same multiset in both
      programs, and as many are left. */
  lemma DerivedValuesAgree(num: NumberFormat, p: Program, q: Program, s: Point, t: Point, rho: Readings)
    requires Faithful(num, p.values) && Faithful(num, q.values) && V.Valid(p) && V.Valid(q)
    requires OperandsPrecede(p.values) && OperandsPrecede(q.values) && Matches(num, p, q)
    requires SamePoint(p, q, s, t, rho)
    ensures NamesReadable(p) && NamesReadable(q)
    ensures Fold(p.values, s).Some? && |Fold(p.values, s).value| == |p.values|
    ensures Fold(q.values, t).Some? && |Fold(q.values, t).value| == |q.values|
    ensures multiset(DerivedValues(num, p, Fold(p.values, s).value))
            == multiset(DerivedValues(num, q, Fold(q.values, t).value))
  {
    MatchIsExact(num, p, q);
    EvaluationSolves(p, s, rho);
    EvaluationSolves(q, t, rho);
    var filled, other := Fold(p.values, s).value, Fold(q.values, t).value;
    DerivedFollow(num, p, q, s, t, filled, other, rho);
  }

  lemma DerivedFollow(num: NumberFormat, p: Program, q: Program, s: Point, t: Point, filled: seq<Value>,
                      other: seq<Value>, rho: Readings)
    requires Faithful(num, p.values) && Faithful(num, q.values)
    requires Evaluated(p.values, s, filled, rho) && Evaluated(q.values, t, other, rho)
    requires s.coordinates == t.coordinates && V.ValidNamedValues(p) && V.ValidNamedValues(q)
    requires NamesReadable(p) && NamesReadable(q)
    requires multiset(DerivedData(num, p)) == multiset(DerivedData(num, q))
    ensures multiset(DerivedValues(num, p, filled)) == multiset(DerivedValues(num, q, other))
  {
    var a, b := DerivedData(num, p), DerivedData(num, q);
    var x, y := DerivedValues(num, p, filled), DerivedValues(num, q, other);
    forall i, j | 0 <= i < |a| && 0 <= j < |b| && a[i] == b[j] ensures x[i] == y[j] {
      var m, n := p.namedValues[i], q.namedValues[j];
      assert m in p.namedValues && n in q.namedValues;
      if SlotFree(NormOf(num, p.values, m.value)) {
        SameNormSameValue(num, p.values, m.value, q.values, n.value, s, t, filled, other, rho);
      }
    }
    DataFollow(a, x, b, y);
  }
}
