/** Evaluation of a program at one operating point, driving the devices. */
module Execution {
  import opened Domain
  import opened Ir
  import opened Points
  import opened Evaluator
  import opened Validator
  import opened Soundness
  import opened Devices

  // ----- What a point evaluation does -----

  function Setter(c: Coordinate): DeviceCall {
    if c.axis == FrequencyAxis then FrequencySet(c.value.amount) else TemperatureSet(c.value.amount)
  }

  function Setters(coordinates: seq<Coordinate>): (calls: seq<DeviceCall>)
    ensures |calls| == |coordinates|
    ensures forall i :: 0 <= i < |coordinates| ==> calls[i] == Setter(coordinates[i])
  {
    seq(|coordinates|, i requires 0 <= i < |coordinates| => Setter(coordinates[i]))
  }

  /** The calls made, the readings obtained and the slots filled so far. */
  datatype Progress = Progress(calls: seq<DeviceCall>, readings: seq<real>, filled: seq<Value>)

  /** Before the slot of the first listed measurement, the output power is set to the reference. */
  function Prepare(p: Program, n: nat, e: Progress): Option<Progress>
    requires n < |p.values|
  {
    if p.measurements == [] || p.values[n].id != p.measurements[0].value then Some(e)
    else
      var reference := Amount(e.filled, p.reference, Power);
      if reference.None? then None else Some(e.(calls := e.calls + [OutputPowerSet(reference.value)]))
  }

  function Read(d: Definition, response: Response, e: Progress): Option<Progress> {
    if !d.Measure? then Some(e)
    else if !Configured(e.calls) then None
    else Some(e.(calls := e.calls + [Measured(d.operation)], readings := e.readings + [response(d.operation, e.calls)]))
  }

  function FillSlot(p: Program, coordinates: seq<Coordinate>, response: Response, n: nat, e: Progress): Option<Progress>
    requires n < |p.values|
  {
    var prepared := Prepare(p, n, e);
    if prepared.None? then None
    else
      var read := Read(p.values[n].definition, response, prepared.value);
      if read.None? then None
      else
        var v := EvaluateDefinition(p.values[n].definition, Point(coordinates, read.value.readings), |e.readings|,
          e.filled);
        if v.None? then None else Some(read.value.(filled := e.filled + [v.value]))
  }

  /** The state after the setters and the first n slots; None where an exception escapes. */
  function Run(p: Program, coordinates: seq<Coordinate>, response: Response, start: seq<DeviceCall>,
               n: nat): Option<Progress>
    requires n <= |p.values|
  {
    if n == 0 then Some(Progress(start + Setters(coordinates), [], []))
    else
      var e := Run(p, coordinates, response, start, n - 1);
      if e.None? then None else FillSlot(p, coordinates, response, n - 1, e.value)
  }

  method ApplyCoordinates(coordinates: seq<Coordinate>, bench: Bench)
    requires bench.Logged()
    modifies bench
    ensures bench.Logged() && bench.calls == old(bench.calls) + Setters(coordinates)
  {
    for i := 0 to |coordinates|
      invariant bench.Logged()
      invariant bench.calls == old(bench.calls) + Setters(coordinates)[..i]
    {
      if coordinates[i].axis == FrequencyAxis {
        bench.SetFrequency(coordinates[i].value.amount);
      } else {
        bench.SetTemperature(coordinates[i].value.amount);
      }
    }
  }

  /** Fills one slot. */
  method EvaluateSlot(p: Program, coordinates: seq<Coordinate>, n: nat, measured: seq<real>, filled: seq<Value>,
                      bench: Bench)
    returns (ok: bool, readings: seq<real>, values: seq<Value>)
    requires n < |p.values| && bench.Logged()
    modifies bench
    ensures bench.Logged()
    ensures var t := FillSlot(p, coordinates, bench.response, n, Progress(old(bench.calls), measured, filled));
      ok == t.Some? && (ok ==> t.value == Progress(bench.calls, readings, values))
  {
    ok, readings, values := false, measured, filled;
    if p.measurements != [] && p.values[n].id == p.measurements[0].value {
      var reference := Amount(filled, p.reference, Power);
      if reference.None? { return; }
      bench.SetOutputPower(reference.value);
    }
    if p.values[n].definition.Measure? {
      var reading := bench.Measure(p.values[n].definition.operation);
      if reading.None? { return; }
      readings := measured + [reading.value];
    }
    var v := EvaluateDefinition(p.values[n].definition, Point(coordinates, readings), |measured|, filled);
    if v.Some? {
      ok, values := true, filled + [v.value];
    }
  }

  lemma RunNext(p: Program, coordinates: seq<Coordinate>, response: Response, start: seq<DeviceCall>, n: nat,
                e: Progress)
    requires n < |p.values| && Run(p, coordinates, response, start, n) == Some(e)
    ensures Run(p, coordinates, response, start, n + 1) == FillSlot(p, coordinates, response, n, e)
  {
  }

  /** Drives the devices through one point; None where an exception escapes. */
  method EvaluateValidatedPoint(p: Program, coordinates: seq<Coordinate>, bench: Bench)
    returns (values: Option<seq<Value>>, ghost readings: seq<real>)
    requires bench.Logged()
    modifies bench
    ensures bench.Logged()
    ensures var e := Run(p, coordinates, bench.response, old(bench.calls), |p.values|);
      && (values.Some? <==> e.Some?)
      && (e.Some? ==> e.value == Progress(bench.calls, readings, values.value))
  {
    ghost var start := bench.calls;
    ApplyCoordinates(coordinates, bench);
    var filled: seq<Value>, measured: seq<real> := [], [];
    var i := 0;
    while i < |p.values|
      invariant i <= |p.values| && bench.Logged()
      invariant Run(p, coordinates, bench.response, start, i) == Some(Progress(bench.calls, measured, filled))
    {
      RunNext(p, coordinates, bench.response, start, i, Progress(bench.calls, measured, filled));
      var ok;
      ok, measured, filled := EvaluateSlot(p, coordinates, i, measured, filled, bench);
      i := i + 1;
      if !ok {
        RunStops(p, coordinates, bench.response, start, i, |p.values|);
        return None, measured;
      }
    }
    values, readings := Some(filled), measured;
  }

  lemma {:induction false} RunStops(p: Program, coordinates: seq<Coordinate>, response: Response,
                                    start: seq<DeviceCall>, m: nat, n: nat)
    requires m <= n <= |p.values| && Run(p, coordinates, response, start, m).None?
    ensures Run(p, coordinates, response, start, n).None?
    decreases n
  {
    if m < n { RunStops(p, coordinates, response, start, m, n - 1); }
  }

  // ----- The evaluation is the fold over the readings it took -----

  /** Later readings do not change what earlier slots hold. */
  lemma {:induction false} FoldIgnoresLaterReadings(values: seq<Slot>, coordinates: seq<Coordinate>,
                                                    readings: seq<real>, more: seq<real>)
    requires Fold(values, Point(coordinates, readings)).Some?
    ensures Fold(values, Point(coordinates, readings + more)) == Fold(values, Point(coordinates, readings))
  {
    if |values| > 0 {
      FoldIgnoresLaterReadings(values[..|values| - 1], coordinates, readings, more);
    }
  }

  lemma FillSlotFolds(p: Program, coordinates: seq<Coordinate>, response: Response, n: nat, e: Progress)
    requires n < |p.values| && FillSlot(p, coordinates, response, n, e).Some?
    requires |e.readings| == MeasureCount(p.values[..n])
    requires Fold(p.values[..n], Point(coordinates, e.readings)) == Some(e.filled)
    ensures var t := FillSlot(p, coordinates, response, n, e).value;
      && |t.readings| == MeasureCount(p.values[..n + 1])
      && Fold(p.values[..n + 1], Point(coordinates, t.readings)) == Some(t.filled)
  {
    var t, slot := FillSlot(p, coordinates, response, n, e).value, p.values[n];
    assert p.values[..n + 1] == p.values[..n] + [slot];
    MeasureCountAppend(p.values[..n], slot);
    var more := t.readings[|e.readings|..];
    assert t.readings == e.readings + more;
    FoldIgnoresLaterReadings(p.values[..n], coordinates, e.readings, more);
    FoldAppend(p.values[..n], slot, Point(coordinates, t.readings));
  }

  /** Whatever the devices answer, the slots hold the fold of the program over those answers. */
  lemma {:induction false} RunFolds(p: Program, coordinates: seq<Coordinate>, response: Response,
                                    start: seq<DeviceCall>, n: nat)
    requires n <= |p.values| && Run(p, coordinates, response, start, n).Some?
    ensures var e := Run(p, coordinates, response, start, n).value;
      && |e.readings| == MeasureCount(p.values[..n])
      && Fold(p.values[..n], Point(coordinates, e.readings)) == Some(e.filled)
  {
    if n > 0 {
      RunFolds(p, coordinates, response, start, n - 1);
      FillSlotFolds(p, coordinates, response, n - 1, Run(p, coordinates, response, start, n - 1).value);
    }
  }

  // ----- The device protocol -----

  /** The measurement calls of the slots, in slot order. */
  function SlotMeasures(values: seq<Slot>): seq<DeviceCall> {
    if |values| == 0 then []
    else
      var d := values[|values| - 1].definition;
      SlotMeasures(values[..|values| - 1]) + if d.Measure? then [Measured(d.operation)] else []
  }

  /** The reference precedes the first listed measurement, and no measurement precedes that one. */
  predicate PowerComesFirst(p: Program) {
    && p.measurements != []
    && p.reference < p.measurements[0].value
    && forall s :: 0 <= s < |p.values| && p.values[s].definition.Measure? ==> p.measurements[0].value <= s
  }

  function ReferenceAmount(p: Program): real {
    if p.reference < |p.values| && p.values[p.reference].definition.ReferencePower?
    then p.values[p.reference].definition.dbm else 0.0
  }

  /** The calls of a point evaluation up to slot n. */
  function Trace(p: Program, coordinates: seq<Coordinate>, start: seq<DeviceCall>, n: nat): seq<DeviceCall>
    requires n <= |p.values|
  {
    start + Setters(coordinates)
    + (if p.measurements != [] && p.measurements[0].value < n then [OutputPowerSet(ReferenceAmount(p))] else [])
    + SlotMeasures(p.values[..n])
  }

  lemma FoldReference(values: seq<Slot>, point: Point, i: nat)
    requires i < |values| && values[i].definition.ReferencePower? && Fold(values, point).Some?
    ensures |Fold(values, point).value| == |values|
    ensures Fold(values, point).value[i] == Quantity(Power, values[i].definition.dbm)
  {
    FoldSlot(values, i, point);
  }

  lemma {:induction false} NoMeasuresBefore(values: seq<Slot>)
    requires forall s :: 0 <= s < |values| ==> !values[s].definition.Measure?
    ensures SlotMeasures(values) == []
  {
    if |values| > 0 { NoMeasuresBefore(values[..|values| - 1]); }
  }

  /** A program, all of whose stages are valid, at coordinates that fit its sweeps. */
  predicate Runnable(p: Program, coordinates: seq<Coordinate>) {
    Valid(p) && CoordinatesFit(p, coordinates)
  }

  lemma FrequencyIsSet(p: Program, coordinates: seq<Coordinate>, start: seq<DeviceCall>)
    requires Runnable(p, coordinates)
    ensures exists i :: 0 <= i < |start + Setters(coordinates)| && (start + Setters(coordinates))[i].FrequencySet?
  {
    var f := AxisWitness(p.sweeps, FrequencyAxis);
    assert (start + Setters(coordinates))[|start| + f] == Setter(coordinates[f]);
  }

  /** Once the output power is set, the guard of the measurement devices is satisfied. */
  lemma TraceIsConfigured(p: Program, coordinates: seq<Coordinate>, start: seq<DeviceCall>, more: seq<DeviceCall>)
    requires Runnable(p, coordinates)
    ensures Configured(start + Setters(coordinates) + [OutputPowerSet(ReferenceAmount(p))] + more)
  {
    FrequencyIsSet(p, coordinates, start);
    var calls := start + Setters(coordinates);
    var i :| 0 <= i < |calls| && calls[i].FrequencySet?;
    var all := calls + [OutputPowerSet(ReferenceAmount(p))] + more;
    assert all[i] == calls[i] && all[|calls|].OutputPowerSet?;
  }

  /** The answers so far suffice for the slots so far. */
  lemma PrefixAnswerable(p: Program, coordinates: seq<Coordinate>, readings: seq<real>, n: nat)
    requires Runnable(p, coordinates) && n <= |p.values| && MeasureCount(p.values[..n]) <= |readings|
    ensures Answerable(p.values[..n], Point(coordinates, readings))
  {
    forall i | 0 <= i < n && p.values[i].definition.SweepValue?
      ensures CoordinateOf(coordinates, p.values[i].definition.axis).Some?
    {
      var k := SweepDefinitionsDeclared(p, i);
      CoordinateFound(coordinates, k);
    }
  }

  predicate OnTrack(p: Program, coordinates: seq<Coordinate>, start: seq<DeviceCall>, n: nat, e: Progress)
    requires n <= |p.values|
  {
    && e.calls == Trace(p, coordinates, start, n)
    && |e.readings| == MeasureCount(p.values[..n])
    && Fold(p.values[..n], Point(coordinates, e.readings)) == Some(e.filled)
    && Soundness.WellTyped(p.values[..n], e.filled)
  }

  lemma PreparationSucceeds(p: Program, coordinates: seq<Coordinate>, start: seq<DeviceCall>, n: nat, e: Progress)
    requires Runnable(p, coordinates) && PowerComesFirst(p) && n < |p.values| && OnTrack(p, coordinates, start, n, e)
    ensures var calls := start + Setters(coordinates)
        + (if p.measurements[0].value <= n then [OutputPowerSet(ReferenceAmount(p))] else [])
        + SlotMeasures(p.values[..n]);
      Prepare(p, n, e) == Some(e.(calls := calls))
  {
    assert ValidSlot(p.values, n);
    if n == p.measurements[0].value {
      FoldReference(p.values[..n], Point(coordinates, e.readings), p.reference);
      NoMeasuresBefore(p.values[..n]);
      assert p.values[..n][p.reference] == p.values[p.reference];
      assert Amount(e.filled, p.reference, Power) == Some(ReferenceAmount(p));
      assert e.calls == start + Setters(coordinates);
      assert e.calls + [OutputPowerSet(ReferenceAmount(p))]
        == start + Setters(coordinates) + [OutputPowerSet(ReferenceAmount(p))] + SlotMeasures(p.values[..n]);
    }
  }

  lemma ReadingSucceeds(p: Program, coordinates: seq<Coordinate>, response: Response, start: seq<DeviceCall>, n: nat,
                        e: Progress)
    requires Runnable(p, coordinates) && PowerComesFirst(p) && n < |p.values| && OnTrack(p, coordinates, start, n, e)
    ensures Prepare(p, n, e).Some? && Read(p.values[n].definition, response, Prepare(p, n, e).value).Some?
    ensures Read(p.values[n].definition, response, Prepare(p, n, e).value).value.calls ==
      Trace(p, coordinates, start, n + 1)
    ensures |Read(p.values[n].definition, response, Prepare(p, n, e).value).value.readings| ==
      MeasureCount(p.values[..n + 1])
  {
    PreparationSucceeds(p, coordinates, start, n, e);
    assert p.values[..n + 1] == p.values[..n] + [p.values[n]];
    MeasureCountAppend(p.values[..n], p.values[n]);
    assert p.values[..n + 1][..n] == p.values[..n];
    if p.values[n].definition.Measure? {
      TraceIsConfigured(p, coordinates, start, SlotMeasures(p.values[..n]));
    }
  }

  /** The definition of the next slot evaluates to a value of the slot's type. */
  lemma SlotEvaluates(p: Program, coordinates: seq<Coordinate>, n: nat, readings: seq<real>, filled: seq<Value>)
    returns (v: Value)
    requires Runnable(p, coordinates) && n < |p.values|
    requires Soundness.WellTyped(p.values[..n], filled) && MeasureCount(p.values[..n + 1]) <= |readings|
    ensures Some(v) ==
      EvaluateDefinition(p.values[n].definition, Point(coordinates, readings), MeasureCount(p.values[..n]), filled)
    ensures Soundness.WellTyped(p.values[..n + 1], filled + [v])
  {
    var before := p.values[..n + 1];
    PrefixAnswerable(p, coordinates, readings, n + 1);
    ValidPrefix(p.values, n + 1);
    assert ValidSlot(before, n) && before[..n] == p.values[..n];
    StepIsTyped(before, Point(coordinates, readings), filled);
    var ordinal := MeasureCount(p.values[..n]);
    v := EvaluateDefinition(p.values[n].definition, Point(coordinates, readings), ordinal, filled).value;
  }

  lemma SlotSucceeds(p: Program, coordinates: seq<Coordinate>, response: Response, start: seq<DeviceCall>, n: nat,
                     e: Progress)
    returns (t: Progress)
    requires Runnable(p, coordinates) && PowerComesFirst(p) && n < |p.values| && OnTrack(p, coordinates, start, n, e)
    ensures FillSlot(p, coordinates, response, n, e) == Some(t) && OnTrack(p, coordinates, start, n + 1, t)
  {
    ReadingSucceeds(p, coordinates, response, start, n, e);
    var read := Read(p.values[n].definition, response, Prepare(p, n, e).value).value;
    var v := SlotEvaluates(p, coordinates, n, read.readings, e.filled);
    t := read.(filled := e.filled + [v]);
    FillSlotFolds(p, coordinates, response, n, e);
  }

  /** Every slot is filled, and the devices receive exactly the calls of the trace. */
  lemma {:induction false} RunSucceeds(p: Program, coordinates: seq<Coordinate>, response: Response,
                                       start: seq<DeviceCall>, n: nat)
    returns (e: Progress)
    requires Runnable(p, coordinates) && PowerComesFirst(p) && n <= |p.values|
    ensures Run(p, coordinates, response, start, n) == Some(e) && OnTrack(p, coordinates, start, n, e)
  {
    if n == 0 {
      e := Progress(start + Setters(coordinates), [], []);
      assert Trace(p, coordinates, start, 0) == e.calls;
    } else {
      var before := RunSucceeds(p, coordinates, response, start, n - 1);
      e := SlotSucceeds(p, coordinates, response, start, n - 1, before);
    }
  }

  // ----- When exactly a point evaluation succeeds -----

  predicate NoPower(calls: seq<DeviceCall>) {
    forall i :: 0 <= i < |calls| ==> !calls[i].OutputPowerSet?
  }

  /** Up to the first listed measurement nothing sets the output power. */
  lemma {:induction false} NoPowerYet(p: Program, coordinates: seq<Coordinate>, response: Response, n: nat)
    requires Valid(p) && p.measurements != [] && n <= p.measurements[0].value && n <= |p.values|
    requires Run(p, coordinates, response, [], n).Some?
    ensures NoPower(Run(p, coordinates, response, [], n).value.calls)
  {
    if n > 0 {
      NoPowerYet(p, coordinates, response, n - 1);
      assert ValidSlot(p.values, n - 1);
    } else {
      assert [] + Setters(coordinates) == Setters(coordinates);
    }
  }

  /** A valid program runs through at a fitting point on a fresh bench exactly when its reference
      precedes the first listed measurement, and that measurement precedes all others. */
  lemma RunsExactly(p: Program, coordinates: seq<Coordinate>, response: Response)
    requires Runnable(p, coordinates)
    ensures Run(p, coordinates, response, [], |p.values|).Some? <==> PowerComesFirst(p)
  {
    assert p.measurements[0] in p.measurements;
    var first := p.measurements[0].value;
    if PowerComesFirst(p) {
      var e := RunSucceeds(p, coordinates, response, [], |p.values|);
    } else if p.reference >= first {
      assert ValidSlot(p.values, first);
      if Run(p, coordinates, response, [], first).Some? {
        RunFolds(p, coordinates, response, [], first);
        FoldLength(p.values[..first], Point(coordinates, Run(p, coordinates, response, [], first).value.readings));
      }
      assert Run(p, coordinates, response, [], first + 1).None?;
      RunStops(p, coordinates, response, [], first + 1, |p.values|);
    } else {
      var s :| 0 <= s < |p.values| && p.values[s].definition.Measure? && s < first;
      assert ValidSlot(p.values, s);
      if Run(p, coordinates, response, [], s).Some? { NoPowerYet(p, coordinates, response, s); }
      assert Run(p, coordinates, response, [], s + 1).None?;
      RunStops(p, coordinates, response, [], s + 1, |p.values|);
    }
  }

  // ----- Measurements in listed order -----

  lemma {:induction false} CountGrows(values: seq<Slot>, a: nat, b: nat)
    requires a < b <= |values|
    ensures MeasureCount(values[..a]) <= MeasureCount(values[..b])
    ensures values[a].definition.Measure? ==> MeasureCount(values[..a]) < MeasureCount(values[..b])
    decreases b
  {
    assert values[..b][..b - 1] == values[..b - 1];
    if a < b - 1 { CountGrows(values, a, b - 1); }
  }

  predicate InOrder(p: Program) {
    Valid(p) && Ordered(p)
  }

  lemma ListedIsMeasure(p: Program, j: nat)
    requires InOrder(p) && j < |p.measurements|
    ensures p.measurements[j].value < |p.values|
    ensures p.values[p.measurements[j].value].definition == Measure(p.measurements[j].operation)
  {
    assert p.measurements[j] in p.measurements;
  }

  lemma {:induction false} AtLeast(p: Program, j: nat)
    requires InOrder(p) && j < |p.measurements|
    ensures p.measurements[j].value < |p.values| && MeasureCount(p.values[..p.measurements[j].value]) >= j
  {
    ListedIsMeasure(p, j);
    if j > 0 {
      ListedIsMeasure(p, j - 1);
      AtLeast(p, j - 1);
      CountGrows(p.values, p.measurements[j - 1].value, p.measurements[j].value);
    }
  }

  lemma {:induction false} AtMost(p: Program, j: nat)
    requires InOrder(p) && j < |p.measurements|
    ensures p.measurements[j].value < |p.values| && MeasureCount(p.values[..p.measurements[j].value]) <= j
    decreases |p.measurements| - j
  {
    ListedIsMeasure(p, j);
    if j + 1 < |p.measurements| {
      AtMost(p, j + 1);
      CountGrows(p.values, p.measurements[j].value, p.measurements[j + 1].value);
    } else {
      MeasureCountIsCount(p.values);
      assert p.values[..|p.values|] == p.values;
      CountGrows(p.values, p.measurements[j].value, |p.values|);
    }
  }

  /** The j-th measuring slot belongs to the j-th listed measurement. */
  lemma MeasuringSlotIsListed(p: Program, s: nat)
    requires InOrder(p) && s < |p.values| && p.values[s].definition.Measure?
    ensures var j := MeasureCount(p.values[..s]);
      j < |p.measurements| && p.measurements[j].value == s
  {
    var j := MeasureCount(p.values[..s]);
    MeasureCountIsCount(p.values);
    assert p.values[..|p.values|] == p.values;
    CountGrows(p.values, s, |p.values|);
    AtLeast(p, j);
    AtMost(p, j);
    ListedIsMeasure(p, j);
    var id := p.measurements[j].value;
    if id < s { CountGrows(p.values, id, s); }
    if s < id { CountGrows(p.values, s, id); }
  }

  function MeasureCalls(measurements: seq<Measurement>, n: nat): seq<DeviceCall>
    requires n <= |measurements|
  {
    if n == 0 then [] else MeasureCalls(measurements, n - 1) + [Measured(measurements[n - 1].operation)]
  }

  lemma {:induction false} SlotsMeasureInOrder(p: Program, n: nat)
    requires InOrder(p) && n <= |p.values|
    ensures MeasureCount(p.values[..n]) <= |p.measurements|
    ensures SlotMeasures(p.values[..n]) == MeasureCalls(p.measurements, MeasureCount(p.values[..n]))
  {
    if n > 0 {
      SlotsMeasureInOrder(p, n - 1);
      assert p.values[..n][..n - 1] == p.values[..n - 1];
      if p.values[n - 1].definition.Measure? {
        MeasuringSlotIsListed(p, n - 1);
        ListedIsMeasure(p, MeasureCount(p.values[..n - 1]));
      }
    }
  }

  lemma OrderedPutsPowerFirst(p: Program)
    requires InOrder(p)
    ensures PowerComesFirst(p)
  {
    forall s | 0 <= s < |p.values| && p.values[s].definition.Measure? ensures p.measurements[0].value <= s {
      MeasuringSlotIsListed(p, s);
    }
  }

  /** The calls at one point in front of the n-th measurement. */
  function CallsAt(p: Program, coordinates: seq<Coordinate>, n: nat): seq<DeviceCall>
    requires n <= |p.measurements|
  {
    Setters(coordinates) + [OutputPowerSet(ReferenceAmount(p))] + MeasureCalls(p.measurements, n)
  }

  /** The readings are what the devices answer to the measurement calls at the point. */
  predicate Answers(p: Program, coordinates: seq<Coordinate>, response: Response, start: seq<DeviceCall>,
                    readings: seq<real>) {
    && |readings| == |p.measurements|
    && forall j :: 0 <= j < |p.measurements| ==>
         readings[j] == response(p.measurements[j].operation, start + CallsAt(p, coordinates, j))
  }

  /** Readings are only ever appended. */
  lemma {:induction false} ReadingsGrow(p: Program, coordinates: seq<Coordinate>, response: Response,
                                        start: seq<DeviceCall>, m: nat, n: nat)
    requires m <= n <= |p.values| && Run(p, coordinates, response, start, n).Some?
    ensures Run(p, coordinates, response, start, m).Some?
    ensures Run(p, coordinates, response, start, m).value.readings
      <= Run(p, coordinates, response, start, n).value.readings
    decreases n
  {
    if m < n { ReadingsGrow(p, coordinates, response, start, m, n - 1); }
  }

  lemma CallsSoFar(p: Program, coordinates: seq<Coordinate>, start: seq<DeviceCall>, j: nat)
    requires InOrder(p) && j < |p.measurements|
    ensures var s := p.measurements[j].value;
      && s < |p.values| && p.measurements[0].value <= s && MeasureCount(p.values[..s]) == j
      && start + Setters(coordinates) + [OutputPowerSet(ReferenceAmount(p))] + SlotMeasures(p.values[..s])
         == start + CallsAt(p, coordinates, j)
  {
    ListedIsMeasure(p, j);
    OrderedPutsPowerFirst(p);
    AtLeast(p, j);
    AtMost(p, j);
    SlotsMeasureInOrder(p, p.measurements[j].value);
  }

  lemma ReadingTaken(p: Program, coordinates: seq<Coordinate>, response: Response, start: seq<DeviceCall>, j: nat)
    requires InOrder(p) && CoordinatesFit(p, coordinates) && j < |p.measurements|
    ensures var s := p.measurements[j].value;
      && s < |p.values| && Run(p, coordinates, response, start, s + 1).Some?
      && var readings := Run(p, coordinates, response, start, s + 1).value.readings;
         && |readings| == j + 1
         && readings[j] == response(p.measurements[j].operation, start + CallsAt(p, coordinates, j))
  {
    CallsSoFar(p, coordinates, start, j);
    OrderedPutsPowerFirst(p);
    ListedIsMeasure(p, j);
    var s := p.measurements[j].value;
    var before := RunSucceeds(p, coordinates, response, start, s);
    PreparationSucceeds(p, coordinates, start, s, before);
    var after := SlotSucceeds(p, coordinates, response, start, s, before);
    SlotRead(p, coordinates, response, s, before, after);
  }

  lemma SlotRead(p: Program, coordinates: seq<Coordinate>, response: Response, s: nat, before: Progress,
                 after: Progress)
    requires s < |p.values| && p.values[s].definition.Measure?
    requires FillSlot(p, coordinates, response, s, before) == Some(after) && Prepare(p, s, before).Some?
    ensures after.readings
            == before.readings + [response(p.values[s].definition.operation, Prepare(p, s, before).value.calls)]
  {
  }

  lemma ReadingsAreAnswers(p: Program, coordinates: seq<Coordinate>, response: Response, start: seq<DeviceCall>)
    requires InOrder(p) && CoordinatesFit(p, coordinates) && Run(p, coordinates, response, start, |p.values|).Some?
    requires |Run(p, coordinates, response, start, |p.values|).value.readings| == |p.measurements|
    ensures Answers(p, coordinates, response, start, Run(p, coordinates, response, start, |p.values|).value.readings)
  {
    forall j | 0 <= j < |p.measurements|
      ensures Run(p, coordinates, response, start, |p.values|).value.readings[j]
              == response(p.measurements[j].operation, start + CallsAt(p, coordinates, j))
    {
      ReadingTaken(p, coordinates, response, start, j);
      ReadingsGrow(p, coordinates, response, start, p.measurements[j].value + 1, |p.values|);
    }
  }

  lemma TraceIsCalls(p: Program, coordinates: seq<Coordinate>, start: seq<DeviceCall>)
    requires InOrder(p)
    ensures Trace(p, coordinates, start, |p.values|) == start + CallsAt(p, coordinates, |p.measurements|)
  {
    assert p.values[..|p.values|] == p.values;
    SlotsMeasureInOrder(p, |p.values|);
    MeasureCountIsCount(p.values);
    ListedIsMeasure(p, 0);
  }

  /** The device protocol: whatever happened before, one point evaluation sets the coordinates in
      declaration order, sets the output power to the reference exactly once, and then makes one
      call per measurement in listed order; no guard fires, the readings are the answers to those
      calls, and the slots hold the fold of the program over them. */
  lemma DeviceProtocol(p: Program, coordinates: seq<Coordinate>, response: Response, start: seq<DeviceCall>)
    returns (e: Progress)
    requires Valid(p) && Ordered(p) && CoordinatesFit(p, coordinates)
    ensures Run(p, coordinates, response, start, |p.values|) == Some(e)
    ensures e.calls == start + CallsAt(p, coordinates, |p.measurements|)
    ensures Answers(p, coordinates, response, start, e.readings)
    ensures PointFits(p, Point(coordinates, e.readings))
    ensures Fold(p.values, Point(coordinates, e.readings)) == Some(e.filled)
    ensures Soundness.WellTyped(p.values, e.filled)
  {
    OrderedPutsPowerFirst(p);
    e := RunSucceeds(p, coordinates, response, start, |p.values|);
    assert p.values[..|p.values|] == p.values;
    MeasureCountIsCount(p.values);
    ReadingsAreAnswers(p, coordinates, response, start);
    TraceIsCalls(p, coordinates, start);
  }
}
