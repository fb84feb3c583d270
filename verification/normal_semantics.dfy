/** Normal forms and evaluation: equal texts denote equal values. */
module NormalSemantics {
  import opened Domain
  import opened Ir
  import opened Points
  import opened Evaluator
  import opened Soundness
  import opened NormalForms
  import opened LinearForms
  import opened Normalizing
  import opened NormalMeaning
  import V = Validator

  /** What each operation reads at the point; all its readings are taken to be the same. */
  type Readings = MeasurementOperation -> real

  predicate Repeatable(values: seq<Slot>, filled: seq<Value>, rho: Readings) {
    |filled| == |values| && forall s :: 0 <= s < |values| && values[s].definition.Measure? ==>
      filled[s] == Quantity(ResultType(values[s].definition.operation), rho(values[s].definition.operation))
  }

  function LeafAmount(coordinates: seq<Coordinate>, rho: Readings, filled: seq<Value>, leaf: Leaf): real {
    match leaf
    case ConstantLeaf(Quantity(_, amount)) => amount
    case ConstantLeaf(Truth(_)) => 0.0
    case ReferenceLeaf(dbm) => dbm
    case SweepLeaf(axis) =>
      var c := CoordinateOf(coordinates, axis);
      if c.Some? && c.value.Quantity? then c.value.amount else 0.0
    case MeasureLeaf(op) => rho(op)
    case SlotLeaf(id) => if id < |filled| && filled[id].Quantity? then filled[id].amount else 0.0
  }

  function LeavesAt(coordinates: seq<Coordinate>, rho: Readings, filled: seq<Value>): LeafValues {
    (typ: ValueType, leaf: Leaf) => LeafAmount(coordinates, rho, filled, leaf)
  }

  // ----- The equations of a filled program -----

  predicate Solved(values: seq<Slot>, point: Point, filled: seq<Value>) {
    && |filled| == |values|
    && forall i :: 0 <= i < |values| ==> SolvedAt(values, point, filled, i)
  }

  predicate SolvedAt(values: seq<Slot>, point: Point, filled: seq<Value>, i: nat)
    requires i < |values| == |filled|
  {
    EvaluateDefinition(values[i].definition, point, MeasureCount(values[..i]), filled[..i]) == Some(filled[i])
  }

  /** Filled, typed and solved: what evaluation of a valid program yields. */
  predicate Evaluated(values: seq<Slot>, point: Point, filled: seq<Value>, rho: Readings) {
    && V.ValidDefinitions(values) && OperandsPrecede(values) && WellTyped(values, filled)
    && Solved(values, point, filled) && Repeatable(values, filled, rho)
  }

  /** Every measurement call at the point returns the one reading of its operation. */
  predicate Reads(p: Program, point: Point, rho: Readings) {
    forall s :: 0 <= s < |p.values| && p.values[s].definition.Measure? ==> ReadsSlot(p, point, rho, s)
  }

  predicate ReadsSlot(p: Program, point: Point, rho: Readings, s: nat)
    requires s < |p.values| && p.values[s].definition.Measure?
  {
    var n := MeasureCount(p.values[..s]);
    n < |point.readings| && point.readings[n] == rho(p.values[s].definition.operation)
  }

  lemma EvaluationSolves(p: Program, point: Point, rho: Readings)
    requires V.Valid(p) && PointFits(p, point) && Reads(p, point, rho)
    ensures Fold(p.values, point).Some? && Evaluated(p.values, point, Fold(p.values, point).value, rho)
  {
    TypeSoundness(p, point);
    forall s | 0 <= s < |p.values| && p.values[s].definition.Measure?
      ensures Fold(p.values, point).value[s] ==
        Quantity(ResultType(p.values[s].definition.operation), rho(p.values[s].definition.operation))
    {
      assert ReadsSlot(p, point, rho, s);
      FoldSlot(p.values, s, point);
    }
    ValidOperandsPrecede(p.values);
    forall i | 0 <= i < |p.values| ensures SolvedAt(p.values, point, Fold(p.values, point).value, i) {
      FoldSlot(p.values, i, point);
    }
  }

  function AmountAt(filled: seq<Value>, id: ValueId): real
    requires id < |filled|
  {
    if filled[id].Quantity? then filled[id].amount else 0.0
  }

  /** The arithmetic a slot performs on the amounts of its operands. */
  lemma SlotEquation(values: seq<Slot>, point: Point, filled: seq<Value>, id: ValueId)
    requires V.ValidDefinitions(values) && OperandsPrecede(values) && WellTyped(values, filled)
      && Solved(values, point, filled)
    requires id < |values|
    ensures match values[id].definition
      case Alias(x) => x < id && filled[id] == filled[x]
      case NegateDelta(x) => x < id && AmountAt(filled, id) == -AmountAt(filled, x)
      case NegatePowerDelta(x) => x < id && AmountAt(filled, id) == -AmountAt(filled, x)
      case AddDelta(x, y) => x < id && y < id && AmountAt(filled, id) == AmountAt(filled, x) + AmountAt(filled, y)
      case AddPowerDelta(x, y) => x < id && y < id && AmountAt(filled, id) == AmountAt(filled, x) + AmountAt(filled, y)
      case ApplyPowerDelta(x, y) => x < id && y < id
        && AmountAt(filled, id) == AmountAt(filled, x) + AmountAt(filled, y)
      case SubtractDelta(x, y) => x < id && y < id && AmountAt(filled, id) == AmountAt(filled, x) - AmountAt(filled, y)
      case PowerDifference(x, y) => x < id && y < id
        && AmountAt(filled, id) == AmountAt(filled, x) - AmountAt(filled, y)
      case AbsoluteValue(x) => x < id && AmountAt(filled, id) == Abs(AmountAt(filled, x))
      case Compare(op, x, y, _) =>
        x < id && y < id && filled[id] == Truth(Compares(op, AmountAt(filled, x), AmountAt(filled, y)))
      case _ => true
  {
    assert V.ValidSlot(values, id) && SolvedAt(values, point, filled, id) && OperandsBefore(values[id].definition, id);
    assert forall i :: 0 <= i < id ==> filled[..id][i] == filled[i] && TypeOf(filled[i]) == values[i].typ;
  }

  lemma LeafEquation(values: seq<Slot>, point: Point, filled: seq<Value>, rho: Readings, id: ValueId)
    requires Evaluated(values, point, filled, rho) && id < |values|
    ensures var d := values[id].definition;
      d.Constant? || d.ReferencePower? || d.SweepValue? || d.Measure? || d.ApplyPowerDelta? ==>
        filled[id].Quantity? ==>
          LeafAmount(point.coordinates, rho, filled, LeafOf(values, id).leaf) == filled[id].amount
  {
    assert V.ValidSlot(values, id) && SolvedAt(values, point, filled, id);
  }

  // ----- Normal forms denote the values -----

  /** The linear reading of a quantity slot is its amount. */
  lemma {:induction false} ReadingDenotes(num: NumberFormat, values: seq<Slot>, point: Point, filled: seq<Value>,
                                          rho: Readings, id: ValueId)
    requires Faithful(num, values) && Evaluated(values, point, filled, rho) && id < |values| && filled[id].Quantity?
    ensures Reading(num, values, id, Weighted(Amounts(LeavesAt(point.coordinates, rho, filled)))) == filled[id].amount
    decreases id, 0
  {
    SlotEquation(values, point, filled, id);
    assert V.ValidSlot(values, id);
    match values[id].definition
    case Alias(x) => ReadingDenotes(num, values, point, filled, rho, x);
    case NegateDelta(x) => ReadingDenotes(num, values, point, filled, rho, x);
    case NegatePowerDelta(x) => ReadingDenotes(num, values, point, filled, rho, x);
    case AddDelta(x, y) => OperandsDenote(num, values, point, filled, rho, x, y);
    case AddPowerDelta(x, y) => OperandsDenote(num, values, point, filled, rho, x, y);
    case SubtractDelta(x, y) => OperandsDenote(num, values, point, filled, rho, x, y);
    case PowerDifference(x, y) => OperandsDenote(num, values, point, filled, rho, x, y);
    case AbsoluteValue(x) =>
      NormDenotes(num, values, point, filled, rho, x);
      UnitTerm(Amounts(LeavesAt(point.coordinates, rho, filled)), Absolute(NormOf(num, values, x)));
    case Compare(_, _, _, _) =>
    case _ =>
      LeafEquation(values, point, filled, rho, id);
      UnitTerm(Amounts(LeavesAt(point.coordinates, rho, filled)), LeafOf(values, id));
  }

  lemma {:induction false} OperandsDenote(num: NumberFormat, values: seq<Slot>, point: Point, filled: seq<Value>,
                                          rho: Readings, x: ValueId, y: ValueId)
    requires Faithful(num, values) && Evaluated(values, point, filled, rho) && x < |values| && y < |values|
    requires filled[x].Quantity? && filled[y].Quantity?
    ensures Reading(num, values, x, Weighted(Amounts(LeavesAt(point.coordinates, rho, filled)))) == filled[x].amount
    ensures Reading(num, values, y, Weighted(Amounts(LeavesAt(point.coordinates, rho, filled)))) == filled[y].amount
    decreases if x < y then y else x, 1
  {
    ReadingDenotes(num, values, point, filled, rho, x);
    ReadingDenotes(num, values, point, filled, rho, y);
  }

  /** A delta slot: the collected combination has the slot's amount. */
  lemma {:induction false} DeltaDenotes(num: NumberFormat, values: seq<Slot>, point: Point, filled: seq<Value>,
                                        rho: Readings, id: ValueId)
    requires Faithful(num, values) && Evaluated(values, point, filled, rho) && id < |values| && filled[id].Quantity?
    ensures TermsAmount(LinearOf(num, values, id), LeavesAt(point.coordinates, rho, filled)) == filled[id].amount
    decreases id, 1
  {
    var v := LeavesAt(point.coordinates, rho, filled);
    ReadingDenotes(num, values, point, filled, rho, id);
    TermsAreTotals(LinearOf(num, values, id), v);
    WeightedIsAdditive(Amounts(v));
    LinearReads(num, values, id, Weighted(Amounts(v)));
  }

  /** The normal form of a slot denotes what evaluation stores in it. */
  lemma {:induction false} NormDenotes(num: NumberFormat, values: seq<Slot>, point: Point, filled: seq<Value>,
                                       rho: Readings, id: ValueId)
    requires Faithful(num, values) && Evaluated(values, point, filled, rho) && id < |values|
    ensures var v := LeavesAt(point.coordinates, rho, filled);
      if filled[id].Quantity? then NormAmount(NormOf(num, values, id), v) == filled[id].amount
      else NormHolds(NormOf(num, values, id), v) == filled[id].holds
    decreases id, 2
  {
    SlotEquation(values, point, filled, id);
    assert V.ValidSlot(values, id);
    if values[id].definition.Alias? {
      NormDenotes(num, values, point, filled, rho, values[id].definition.target);
    } else if Negatable(values[id].typ) {
      DeltaDenotes(num, values, point, filled, rho, id);
      LinearAmount(LinearOf(num, values, id), LeavesAt(point.coordinates, rho, filled));
    } else {
      match values[id].definition
      case ApplyPowerDelta(x, y) =>
        NormDenotes(num, values, point, filled, rho, x);
        NormDenotes(num, values, point, filled, rho, y);
      case Compare(_, x, y, _) =>
        NormDenotes(num, values, point, filled, rho, x);
        NormDenotes(num, values, point, filled, rho, y);
      case _ => LeafDenotes(num, values, point, filled, rho, id);
    }
  }

  lemma LinearAmount(terms: Terms, v: LeafValues)
    ensures NormAmount(Linear(terms), v) == TermsAmount(terms, v)
  {
  }

  lemma LeafDenotes(num: NumberFormat, values: seq<Slot>, point: Point, filled: seq<Value>, rho: Readings, id: ValueId)
    requires Evaluated(values, point, filled, rho) && id < |values| && !Negatable(values[id].typ)
    requires var d := values[id].definition; !d.Alias? && !d.ApplyPowerDelta? && !d.Compare?
    ensures var v := LeavesAt(point.coordinates, rho, filled);
      if filled[id].Quantity? then NormAmount(NormOf(num, values, id), v) == filled[id].amount
      else NormHolds(NormOf(num, values, id), v) == filled[id].holds
  {
    assert V.ValidSlot(values, id) && SolvedAt(values, point, filled, id);
    LeafEquation(values, point, filled, rho, id);
  }

  /** Soundness within a program: slots with the same text hold the same amount, or the same truth
      value, at every point where each operation has one reading. */
  lemma SameTextSameValue(num: NumberFormat, p: Program, point: Point, rho: Readings, x: ValueId, y: ValueId)
    requires Faithful(num, p.values) && V.Valid(p) && PointFits(p, point) && Reads(p, point, rho)
    requires OperandsPrecede(p.values) && x < |p.values| && y < |p.values|
    requires Identity(num, p.values, x) == Identity(num, p.values, y)
    ensures Fold(p.values, point).Some?
    ensures var filled := Fold(p.values, point).value;
      && |filled| == |p.values|
      && (filled[x].Quantity? && filled[y].Quantity? ==> filled[x].amount == filled[y].amount)
      && (filled[x].Truth? && filled[y].Truth? ==> filled[x].holds == filled[y].holds)
  {
    EvaluationSolves(p, point, rho);
    var filled := Fold(p.values, point).value;
    NormWritable(num, p.values, x);
    NormWritable(num, p.values, y);
    RenderIsInjective(num, NormOf(num, p.values, x), NormOf(num, p.values, y));
    NormDenotes(num, p.values, point, filled, rho, x);
    NormDenotes(num, p.values, point, filled, rho, y);
  }

  // ----- Across programs: no leaf may name a slot -----

  predicate SlotFree(n: Norm) {
    match n
    case Atom(_, leaf) => !leaf.SlotLeaf?
    case Linear(terms) => TermsSlotFree(terms)
    case Absolute(operand) => SlotFree(operand)
    case Apply(power, delta) => SlotFree(power) && SlotFree(delta)
    case Comparison(_, left, right) => SlotFree(left) && SlotFree(right)
  }

  predicate TermsSlotFree(terms: Terms) {
    terms.More? ==> SlotFree(terms.term) && TermsSlotFree(terms.rest)
  }

  /** A slot-free form denotes the same in every program at the same point. */
  lemma {:induction false} SlotFreeIsPortable(n: Norm, coordinates: seq<Coordinate>, rho: Readings, a: seq<Value>,
                                              b: seq<Value>)
    requires SlotFree(n)
    ensures NormAmount(n, LeavesAt(coordinates, rho, a)) == NormAmount(n, LeavesAt(coordinates, rho, b))
    ensures NormHolds(n, LeavesAt(coordinates, rho, a)) == NormHolds(n, LeavesAt(coordinates, rho, b))
    decreases n
  {
    match n
    case Atom(_, _) =>
    case Linear(terms) => TermsArePortable(terms, coordinates, rho, a, b);
    case Absolute(operand) => SlotFreeIsPortable(operand, coordinates, rho, a, b);
    case Apply(power, delta) =>
      SlotFreeIsPortable(power, coordinates, rho, a, b);
      SlotFreeIsPortable(delta, coordinates, rho, a, b);
    case Comparison(_, left, right) =>
      SlotFreeIsPortable(left, coordinates, rho, a, b);
      SlotFreeIsPortable(right, coordinates, rho, a, b);
  }

  lemma {:induction false} TermsArePortable(terms: Terms, coordinates: seq<Coordinate>, rho: Readings, a: seq<Value>,
                                            b: seq<Value>)
    requires TermsSlotFree(terms)
    ensures TermsAmount(terms, LeavesAt(coordinates, rho, a)) == TermsAmount(terms, LeavesAt(coordinates, rho, b))
    decreases terms
  {
    if terms.More? {
      var u, v := LeavesAt(coordinates, rho, a), LeavesAt(coordinates, rho, b);
      SlotFreeIsPortable(terms.term, coordinates, rho, a, b);
      TermsArePortable(terms.rest, coordinates, rho, a, b);
      SameTerms(terms, u, v);
    }
  }

  lemma SameTerms(terms: Terms, u: LeafValues, v: LeafValues)
    requires terms.More? && NormAmount(terms.term, u) == NormAmount(terms.term, v)
    requires TermsAmount(terms.rest, u) == TermsAmount(terms.rest, v)
    ensures TermsAmount(terms, u) == TermsAmount(terms, v)
  {
  }

  /** The slot applies a delta to a power, possibly through aliases. */
  predicate Applies(values: seq<Slot>, id: ValueId)
    requires OperandsPrecede(values) && id < |values|
  {
    assert OperandsBefore(values[id].definition, id);
    match values[id].definition
    case ApplyPowerDelta(_, _) => true
    case Alias(x) => Applies(values, x)
    case _ => false
  }

  /** No difference of powers is taken over an applied delta. */
  predicate Portable(values: seq<Slot>)
    requires OperandsPrecede(values)
  {
    forall i :: 0 <= i < |values| ==> PortableAt(values, i)
  }

  predicate PortableAt(values: seq<Slot>, i: nat)
    requires OperandsPrecede(values) && i < |values|
  {
    assert OperandsBefore(values[i].definition, i);
    match values[i].definition
    case PowerDifference(x, y) => !Applies(values, x) && !Applies(values, y)
    case _ => true
  }

  lemma {:induction false} AccumulateSlotFree(num: NumberFormat, terms: Terms, x: Norm, c: int)
    requires TermsSlotFree(terms) && SlotFree(x)
    ensures TermsSlotFree(Accumulate(num, terms, x, c))
  {
    if terms.More? { AccumulateSlotFree(num, terms.rest, x, c); }
  }

  lemma {:induction false} AddScaledSlotFree(num: NumberFormat, target: Terms, source: Terms, scale: int)
    requires TermsSlotFree(target) && TermsSlotFree(source)
    ensures TermsSlotFree(AddScaled(num, target, source, scale))
    decreases source
  {
    if source.More? {
      AccumulateSlotFree(num, target, source.term, source.coefficient * scale);
      AddScaledSlotFree(num, Accumulate(num, target, source.term, source.coefficient * scale), source.rest, scale);
    }
  }

  /** In a portable program no combination names a slot, except one taken over an applied delta. */
  lemma {:induction false} LinearSlotFree(num: NumberFormat, values: seq<Slot>, id: ValueId)
    requires V.ValidDefinitions(values) && OperandsPrecede(values) && Portable(values) && id < |values|
    requires values[id].typ != Boolean && !Applies(values, id)
    ensures TermsSlotFree(LinearOf(num, values, id))
    decreases id, 0
  {
    assert V.ValidSlot(values, id) && PortableAt(values, id) && OperandsBefore(values[id].definition, id);
    match values[id].definition
    case Alias(x) => LinearSlotFree(num, values, x);
    case NegateDelta(x) => DeltaSlotFree(num, values, x); AddScaledSlotFree(num, NoTerms, LinearOf(num, values, x), -1);
    case NegatePowerDelta(x) => DeltaSlotFree(num, values, x);
      AddScaledSlotFree(num, NoTerms, LinearOf(num, values, x), -1);
    case AddDelta(x, y) => DeltasSlotFree(num, values, x, y, 1);
    case AddPowerDelta(x, y) => DeltasSlotFree(num, values, x, y, 1);
    case SubtractDelta(x, y) => DeltasSlotFree(num, values, x, y, -1);
    case PowerDifference(x, y) =>
      LinearSlotFree(num, values, x);
      LinearSlotFree(num, values, y);
      AddScaledSlotFree(num, LinearOf(num, values, x), LinearOf(num, values, y), -1);
    case AbsoluteValue(x) => NormSlotFree(num, values, x);
    case _ =>
  }

  lemma {:induction false} DeltasSlotFree(num: NumberFormat, values: seq<Slot>, x: ValueId, y: ValueId, scale: int)
    requires V.ValidDefinitions(values) && OperandsPrecede(values) && Portable(values) && x < |values| && y < |values|
    requires Negatable(values[x].typ) && Negatable(values[y].typ)
    ensures TermsSlotFree(AddScaled(num, LinearOf(num, values, x), LinearOf(num, values, y), scale))
    decreases if x < y then y else x, 2
  {
    DeltaSlotFree(num, values, x);
    DeltaSlotFree(num, values, y);
    AddScaledSlotFree(num, LinearOf(num, values, x), LinearOf(num, values, y), scale);
  }

  lemma {:induction false} DeltaSlotFree(num: NumberFormat, values: seq<Slot>, x: ValueId)
    requires V.ValidDefinitions(values) && OperandsPrecede(values) && Portable(values) && x < |values|
    requires Negatable(values[x].typ)
    ensures TermsSlotFree(LinearOf(num, values, x))
    decreases x, 1
  {
    DeltasNeverApply(values, x);
    LinearSlotFree(num, values, x);
  }

  lemma {:induction false} DeltasNeverApply(values: seq<Slot>, id: ValueId)
    requires V.ValidDefinitions(values) && OperandsPrecede(values) && id < |values| && values[id].typ != Power
    ensures !Applies(values, id)
    decreases id
  {
    assert V.ValidSlot(values, id);
    if values[id].definition.Alias? { DeltasNeverApply(values, values[id].definition.target); }
  }

  lemma {:induction false} NormSlotFree(num: NumberFormat, values: seq<Slot>, id: ValueId)
    requires V.ValidDefinitions(values) && OperandsPrecede(values) && Portable(values) && id < |values|
    ensures SlotFree(NormOf(num, values, id))
    decreases id, 3
  {
    assert V.ValidSlot(values, id) && OperandsBefore(values[id].definition, id);
    if values[id].definition.Alias? {
      NormSlotFree(num, values, values[id].definition.target);
    } else if Negatable(values[id].typ) {
      DeltaSlotFree(num, values, id);
    } else {
      match values[id].definition
      case ApplyPowerDelta(x, y) => NormSlotFree(num, values, x); NormSlotFree(num, values, y);
      case Compare(_, x, y, _) => NormSlotFree(num, values, x); NormSlotFree(num, values, y);
      case _ =>
    }
  }

  /** Soundness across programs: a text that names no slot denotes the same value in both, at points
      with the same coordinates and readings. */
  lemma SameTextAcrossPrograms(num: NumberFormat, a: seq<Slot>, x: ValueId, b: seq<Slot>, y: ValueId,
                               s: Point, t: Point, filled: seq<Value>, other: seq<Value>, rho: Readings)
    requires Faithful(num, a) && Faithful(num, b)
    requires Evaluated(a, s, filled, rho) && Evaluated(b, t, other, rho)
    requires s.coordinates == t.coordinates && x < |a| && y < |b| && SlotFree(NormOf(num, a, x))
    requires Identity(num, a, x) == Identity(num, b, y)
    ensures filled[x].Quantity? && other[y].Quantity? ==> filled[x].amount == other[y].amount
    ensures filled[x].Truth? && other[y].Truth? ==> filled[x].holds == other[y].holds
  {
    NormWritable(num, a, x);
    NormWritable(num, b, y);
    RenderIsInjective(num, NormOf(num, a, x), NormOf(num, b, y));
    NormDenotes(num, a, s, filled, rho, x);
    NormDenotes(num, b, t, other, rho, y);
    SlotFreeIsPortable(NormOf(num, a, x), s.coordinates, rho, filled, other);
  }
}
