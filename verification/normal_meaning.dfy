/** What the normal form of a slot says about its value. */
module NormalMeaning {
  import opened Domain
  import opened Ir
  import opened Points
  import opened Evaluator
  import opened NormalForms
  import opened LinearForms
  import opened Normalizing
  import V = Validator
  import Soundness

  // ----- Reading the graph directly -----

  /** The value of a slot when every term that the linear form keeps whole is an unknown. */
  function Reading(num: NumberFormat, values: seq<Slot>, id: ValueId, f: Weight): real
    requires OperandsPrecede(values) && id < |values|
  {
    assert OperandsBefore(values[id].definition, id);
    match values[id].definition
    case Alias(x) => Reading(num, values, x, f)
    case NegatePowerDelta(x) => -Reading(num, values, x, f)
    case NegateDelta(x) => -Reading(num, values, x, f)
    case AddPowerDelta(x, y) => Reading(num, values, x, f) + Reading(num, values, y, f)
    case AddDelta(x, y) => Reading(num, values, x, f) + Reading(num, values, y, f)
    case SubtractDelta(x, y) => Reading(num, values, x, f) - Reading(num, values, y, f)
    case PowerDifference(x, y) => Reading(num, values, x, f) - Reading(num, values, y, f)
    case AbsoluteValue(x) => f(1, Absolute(NormOf(num, values, x)))
    case _ => f(1, LeafOf(values, id))
  }

  /** Collecting terms keeps the value, and leaves the combination canonical. */
  lemma {:induction false} LinearReads(num: NumberFormat, values: seq<Slot>, id: ValueId, f: Weight)
    requires Faithful(num, values) && Additive(f) && OperandsPrecede(values) && id < |values|
    ensures Total(LinearOf(num, values, id), f) == Reading(num, values, id, f)
    ensures Canonical(num, LinearOf(num, values, id))
    decreases id, 0
  {
    assert OperandsBefore(values[id].definition, id);
    match values[id].definition
    case Alias(x) => LinearReads(num, values, x, f);
    case NegatePowerDelta(x) => NegationReads(num, values, x, f);
    case NegateDelta(x) => NegationReads(num, values, x, f);
    case AddPowerDelta(x, y) => SumReads(num, values, x, y, 1, f);
    case AddDelta(x, y) => SumReads(num, values, x, y, 1, f);
    case SubtractDelta(x, y) => SumReads(num, values, x, y, -1, f);
    case PowerDifference(x, y) => SumReads(num, values, x, y, -1, f);
    case _ =>
  }

  lemma {:induction false} NegationReads(num: NumberFormat, values: seq<Slot>, x: ValueId, f: Weight)
    requires Faithful(num, values) && Additive(f) && OperandsPrecede(values) && x < |values|
    ensures Total(AddScaled(num, NoTerms, LinearOf(num, values, x), -1), f) == -Reading(num, values, x, f)
    ensures Canonical(num, AddScaled(num, NoTerms, LinearOf(num, values, x), -1))
    decreases x, 1
  {
    LinearReads(num, values, x, f);
    LinearWritable(num, values, x);
    AddScaledAdds(num, NoTerms, LinearOf(num, values, x), -1, f);
    AddScaledIsCanonical(num, NoTerms, LinearOf(num, values, x), -1);
  }

  lemma {:induction false} SumReads(num: NumberFormat, values: seq<Slot>, x: ValueId, y: ValueId, scale: int, f: Weight)
    requires Faithful(num, values) && Additive(f) && OperandsPrecede(values) && x < |values| && y < |values|
    requires scale == 1 || scale == -1
    ensures Total(AddScaled(num, LinearOf(num, values, x), LinearOf(num, values, y), scale), f)
            == Reading(num, values, x, f) +
              (if scale == 1 then Reading(num, values, y, f) else -Reading(num, values, y, f))
    ensures Canonical(num, AddScaled(num, LinearOf(num, values, x), LinearOf(num, values, y), scale))
    decreases if x < y then y else x, 1
  {
    LinearReads(num, values, x, f);
    LinearReads(num, values, y, f);
    LinearWritable(num, values, x);
    LinearWritable(num, values, y);
    AddScaledAdds(num, LinearOf(num, values, x), LinearOf(num, values, y), scale, f);
    AddScaledIsCanonical(num, LinearOf(num, values, x), LinearOf(num, values, y), scale);
  }

  // ----- The linear normal form decides equality -----

  /** The value of a slot under a choice of all unknowns. */
  function UnderUnknowns(num: NumberFormat, values: seq<Slot>, id: ValueId, w: Norm -> real): real
    requires OperandsPrecede(values) && id < |values|
  {
    Reading(num, values, id, Weighted(w))
  }

  ghost predicate AlwaysEqual(num: NumberFormat, a: seq<Slot>, x: ValueId, b: seq<Slot>, y: ValueId)
    requires OperandsPrecede(a) && x < |a| && OperandsPrecede(b) && y < |b|
  {
    forall w: Norm -> real :: UnderUnknowns(num, a, x, w) == UnderUnknowns(num, b, y, w)
  }

  lemma LinearFormsDecide(num: NumberFormat, a: seq<Slot>, x: ValueId, b: seq<Slot>, y: ValueId)
    requires Faithful(num, a) && Faithful(num, b)
    requires OperandsPrecede(a) && x < |a| && OperandsPrecede(b) && y < |b|
    ensures LinearOf(num, a, x) == LinearOf(num, b, y) <==> AlwaysEqual(num, a, x, b, y)
  {
    var s, t := LinearOf(num, a, x), LinearOf(num, b, y);
    forall w: Norm -> real
      ensures Sum(s, w) == UnderUnknowns(num, a, x, w) && Sum(t, w) == UnderUnknowns(num, b, y, w)
    {
      WeightedIsAdditive(w);
      LinearReads(num, a, x, Weighted(w));
      LinearReads(num, b, y, Weighted(w));
    }
    WeightedIsAdditive(Indicator(Linear(NoTerms)));
    LinearReads(num, a, x, Weighted(Indicator(Linear(NoTerms))));
    LinearReads(num, b, y, Weighted(Indicator(Linear(NoTerms))));
    CanonicalDecides(num, s, t);
    if AlwaysEqual(num, a, x, b, y) {
      forall w: Norm -> real ensures Sum(s, w) == Sum(t, w) {
        assert UnderUnknowns(num, a, x, w) == UnderUnknowns(num, b, y, w);
      }
      assert EqualEverywhere(s, t);
    }
    if s == t {
      forall w: Norm -> real ensures UnderUnknowns(num, a, x, w) == UnderUnknowns(num, b, y, w) {
        assert Sum(s, w) == Sum(t, w);
      }
    }
  }

  /** A delta slot that is not an alias is compared by its linear form. */
  lemma {:induction false} DeltaForm(num: NumberFormat, values: seq<Slot>, id: ValueId)
    requires V.ValidDefinitions(values) && OperandsPrecede(values) && id < |values| && Negatable(values[id].typ)
    ensures NormOf(num, values, id) == Linear(LinearOf(num, values, id))
    decreases id
  {
    assert V.ValidSlot(values, id);
    if values[id].definition.Alias? { DeltaForm(num, values, values[id].definition.target); }
  }

  /** The linear normal form decides equality exactly: two delta expressions, of one program or of
      two, have the same text if and only if they have the same value for all values of their
      leaves (constants included) and absolute values, taken as independent unknowns. */
  lemma NormalFormDecides(num: NumberFormat, a: seq<Slot>, x: ValueId, b: seq<Slot>, y: ValueId)
    requires Faithful(num, a) && Faithful(num, b)
    requires V.ValidDefinitions(a) && V.ValidDefinitions(b) && x < |a| && y < |b|
    requires Negatable(a[x].typ) && Negatable(b[y].typ)
    ensures OperandsPrecede(a) && OperandsPrecede(b)
    ensures Identity(num, a, x) == Identity(num, b, y) <==> AlwaysEqual(num, a, x, b, y)
    ensures Canonical(num, LinearOf(num, a, x))
  {
    ValidOperandsPrecede(a);
    ValidOperandsPrecede(b);
    DeltaForm(num, a, x);
    DeltaForm(num, b, y);
    NormWritable(num, a, x);
    NormWritable(num, b, y);
    RenderIsInjective(num, NormOf(num, a, x), NormOf(num, b, y));
    LinearFormsDecide(num, a, x, b, y);
    WeightedIsAdditive(Indicator(Linear(NoTerms)));
    LinearReads(num, a, x, Weighted(Indicator(Linear(NoTerms))));
  }

  /** What a linear combination of given terms says of a slot, its terms being unknowns. */
  ghost predicate ReadsAs(num: NumberFormat, values: seq<Slot>, id: ValueId, terms: Terms)
    requires OperandsPrecede(values) && id < |values|
  {
    forall w: Norm -> real :: UnderUnknowns(num, values, id, w) == Sum(terms, w)
  }

  lemma LinearReadsAs(num: NumberFormat, values: seq<Slot>, id: ValueId, terms: Terms)
    requires Faithful(num, values) && OperandsPrecede(values) && id < |values| && Canonical(num, terms)
    ensures LinearOf(num, values, id) == terms <==> ReadsAs(num, values, id, terms)
  {
    var own := LinearOf(num, values, id);
    forall w: Norm -> real ensures Sum(own, w) == UnderUnknowns(num, values, id, w) {
      WeightedIsAdditive(w);
      LinearReads(num, values, id, Weighted(w));
    }
    WeightedIsAdditive(Indicator(Linear(NoTerms)));
    LinearReads(num, values, id, Weighted(Indicator(Linear(NoTerms))));
    CanonicalDecides(num, own, terms);
    if ReadsAs(num, values, id, terms) {
      forall w: Norm -> real ensures Sum(own, w) == Sum(terms, w) {
        assert UnderUnknowns(num, values, id, w) == Sum(terms, w);
      }
      assert EqualEverywhere(own, terms);
    }
  }

  /** A delta expression has the text of a canonical combination exactly when it is that
      combination, however it is written. */
  lemma DeltaTextIsExact(num: NumberFormat, values: seq<Slot>, id: ValueId, terms: Terms)
    requires Faithful(num, values) && V.ValidDefinitions(values) && id < |values| && Negatable(values[id].typ)
    requires Canonical(num, terms) && WritableTerms(num, terms)
    ensures OperandsPrecede(values)
    ensures Identity(num, values, id) == Some(Render(num, Linear(terms))) <==> ReadsAs(num, values, id, terms)
  {
    ValidOperandsPrecede(values);
    DeltaForm(num, values, id);
    NormWritable(num, values, id);
    RenderIsInjective(num, NormOf(num, values, id), Linear(terms));
    LinearReadsAs(num, values, id, terms);
  }

  // ----- Without absolute values, only the leaves are unknown -----

  type LeafValues = (ValueType, Leaf) -> real

  predicate AbsoluteFree(values: seq<Slot>, id: ValueId)
    requires OperandsPrecede(values) && id < |values|
  {
    assert OperandsBefore(values[id].definition, id);
    match values[id].definition
    case Alias(x) => AbsoluteFree(values, x)
    case NegatePowerDelta(x) => AbsoluteFree(values, x)
    case NegateDelta(x) => AbsoluteFree(values, x)
    case AddPowerDelta(x, y) => AbsoluteFree(values, x) && AbsoluteFree(values, y)
    case AddDelta(x, y) => AbsoluteFree(values, x) && AbsoluteFree(values, y)
    case SubtractDelta(x, y) => AbsoluteFree(values, x) && AbsoluteFree(values, y)
    case PowerDifference(x, y) => AbsoluteFree(values, x) && AbsoluteFree(values, y)
    case AbsoluteValue(_) => false
    case _ => true
  }

  /** The value of an expression under a choice of its leaves alone. */
  function UnderLeaves(values: seq<Slot>, id: ValueId, v: LeafValues): real
    requires OperandsPrecede(values) && id < |values|
  {
    assert OperandsBefore(values[id].definition, id);
    match values[id].definition
    case Alias(x) => UnderLeaves(values, x, v)
    case NegatePowerDelta(x) => -UnderLeaves(values, x, v)
    case NegateDelta(x) => -UnderLeaves(values, x, v)
    case AddPowerDelta(x, y) => UnderLeaves(values, x, v) + UnderLeaves(values, y, v)
    case AddDelta(x, y) => UnderLeaves(values, x, v) + UnderLeaves(values, y, v)
    case SubtractDelta(x, y) => UnderLeaves(values, x, v) - UnderLeaves(values, y, v)
    case PowerDifference(x, y) => UnderLeaves(values, x, v) - UnderLeaves(values, y, v)
    case AbsoluteValue(x) => Abs(UnderLeaves(values, x, v))
    case _ => v(LeafOf(values, id).typ, LeafOf(values, id).leaf)
  }

  function Restrict(w: Norm -> real): LeafValues {
    (typ: ValueType, leaf: Leaf) => w(Atom(typ, leaf))
  }

  function Lift(v: LeafValues): Norm -> real {
    (n: Norm) => if n.Atom? then v(n.typ, n.leaf) else 0.0
  }

  lemma {:induction false} LeavesSuffice(num: NumberFormat, values: seq<Slot>, id: ValueId, w: Norm -> real,
                                         v: LeafValues)
    requires OperandsPrecede(values) && id < |values| && AbsoluteFree(values, id)
    requires forall typ, leaf :: v(typ, leaf) == w(Atom(typ, leaf))
    ensures UnderUnknowns(num, values, id, w) == UnderLeaves(values, id, v)
    decreases id
  {
    assert OperandsBefore(values[id].definition, id);
    match values[id].definition
    case Alias(x) => LeavesSuffice(num, values, x, w, v);
    case NegatePowerDelta(x) => LeavesSuffice(num, values, x, w, v);
    case NegateDelta(x) => LeavesSuffice(num, values, x, w, v);
    case AddPowerDelta(x, y) => LeavesSuffice(num, values, x, w, v); LeavesSuffice(num, values, y, w, v);
    case AddDelta(x, y) => LeavesSuffice(num, values, x, w, v); LeavesSuffice(num, values, y, w, v);
    case SubtractDelta(x, y) => LeavesSuffice(num, values, x, w, v); LeavesSuffice(num, values, y, w, v);
    case PowerDifference(x, y) => LeavesSuffice(num, values, x, w, v); LeavesSuffice(num, values, y, w, v);
    case AbsoluteValue(_) =>
    case _ => UnitTerm(w, LeafOf(values, id));
  }

  lemma UnitTerm(w: Norm -> real, n: Norm)
    ensures Weighted(w)(1, n) == w(n)
  {
  }

  ghost predicate EqualUnderLeaves(a: seq<Slot>, x: ValueId, b: seq<Slot>, y: ValueId)
    requires OperandsPrecede(a) && x < |a| && OperandsPrecede(b) && y < |b|
  {
    forall v: LeafValues :: UnderLeaves(a, x, v) == UnderLeaves(b, y, v)
  }

  /** For expressions without absolute values: the same text if and only if equal under every
      valuation of the leaves. */
  lemma NormalFormIsExact(num: NumberFormat, a: seq<Slot>, x: ValueId, b: seq<Slot>, y: ValueId)
    requires Faithful(num, a) && Faithful(num, b)
    requires V.ValidDefinitions(a) && V.ValidDefinitions(b) && x < |a| && y < |b|
    requires Negatable(a[x].typ) && Negatable(b[y].typ)
    requires OperandsPrecede(a) && OperandsPrecede(b) && AbsoluteFree(a, x) && AbsoluteFree(b, y)
    ensures Identity(num, a, x) == Identity(num, b, y) <==> EqualUnderLeaves(a, x, b, y)
  {
    NormalFormDecides(num, a, x, b, y);
    if AlwaysEqual(num, a, x, b, y) {
      forall v: LeafValues ensures UnderLeaves(a, x, v) == UnderLeaves(b, y, v) {
        LeavesSuffice(num, a, x, Lift(v), v);
        LeavesSuffice(num, b, y, Lift(v), v);
        assert UnderUnknowns(num, a, x, Lift(v)) == UnderUnknowns(num, b, y, Lift(v));
      }
    }
    if EqualUnderLeaves(a, x, b, y) {
      forall w: Norm -> real ensures UnderUnknowns(num, a, x, w) == UnderUnknowns(num, b, y, w) {
        LeavesSuffice(num, a, x, w, Restrict(w));
        LeavesSuffice(num, b, y, w, Restrict(w));
        assert UnderLeaves(a, x, Restrict(w)) == UnderLeaves(b, y, Restrict(w));
      }
    }
  }

  // ----- Normal forms denote what evaluation computes -----

  /** The value of a normal form under a choice of its leaves. */
  function NormAmount(n: Norm, v: LeafValues): real {
    match n
    case Atom(typ, leaf) => v(typ, leaf)
    case Linear(terms) => TermsAmount(terms, v)
    case Absolute(operand) => Abs(NormAmount(operand, v))
    case Apply(power, delta) => NormAmount(power, v) + NormAmount(delta, v)
    case Comparison(_, _, _) => 0.0
  }

  function TermsAmount(terms: Terms, v: LeafValues): real {
    match terms
    case NoTerms => 0.0
    case More(k, t, rest) => k as real * NormAmount(t, v) + TermsAmount(rest, v)
  }

  function NormHolds(n: Norm, v: LeafValues): bool {
    match n
    case Comparison(op, left, right) => Compares(op, NormAmount(left, v), NormAmount(right, v))
    case Atom(_, ConstantLeaf(Truth(holds))) => holds
    case _ => false
  }

  function Amounts(v: LeafValues): Norm -> real {
    (n: Norm) => NormAmount(n, v)
  }

  lemma {:induction false} TermsAreTotals(terms: Terms, v: LeafValues)
    ensures TermsAmount(terms, v) == Sum(terms, Amounts(v))
  {
    if terms.More? { TermsAreTotals(terms.rest, v); }
  }
}
