/** What a verified threshold says of the assertions of a program. */
module Thresholds {
  import opened Domain
  import opened Text
  import opened Ir
  import opened Points
  import opened Evaluator
  import opened NormalForms
  import opened LinearForms
  import opened Normalizing
  import opened NormalMeaning
  import opened NormalSemantics
  import opened Requirements
  import Sampling
  import Soundness
  import V = Validator

  /** The types a threshold can have. */
  predicate ThresholdType(typ: ValueType) {
    typ in {PowerDelta, Ratio, FrequencyDelta}
  }

  /** What the text of a threshold says before its amount. */
  function ThresholdName(typ: ValueType): string
    requires ThresholdType(typ)
  {
    if typ == PowerDelta then "PowerDelta{power_delta:"
    else if typ == Ratio then "Ratio{ratio:"
    else "FrequencyDelta{frequency_delta:"
  }

  /** The text a requirement expects to the right of the comparison. */
  function ThresholdText(num: NumberFormat, typ: ValueType, amount: real): string
    requires ThresholdType(typ)
  {
    "linear(1*" + ThresholdName(typ) + num.text(amount) + "})"
  }

  function ThresholdTerm(typ: ValueType, amount: real): Norm
    requires ThresholdType(typ)
  {
    Atom(typ, ConstantLeaf(Quantity(typ, amount)))
  }

  function ThresholdTerms(typ: ValueType, amount: real): Terms
    requires ThresholdType(typ)
  {
    More(1, ThresholdTerm(typ, amount), NoTerms)
  }

  lemma PowerDeltaName()
    ensures ThresholdName(PowerDelta) == TypeName(PowerDelta) + "{" + KindLabel(PowerDelta) + ":"
  {
    assert "PowerDelta" + "{" + "power_delta" == "PowerDelta{power_delta";
  }

  lemma RatioName()
    ensures ThresholdName(Ratio) == TypeName(Ratio) + "{" + KindLabel(Ratio) + ":"
  {
  }

  lemma FrequencyDeltaName()
    ensures ThresholdName(FrequencyDelta) == TypeName(FrequencyDelta) + "{" + KindLabel(FrequencyDelta) + ":"
  {
    assert "FrequencyDelta" + "{" + "frequency_delta" == "FrequencyDelta{frequency_delta";
  }

  lemma NameIsLabelled(typ: ValueType)
    requires ThresholdType(typ)
    ensures ThresholdName(typ) == TypeName(typ) + "{" + KindLabel(typ) + ":"
  {
    if typ == PowerDelta { PowerDeltaName(); } else if typ == Ratio { RatioName(); } else { FrequencyDeltaName(); }
  }

  lemma Nested(l: string, k: string, n: string, b: string, d: string, c: string, t: string, e: string, r: string)
    ensures l + (k + (n + b + (d + c + t) + e)) + r == (l + k) + (n + b + d + c) + t + (e + r)
  {
    var x := n + b;
    Chain2(x, d, c);
    Chain2(x, d + c, t);
    Chain2(x + d + c, t, e);
    Chain2(x + d + c + t, e, r);
    assert l + (k + (x + (d + c + t) + e)) == (l + k) + (x + d + c + t + e);
    assert (l + k) + (x + d + c + t + e) + r == (l + k) + ((x + d + c) + t + (e + r));
  }

  lemma ThresholdRenders(num: NumberFormat, typ: ValueType, amount: real)
    requires ThresholdType(typ)
    ensures ThresholdText(num, typ, amount) == Render(num, Linear(ThresholdTerms(typ, amount)))
  {
    var term := ThresholdTerm(typ, amount);
    LastTermRenders(num, 1, term);
    NameIsLabelled(typ);
    assert IntegerText(1) + "*" == "1*" && "linear(" + "1*" == "linear(1*" && "}" + ")" == "})";
    Nested("linear(", "1*", TypeName(typ), "{", KindLabel(typ), ":", num.text(amount), "}", ")");
  }

  lemma OneTerm(w: Norm -> real, n: Norm)
    ensures Sum(More(1, n, NoTerms), w) == w(n)
  {
    UnitWeights(w, n);
    assert Total(NoTerms, Weighted(w)) == 0.0;
  }

  // ----- The text is exact -----

  /** A slot of a threshold's type has its text exactly when it is that constant, however it is
      written. */
  lemma ThresholdIsExact(num: NumberFormat, values: seq<Slot>, id: ValueId, amount: real)
    requires Faithful(num, values) && amount in num.numbers && V.ValidDefinitions(values)
    requires id < |values| && ThresholdType(values[id].typ)
    ensures OperandsPrecede(values)
    ensures var typ := values[id].typ;
      Identity(num, values, id) == Some(ThresholdText(num, typ, amount)) <==>
      forall w: Norm -> real :: UnderUnknowns(num, values, id, w) == w(ThresholdTerm(typ, amount))
  {
    var typ := values[id].typ;
    var terms := ThresholdTerms(typ, amount);
    ThresholdRenders(num, typ, amount);
    assert Writable(num, ThresholdTerm(typ, amount)) && WritableTerms(num, NoTerms);
    DeltaTextIsExact(num, values, id, terms);
    forall w: Norm -> real ensures Sum(terms, w) == w(ThresholdTerm(typ, amount)) { OneTerm(w, terms.term); }
    if ReadsAs(num, values, id, terms) {
      forall w: Norm -> real ensures UnderUnknowns(num, values, id, w) == w(ThresholdTerm(typ, amount)) {
        assert UnderUnknowns(num, values, id, w) == Sum(terms, w);
      }
    }
    if forall w: Norm -> real :: UnderUnknowns(num, values, id, w) == w(ThresholdTerm(typ, amount)) {
      forall w: Norm -> real ensures UnderUnknowns(num, values, id, w) == Sum(terms, w) {}
    }
  }

  // ----- What a satisfied clause means -----

  lemma {:induction false} AssertionFactAt(num: NumberFormat, p: Program, n: nat, i: nat)
    requires OperandsPrecede(p.values) && i < n <= |p.assertions| && AssertionFacts(num, p, n).Some?
    ensures |AssertionFacts(num, p, n).value| == n
    ensures var a, fact := p.assertions[i], AssertionFacts(num, p, n).value[i];
      && fact.op == a.op && fact.operandType == a.operandType
      && Identity(num, p.values, a.left) == Some(fact.left) && Identity(num, p.values, a.right) == Some(fact.right)
    decreases n
  {
    if i < n - 1 {
      AssertionFactAt(num, p, n - 1, i);
    } else if n > 1 {
      AssertionFactAt(num, p, n - 1, 0);
    }
  }

  /** The clause asks for the comparison with a threshold, and its left side fits the text. */
  predicate Asks(num: NumberFormat, r: Requirement, op: ComparisonOperator, typ: ValueType, amount: real) {
    && ThresholdType(typ) && r.kind == AssertionKind && r.assertion.Some?
    && r.assertion.value.op == op && r.assertion.value.operandType == typ
    && r.assertion.value.right == ThresholdText(num, typ, amount)
  }

  predicate LeftFits(r: Requirement, left: string)
    requires r.assertion.Some?
  {
    if r.constrainAssertionLeft then left == r.assertion.value.left
    else r.assertion.value.left != "absolute" || Contains(left, "absolute(")
  }

  /** The assertion compares with the threshold, however that is written, and its left side fits. */
  ghost predicate Compared(num: NumberFormat, p: Program, r: Requirement, op: ComparisonOperator, typ: ValueType,
                           amount: real, i: nat)
    requires OperandsPrecede(p.values) && V.ValidDefinitions(p.values) && V.ValidAssertions(p) && i < |p.assertions|
    requires Asks(num, r, op, typ, amount)
  {
    var a := p.assertions[i];
    assert V.ValidAssertion(p, i);
    Sampling.ComparisonIsTyped(p.values, a.value);
    && a.op == op && a.operandType == typ && LeftFits(r, Render(num, NormOf(num, p.values, a.left)))
    && forall w: Norm -> real :: UnderUnknowns(num, p.values, a.right, w) == w(ThresholdTerm(typ, amount))
  }

  lemma MatchedIsCompared(num: NumberFormat, p: Program, r: Requirement, op: ComparisonOperator, typ: ValueType,
                          amount: real, i: nat, fact: AssertionFact)
    requires Faithful(num, p.values) && amount in num.numbers && OperandsPrecede(p.values)
    requires V.ValidDefinitions(p.values) && V.ValidAssertions(p) && i < |p.assertions| && Asks(num, r, op, typ, amount)
    requires var a := p.assertions[i];
      && fact.op == a.op && fact.operandType == a.operandType
      && Identity(num, p.values, a.left) == Some(fact.left) && Identity(num, p.values, a.right) == Some(fact.right)
    ensures AssertionMatches(r, r.assertion.value, fact) <==> Compared(num, p, r, op, typ, amount, i)
  {
    var a := p.assertions[i];
    assert V.ValidAssertion(p, i);
    Sampling.ComparisonIsTyped(p.values, a.value);
    if a.operandType == typ { ThresholdIsExact(num, p.values, a.right, amount); }
  }

  lemma FactIsCompared(num: NumberFormat, p: Program, r: Requirement, op: ComparisonOperator, typ: ValueType,
                       amount: real, i: nat)
    requires Faithful(num, p.values) && amount in num.numbers && OperandsPrecede(p.values)
    requires V.ValidDefinitions(p.values) && V.ValidAssertions(p) && i < |p.assertions| && Asks(num, r, op, typ, amount)
    requires AssertionFacts(num, p, |p.assertions|).Some?
    ensures |AssertionFacts(num, p, |p.assertions|).value| == |p.assertions|
    ensures AssertionMatches(r, r.assertion.value, AssertionFacts(num, p, |p.assertions|).value[i])
            <==> Compared(num, p, r, op, typ, amount, i)
  {
    AssertionFactAt(num, p, |p.assertions|, i);
    MatchedIsCompared(num, p, r, op, typ, amount, i, AssertionFacts(num, p, |p.assertions|).value[i]);
  }

  lemma SomeCompared(num: NumberFormat, p: Program, r: Requirement, op: ComparisonOperator, typ: ValueType,
                     amount: real)
    requires Faithful(num, p.values) && amount in num.numbers && OperandsPrecede(p.values)
    requires V.ValidDefinitions(p.values) && V.ValidAssertions(p) && Asks(num, r, op, typ, amount)
    requires AssertionFacts(num, p, |p.assertions|).Some?
    ensures (exists a <- AssertionFacts(num, p, |p.assertions|).value :: AssertionMatches(r, r.assertion.value, a))
            <==> exists i :: 0 <= i < |p.assertions| && Compared(num, p, r, op, typ, amount, i)
  {
    var facts := AssertionFacts(num, p, |p.assertions|).value;
    FactsCorrespond(num, p, |p.assertions|);
    forall i | 0 <= i < |p.assertions|
      ensures AssertionMatches(r, r.assertion.value, facts[i]) <==> Compared(num, p, r, op, typ, amount, i)
    {
      FactIsCompared(num, p, r, op, typ, amount, i);
    }
    SomeFact(facts, a => AssertionMatches(r, r.assertion.value, a));
  }

  /** A threshold clause is satisfied exactly when some assertion of the program makes that
      comparison, and violated exactly when none does. */
  lemma ThresholdClauseIsExact(num: NumberFormat, p: Program, r: Requirement, op: ComparisonOperator, typ: ValueType,
                               amount: real)
    requires Faithful(num, p.values) && amount in num.numbers && V.Valid(p) && OperandsPrecede(p.values)
    requires Asks(num, r, op, typ, amount) && FactsOf(num, p).Some?
    ensures Verify(num, r, FactsOf(num, p).value) ==
      StatusFor(exists i :: 0 <= i < |p.assertions| && Compared(num, p, r, op, typ, amount, i))
  {
    SomeCompared(num, p, r, op, typ, amount);
  }

  lemma FactsCorrespond(num: NumberFormat, p: Program, n: nat)
    requires OperandsPrecede(p.values) && n <= |p.assertions| && AssertionFacts(num, p, n).Some?
    ensures |AssertionFacts(num, p, n).value| == n
  {
    if n > 0 { AssertionFactAt(num, p, n, 0); }
  }

  lemma SomeFact<T>(list: seq<T>, q: T -> bool)
    ensures (exists x <- list :: q(x)) <==> exists i :: 0 <= i < |list| && q(list[i])
  {
  }

  /** The verdict of the assertion compares its left value with the threshold itself. */
  predicate JudgesBy(p: Program, point: Point, i: nat, op: ComparisonOperator, amount: real)
    requires i < |p.assertions|
  {
    && Fold(p.values, point).Some?
    && var filled, a := Fold(p.values, point).value, p.assertions[i];
       && a.left < |filled| && a.value < |filled| && filled[a.left].Quantity?
       && filled[a.value] == Truth(Compares(op, filled[a.left].amount, amount))
  }

  /** At every fitting point with one reading per operation, such an assertion passes exactly when
      its left value stands in the required relation to the threshold. */
  lemma ComparedJudges(num: NumberFormat, p: Program, r: Requirement, op: ComparisonOperator, typ: ValueType,
                       amount: real, i: nat, point: Point, rho: Readings)
    requires Faithful(num, p.values) && amount in num.numbers && V.Valid(p) && OperandsPrecede(p.values)
    requires Asks(num, r, op, typ, amount) && i < |p.assertions| && Compared(num, p, r, op, typ, amount, i)
    requires Soundness.PointFits(p, point) && Reads(p, point, rho)
    ensures JudgesBy(p, point, i, op, amount)
  {
    var a := p.assertions[i];
    assert V.ValidAssertion(p, i);
    EvaluationSolves(p, point, rho);
    Sampling.ComparisonIsTyped(p.values, a.value);
    Sampling.ComparisonHolds(p.values, a.value, point);
    ThresholdAmount(num, p.values, a.right, amount, point, Fold(p.values, point).value, rho);
  }

  lemma FormIsThreshold(num: NumberFormat, values: seq<Slot>, id: ValueId, amount: real)
    requires Faithful(num, values) && amount in num.numbers && V.ValidDefinitions(values) && OperandsPrecede(values)
    requires id < |values| && ThresholdType(values[id].typ)
    requires forall w: Norm -> real :: UnderUnknowns(num, values, id, w) == w(ThresholdTerm(values[id].typ, amount))
    ensures NormOf(num, values, id) == Linear(ThresholdTerms(values[id].typ, amount))
  {
    var terms := ThresholdTerms(values[id].typ, amount);
    ThresholdIsExact(num, values, id, amount);
    ThresholdRenders(num, values[id].typ, amount);
    NormWritable(num, values, id);
    assert Writable(num, terms.term) && WritableTerms(num, NoTerms);
    RenderIsInjective(num, NormOf(num, values, id), Linear(terms));
  }

  lemma OneAmount(n: Norm, v: LeafValues)
    ensures NormAmount(Linear(More(1, n, NoTerms)), v) == NormAmount(n, v)
  {
    LinearAmount(More(1, n, NoTerms), v);
    assert TermsAmount(NoTerms, v) == 0.0;
  }

  lemma ConstantAmount(typ: ValueType, amount: real, coordinates: seq<Coordinate>, rho: Readings, filled: seq<Value>)
    requires ThresholdType(typ)
    ensures NormAmount(ThresholdTerm(typ, amount), LeavesAt(coordinates, rho, filled)) == amount
  {
  }

  lemma ThresholdAmount(num: NumberFormat, values: seq<Slot>, id: ValueId, amount: real, point: Point,
                        filled: seq<Value>, rho: Readings)
    requires Faithful(num, values) && amount in num.numbers && Evaluated(values, point, filled, rho)
    requires id < |values| && ThresholdType(values[id].typ) && filled[id].Quantity?
    requires forall w: Norm -> real :: UnderUnknowns(num, values, id, w) == w(ThresholdTerm(values[id].typ, amount))
    ensures filled[id].amount == amount
  {
    FormIsThreshold(num, values, id, amount);
    NormDenotes(num, values, point, filled, rho, id);
    OneAmount(ThresholdTerm(values[id].typ, amount), LeavesAt(point.coordinates, rho, filled));
    ConstantAmount(values[id].typ, amount, point.coordinates, rho, filled);
  }

  /** Why a satisfied clause can be relied on: some assertion of the program passes, at every such
      point, exactly when its left value meets the threshold. */
  lemma SatisfiedThresholdIsJudged(num: NumberFormat, p: Program, r: Requirement, op: ComparisonOperator,
                                   typ: ValueType, amount: real)
    requires Faithful(num, p.values) && amount in num.numbers && V.Valid(p) && OperandsPrecede(p.values)
    requires Asks(num, r, op, typ, amount) && FactsOf(num, p).Some?
    requires Verify(num, r, FactsOf(num, p).value) == Satisfied
    ensures exists i :: 0 <= i < |p.assertions| && AlwaysJudgedBy(p, i, op, amount)
  {
    ThresholdClauseIsExact(num, p, r, op, typ, amount);
    var i :| 0 <= i < |p.assertions| && Compared(num, p, r, op, typ, amount, i);
    forall point, rho | Soundness.PointFits(p, point) && Reads(p, point, rho)
      ensures JudgesBy(p, point, i, op, amount)
    {
      ComparedJudges(num, p, r, op, typ, amount, i, point, rho);
    }
    assert AlwaysJudgedBy(p, i, op, amount);
  }

  ghost predicate AlwaysJudgedBy(p: Program, i: nat, op: ComparisonOperator, amount: real)
    requires i < |p.assertions|
  {
    forall point, rho | Soundness.PointFits(p, point) && Reads(p, point, rho) :: JudgesBy(p, point, i, op, amount)
  }
}
