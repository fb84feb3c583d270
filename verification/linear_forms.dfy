/** Linear combinations kept in the order of their terms' texts. */
module LinearForms {
  import opened Domain
  import opened Text
  import opened NormalForms

  /** Adds to the coefficient of a term; a term whose coefficient becomes zero is erased. */
  function Accumulate(num: NumberFormat, terms: Terms, x: Norm, c: int): Terms {
    match terms
    case NoTerms => if c == 0 then NoTerms else More(c, x, NoTerms)
    case More(k, t, rest) =>
      if Render(num, x) == Render(num, t) then (if k + c == 0 then rest else More(k + c, t, rest))
      else if Before(Render(num, x), Render(num, t)) then (if c == 0 then terms else More(c, x, terms))
      else More(k, t, Accumulate(num, rest, x, c))
  }

  /** Adds a multiple of every term of the source. */
  function AddScaled(num: NumberFormat, target: Terms, source: Terms, scale: int): Terms
    decreases source
  {
    match source
    case NoTerms => target
    case More(k, t, rest) => AddScaled(num, Accumulate(num, target, t, k * scale), rest, scale)
  }

  /** Strictly ascending texts, and no zero coefficient. */
  predicate Canonical(num: NumberFormat, terms: Terms) {
    match terms
    case NoTerms => true
    case More(k, t, rest) => k != 0 && Above(num, Render(num, t), rest) && Canonical(num, rest)
  }

  predicate Above(num: NumberFormat, text: string, terms: Terms) {
    terms.More? ==> Before(text, Render(num, terms.term))
  }

  lemma {:induction false} AccumulateIsCanonical(num: NumberFormat, terms: Terms, x: Norm, c: int, floor: string)
    requires Canonical(num, terms)
    ensures Canonical(num, Accumulate(num, terms, x, c))
    ensures Above(num, floor, terms) && Before(floor, Render(num, x)) ==>
      Above(num, floor, Accumulate(num, terms, x, c))
  {
    if terms.More? {
      var s, t := Render(num, x), Render(num, terms.term);
      BeforeTotal(s, t);
      AccumulateIsCanonical(num, terms.rest, x, c, t);
      if terms.rest.More? && Before(floor, t) { BeforeTransitive(floor, t, Render(num, terms.rest.term)); }
    }
  }

  lemma {:induction false} AddScaledIsCanonical(num: NumberFormat, target: Terms, source: Terms, scale: int)
    requires Canonical(num, target)
    ensures Canonical(num, AddScaled(num, target, source, scale))
    decreases source
  {
    if source.More? {
      AccumulateIsCanonical(num, target, source.term, source.coefficient * scale, "");
      AddScaledIsCanonical(num, Accumulate(num, target, source.term, source.coefficient * scale), source.rest, scale);
    }
  }

  lemma {:induction false} AccumulateWritable(num: NumberFormat, terms: Terms, x: Norm, c: int)
    requires WritableTerms(num, terms) && Writable(num, x)
    ensures WritableTerms(num, Accumulate(num, terms, x, c))
  {
    if terms.More? { AccumulateWritable(num, terms.rest, x, c); }
  }

  lemma {:induction false} AddScaledWritable(num: NumberFormat, target: Terms, source: Terms, scale: int)
    requires WritableTerms(num, target) && WritableTerms(num, source)
    ensures WritableTerms(num, AddScaled(num, target, source, scale))
    decreases source
  {
    if source.More? {
      AccumulateWritable(num, target, source.term, source.coefficient * scale);
      AddScaledWritable(num, Accumulate(num, target, source.term, source.coefficient * scale), source.rest, scale);
    }
  }

  // ----- Coefficients -----

  function Coefficient(terms: Terms, x: Norm): int {
    match terms
    case NoTerms => 0
    case More(k, t, rest) => (if t == x then k else 0) + Coefficient(rest, x)
  }

  /** A term below all others does not occur. */
  lemma {:induction false} AbsentBelow(num: NumberFormat, terms: Terms, x: Norm)
    requires Canonical(num, terms) && Above(num, Render(num, x), terms)
    ensures Coefficient(terms, x) == 0
  {
    if terms.More? {
      BeforeIrreflexive(Render(num, x));
      if terms.rest.More? {
        BeforeTransitive(Render(num, x), Render(num, terms.term), Render(num, terms.rest.term));
      }
      AbsentBelow(num, terms.rest, x);
    }
  }

  lemma HeadIsPresent(num: NumberFormat, terms: Terms)
    requires Canonical(num, terms)
    ensures terms.More? ==> Coefficient(terms, terms.term) != 0
  {
    if terms.More? {
      AbsentBelow(num, terms.rest, terms.term);
    }
  }

  /** A canonical combination is determined by its coefficients. */
  lemma {:induction false} CanonicalIsUnique(num: NumberFormat, a: Terms, b: Terms)
    requires Canonical(num, a) && Canonical(num, b)
    requires forall x :: Coefficient(a, x) == Coefficient(b, x)
    ensures a == b
  {
    HeadIsPresent(num, a);
    HeadIsPresent(num, b);
    if a.More? && b.More? {
      HeadsAgree(num, a, b);
      forall x ensures Coefficient(a.rest, x) == Coefficient(b.rest, x) {
        assert Coefficient(a, x) == Coefficient(b, x);
        AbsentBelow(num, a.rest, a.term);
        AbsentBelow(num, b.rest, b.term);
      }
      CanonicalIsUnique(num, a.rest, b.rest);
    }
  }

  lemma HeadsAgree(num: NumberFormat, a: Terms, b: Terms)
    requires a.More? && b.More? && Canonical(num, a) && Canonical(num, b)
    requires forall x :: Coefficient(a, x) == Coefficient(b, x)
    ensures a.term == b.term && a.coefficient == b.coefficient
  {
    AbsentBelow(num, a.rest, a.term);
    AbsentBelow(num, b.rest, b.term);
    assert Coefficient(a, a.term) == Coefficient(b, a.term);
    assert Coefficient(b, b.term) == Coefficient(a, b.term);
    BeforeTotal(Render(num, a.term), Render(num, b.term));
    if Before(Render(num, a.term), Render(num, b.term)) {
      AbsentBelow(num, b, a.term);
    } else if Before(Render(num, b.term), Render(num, a.term)) {
      AbsentBelow(num, a, b.term);
    } else if a.term != b.term {
      AbsentBelow(num, a.rest, b.term);
    }
  }

  // ----- Values -----

  /** What a coefficient contributes with its term. */
  type Weight = (int, Norm) -> real

  ghost predicate Additive(f: Weight) {
    forall a: int, b: int, n: Norm :: f(a + b, n) == f(a, n) + f(b, n)
  }

  function Total(terms: Terms, f: Weight): real {
    match terms
    case NoTerms => 0.0
    case More(k, t, rest) => f(k, t) + Total(rest, f)
  }

  function Signed(x: real, scale: int): real {
    if scale == 1 then x else -x
  }

  lemma ZeroWeight(f: Weight, k: int, n: Norm)
    requires Additive(f)
    ensures f(0, n) == 0.0 && f(-k, n) == -f(k, n)
  {
    assert f(0 + 0, n) == f(0, n) + f(0, n);
    assert f(k + -k, n) == f(k, n) + f(-k, n);
  }

  lemma ScaledWeight(f: Weight, k: int, n: Norm, scale: int)
    requires Additive(f) && (scale == 1 || scale == -1)
    ensures f(k * scale, n) == Signed(f(k, n), scale)
  {
    ZeroWeight(f, k, n);
  }

  lemma {:induction false} AccumulateAdds(num: NumberFormat, terms: Terms, x: Norm, c: int, f: Weight)
    requires FaithfulNumbers(num) && WritableTerms(num, terms) && Writable(num, x) && Additive(f)
    ensures Total(Accumulate(num, terms, x, c), f) == Total(terms, f) + f(c, x)
  {
    ZeroWeight(f, c, x);
    if terms.More? {
      var k := terms.coefficient;
      RenderIsInjective(num, x, terms.term);
      assert f(k + c, x) == f(k, x) + f(c, x);
      AccumulateAdds(num, terms.rest, x, c, f);
    }
  }

  lemma {:induction false} AddScaledAdds(num: NumberFormat, target: Terms, source: Terms, scale: int, f: Weight)
    requires FaithfulNumbers(num) && WritableTerms(num, target) && WritableTerms(num, source)
    requires Additive(f) && (scale == 1 || scale == -1)
    ensures Total(AddScaled(num, target, source, scale), f)
            == Total(target, f) + Signed(Total(source, f), scale)
    decreases source
  {
    if source.More? {
      var k := source.coefficient * scale;
      ScaledWeight(f, source.coefficient, source.term, scale);
      AccumulateWritable(num, target, source.term, k);
      AccumulateAdds(num, target, source.term, k, f);
      AddScaledAdds(num, Accumulate(num, target, source.term, k), source.rest, scale, f);
    }
  }

  /** The value of a combination when its terms are unknowns. */
  function Weighted(w: Norm -> real): Weight {
    (k: int, n: Norm) => k as real * w(n)
  }

  lemma WeightedIsAdditive(w: Norm -> real)
    ensures Additive(Weighted(w))
  {
    forall a: int, b: int, n: Norm ensures Weighted(w)(a + b, n) == Weighted(w)(a, n) + Weighted(w)(b, n) {
      Collect(a, b, w(n));
    }
  }

  lemma Collect(k: int, c: int, x: real)
    ensures (k + c) as real * x == k as real * x + c as real * x
  {
    assert (k + c) as real == k as real + c as real;
  }

  function Sum(terms: Terms, w: Norm -> real): real {
    Total(terms, Weighted(w))
  }

  function Indicator(x: Norm): Norm -> real {
    (n: Norm) => if n == x then 1.0 else 0.0
  }

  lemma {:induction false} IndicatorSelects(terms: Terms, x: Norm)
    ensures Sum(terms, Indicator(x)) == Coefficient(terms, x) as real
  {
    if terms.More? { IndicatorSelects(terms.rest, x); }
  }

  /** Two combinations have the same value for all values of their unknowns. */
  ghost predicate EqualEverywhere(a: Terms, b: Terms) {
    forall w: Norm -> real :: Sum(a, w) == Sum(b, w)
  }

  /** Canonical combinations are the same exactly when they are equal everywhere. */
  lemma CanonicalDecides(num: NumberFormat, a: Terms, b: Terms)
    requires Canonical(num, a) && Canonical(num, b)
    ensures a == b <==> EqualEverywhere(a, b)
  {
    if EqualEverywhere(a, b) {
      forall x ensures Coefficient(a, x) == Coefficient(b, x) {
        IndicatorSelects(a, x);
        IndicatorSelects(b, x);
        var w := Indicator(x);
        assert Sum(a, w) == Sum(b, w);
      }
      CanonicalIsUnique(num, a, b);
    }
  }
}
