/** Normal forms of expressions, and the text they are compared by. */
module NormalForms {
  import opened Domain
  import opened Text

  datatype Leaf =
    | ConstantLeaf(value: Value)
    | ReferenceLeaf(dbm: real)
    | SweepLeaf(axis: Axis)
    | MeasureLeaf(operation: MeasurementOperation)
    | SlotLeaf(id: nat)

  datatype Norm =
    | Atom(typ: ValueType, leaf: Leaf)
    | Linear(terms: Terms)
    | Absolute(operand: Norm)
    | Apply(power: Norm, delta: Norm)
    | Comparison(op: ComparisonOperator, left: Norm, right: Norm)

  /** A linear combination, term by term in the order of the terms' texts. */
  datatype Terms = NoTerms | More(coefficient: int, term: Norm, rest: Terms)

  // ----- Rendering -----

  /** How numbers are written, and the finite set of numbers, such as the doubles, it is used on. */
  datatype NumberFormat = NumberFormat(numbers: set<real>, text: real -> string)

  predicate Plain(s: string) {
    forall i :: 0 <= i < |s| ==> s[i] !in "{}(),*:"
  }

  /** Distinct numbers print differently, without structural characters. */
  predicate FaithfulNumbers(num: NumberFormat) {
    && (forall x <- num.numbers, y <- num.numbers :: num.text(x) == num.text(y) ==> x == y)
    && (forall x <- num.numbers :: Plain(num.text(x)))
  }

  /** The number in a leaf, if there is one, is among those the format is used on. */
  predicate WritableLeaf(num: NumberFormat, leaf: Leaf) {
    match leaf
    case ConstantLeaf(Quantity(_, amount)) => amount in num.numbers
    case ReferenceLeaf(dbm) => dbm in num.numbers
    case _ => true
  }

  predicate Writable(num: NumberFormat, n: Norm) {
    match n
    case Atom(_, leaf) => WritableLeaf(num, leaf)
    case Linear(terms) => WritableTerms(num, terms)
    case Absolute(operand) => Writable(num, operand)
    case Apply(power, delta) => Writable(num, power) && Writable(num, delta)
    case Comparison(_, left, right) => Writable(num, left) && Writable(num, right)
  }

  predicate WritableTerms(num: NumberFormat, terms: Terms) {
    terms.More? ==> Writable(num, terms.term) && WritableTerms(num, terms.rest)
  }

  function IndexOf(list: seq<real>, x: real): nat {
    if |list| == 0 || list[0] == x then 0 else 1 + IndexOf(list[1..], x)
  }

  lemma {:induction false} IndexFinds(list: seq<real>, x: real)
    requires x in list
    ensures IndexOf(list, x) < |list| && list[IndexOf(list, x)] == x
  {
    if list[0] != x { IndexFinds(list[1..], x); }
  }

  lemma {:induction false} ListNumbers(numbers: set<real>) returns (list: seq<real>)
    ensures forall x :: x in list <==> x in numbers
  {
    list := [];
    if x :| x in numbers {
      var rest := ListNumbers(numbers - {x});
      list := [x] + rest;
    }
  }

  lemma DecimalIsPlain(n: nat)
    ensures Plain(Decimal(n))
  {
  }

  /** Every finite set of numbers has a faithful format, so the hypothesis can be met for all
      expressions. */
  lemma EveryFiniteSetIsWritable(numbers: set<real>) returns (num: NumberFormat)
    ensures num.numbers == numbers && FaithfulNumbers(num)
  {
    var list := ListNumbers(numbers);
    num := NumberFormat(numbers, (x: real) => Decimal(IndexOf(list, x)));
    forall x <- numbers ensures Plain(num.text(x)) { DecimalIsPlain(IndexOf(list, x)); }
    forall x <- numbers, y <- numbers | num.text(x) == num.text(y) ensures x == y {
      DecimalInjective(IndexOf(list, x), IndexOf(list, y));
      IndexFinds(list, x);
      IndexFinds(list, y);
    }
  }

  function TypeName(t: ValueType): string {
    match t
    case Frequency => "Frequency"
    case FrequencyDelta => "FrequencyDelta"
    case Ratio => "Ratio"
    case Temperature => "Temperature"
    case TemperatureDelta => "TemperatureDelta"
    case Power => "Power"
    case PowerDelta => "PowerDelta"
    case Boolean => "Boolean"
  }

  function KindLabel(kind: Dimension): string {
    match kind
    case Frequency => "frequency"
    case FrequencyDelta => "frequency_delta"
    case Ratio => "ratio"
    case Temperature => "temperature"
    case TemperatureDelta => "temperature_delta"
    case Power => "power"
    case PowerDelta => "power_delta"
  }

  function OperationName(op: MeasurementOperation): string {
    match op
    case MeasurePower => "power"
    case MeasureEvm => "evm"
    case MeasureFrequencyError => "frequency_error"
  }

  function OperatorName(op: ComparisonOperator): string {
    match op
    case Less => "less"
    case LessEqual => "less_equal"
    case Greater => "greater"
    case GreaterEqual => "greater_equal"
    case Equal => "equal"
    case NotEqual => "not_equal"
  }

  function Label(leaf: Leaf): string {
    match leaf
    case ConstantLeaf(Quantity(kind, _)) => KindLabel(kind)
    case ConstantLeaf(Truth(_)) => "boolean"
    case ReferenceLeaf(_) => "reference_power"
    case SweepLeaf(_) => "sweep"
    case MeasureLeaf(_) => "measure"
    case SlotLeaf(_) => "value"
  }

  function Argument(num: NumberFormat, leaf: Leaf): string {
    match leaf
    case ConstantLeaf(Quantity(_, amount)) => num.text(amount)
    case ConstantLeaf(Truth(holds)) => if holds then "true" else "false"
    case ReferenceLeaf(dbm) => num.text(dbm)
    case SweepLeaf(axis) => AxisName(axis)
    case MeasureLeaf(op) => OperationName(op)
    case SlotLeaf(id) => Decimal(id)
  }

  function LeafText(num: NumberFormat, leaf: Leaf): string {
    Label(leaf) + ":" + Argument(num, leaf)
  }

  function Render(num: NumberFormat, n: Norm): string {
    match n
    case Atom(typ, leaf) => TypeName(typ) + "{" + LeafText(num, leaf) + "}"
    case Linear(terms) => "linear(" + RenderTerms(num, terms) + ")"
    case Absolute(operand) => "absolute(" + Render(num, operand) + ")"
    case Apply(power, delta) => "apply_power_delta(" + Render(num, power) + "," + Render(num, delta) + ")"
    case Comparison(op, left, right) =>
      "compare:" + OperatorName(op) + "(" + Render(num, left) + "," + Render(num, right) + ")"
  }

  /** The terms, separated by commas. */
  function RenderTerms(num: NumberFormat, terms: Terms): string {
    match terms
    case NoTerms => ""
    case More(c, term, rest) =>
      IntegerText(c) + "*" + Render(num, term) + (if rest.NoTerms? then "" else "," + RenderTerms(num, rest))
  }

  // ----- The same text, read from the left -----

  /** The text of a normal form, followed by more text. */
  function Print(num: NumberFormat, n: Norm, tail: string): string {
    match n
    case Atom(typ, leaf) => TypeName(typ) + ("{" + (Label(leaf) + (":" + (Argument(num, leaf) + ("}" + tail)))))
    case Linear(terms) => "linear(" + PrintTerms(num, terms, ")" + tail)
    case Absolute(operand) => "absolute(" + Print(num, operand, ")" + tail)
    case Apply(power, delta) => "apply_power_delta(" + Print(num, power, "," + Print(num, delta, ")" + tail))
    case Comparison(op, left, right) =>
      "compare:" + (OperatorName(op) + ("(" + Print(num, left, "," + Print(num, right, ")" + tail))))
  }

  function PrintTerms(num: NumberFormat, terms: Terms, tail: string): string {
    match terms
    case NoTerms => tail
    case More(c, term, rest) =>
      IntegerText(c) + ("*" + Print(num, term, if rest.NoTerms? then tail else "," + PrintTerms(num, rest, tail)))
  }

  lemma Chain2(a: string, b: string, c: string)
    ensures a + b + c == a + (b + c)
  {
  }

  lemma Chain3(a: string, b: string, c: string, d: string)
    ensures a + b + c + d == a + (b + (c + d))
  {
  }

  lemma Chain5(a: string, b: string, c: string, d: string, e: string, f: string)
    ensures a + b + c + d + e + f == a + (b + (c + (d + (e + f))))
  {
    Chain3(a + b + c, d, e, f);
    Chain3(a, b, c, d + (e + f));
  }

  lemma Chain7(a: string, b: string, c: string, d: string, e: string, f: string, g: string, h: string)
    ensures a + b + c + d + e + f + g + h == a + (b + (c + (d + (e + (f + (g + h))))))
  {
    Chain5(a + b + c, d, e, f, g, h);
    Chain3(a, b, c, d + (e + (f + (g + h))));
  }

  lemma LeafPrints(num: NumberFormat, typ: ValueType, leaf: Leaf, tail: string)
    ensures Render(num, Atom(typ, leaf)) + tail == Print(num, Atom(typ, leaf), tail)
  {
    var kind, argument := Label(leaf), Argument(num, leaf);
    Chain3(TypeName(typ), "{", LeafText(num, leaf), "}" + tail);
    Chain3(TypeName(typ) + "{", LeafText(num, leaf), "}", tail);
    Chain3(kind, ":", argument, "}" + tail);
  }

  lemma {:induction false} RenderPrints(num: NumberFormat, n: Norm, tail: string)
    ensures Render(num, n) + tail == Print(num, n, tail)
    decreases n
  {
    match n
    case Atom(typ, leaf) => LeafPrints(num, typ, leaf, tail);
    case Linear(terms) =>
      Chain3("linear(", RenderTerms(num, terms), ")", tail);
      TermsPrint(num, terms, ")" + tail);
    case Absolute(operand) =>
      Chain3("absolute(", Render(num, operand), ")", tail);
      RenderPrints(num, operand, ")" + tail);
    case Apply(power, delta) =>
      Chain5("apply_power_delta(", Render(num, power), ",", Render(num, delta), ")", tail);
      RenderPrints(num, delta, ")" + tail);
      RenderPrints(num, power, "," + Print(num, delta, ")" + tail));
    case Comparison(op, left, right) =>
      Chain7("compare:", OperatorName(op), "(", Render(num, left), ",", Render(num, right), ")", tail);
      RenderPrints(num, right, ")" + tail);
      RenderPrints(num, left, "," + Print(num, right, ")" + tail));
  }

  lemma {:induction false} TermsPrint(num: NumberFormat, terms: Terms, tail: string)
    ensures RenderTerms(num, terms) + tail == PrintTerms(num, terms, tail)
    decreases terms
  {
    if terms.More? {
      var more := if terms.rest.NoTerms? then "" else "," + RenderTerms(num, terms.rest);
      var after := if terms.rest.NoTerms? then tail else "," + PrintTerms(num, terms.rest, tail);
      if terms.rest.More? {
        TermsPrint(num, terms.rest, tail);
        Chain2(",", RenderTerms(num, terms.rest), tail);
      }
      assert more + tail == after;
      Chain3(IntegerText(terms.coefficient), "*", Render(num, terms.term), more + tail);
      Chain2(IntegerText(terms.coefficient) + "*" + Render(num, terms.term), more, tail);
      RenderPrints(num, terms.term, after);
    }
  }

  // ----- Reading a text back: splitting at delimiters -----

  lemma Strip(p: string, x: string, y: string)
    requires p + x == p + y
    ensures x == y
  {
    assert (p + x)[|p|..] == x && (p + y)[|p|..] == y;
  }

  lemma FirstDelimiter(x: string, y: string, d: string, s: string, t: string)
    requires |d| == 1 && d[0] !in y && |x| < |y|
    ensures x + (d + s) != y + (d + t)
  {
    assert (x + (d + s))[|x|] == d[0] && (y + (d + t))[|x|] == y[|x|];
  }

  /** Two texts that agree up to the first delimiter agree before and after it. */
  lemma Split(x: string, y: string, d: string, s: string, t: string)
    requires |d| == 1 && d[0] !in x && d[0] !in y && x + (d + s) == y + (d + t)
    ensures x == y && s == t
  {
    var a, b := x + (d + s), y + (d + t);
    if |x| < |y| { FirstDelimiter(x, y, d, s, t); }
    if |y| < |x| { FirstDelimiter(y, x, d, t, s); }
    assert x == a[..|x|] == b[..|y|] == y;
    Strip(x, d + s, d + t);
    Strip(d, s, t);
  }

  lemma TypeNamesDistinct(s: ValueType, t: ValueType)
    ensures TypeName(s) == TypeName(t) ==> s == t
    ensures '{' !in TypeName(t) && |TypeName(t)| > 0 && TypeName(t)[0] in "FRTPB"
  {
  }

  lemma OperatorNamesDistinct(a: ComparisonOperator, b: ComparisonOperator)
    ensures OperatorName(a) == OperatorName(b) ==> a == b
    ensures '(' !in OperatorName(a)
  {
  }

  lemma LabelsDistinct(a: Leaf, b: Leaf)
    requires Label(a) == Label(b)
    ensures a.ConstantLeaf? == b.ConstantLeaf? && a.ReferenceLeaf? == b.ReferenceLeaf? && a.SweepLeaf? == b.SweepLeaf?
    ensures a.MeasureLeaf? == b.MeasureLeaf? && a.SlotLeaf? == b.SlotLeaf?
    ensures a.ConstantLeaf? && b.ConstantLeaf? ==> TypeOf(a.value) == TypeOf(b.value)
  {
    assert |Label(a)| == |Label(b)| && Label(a)[0] == Label(b)[0];
  }

  lemma ArgumentsDistinct(num: NumberFormat, a: Leaf, b: Leaf)
    requires FaithfulNumbers(num) && WritableLeaf(num, a) && WritableLeaf(num, b)
    requires Label(a) == Label(b) && Argument(num, a) == Argument(num, b)
    ensures a == b
  {
    LabelsDistinct(a, b);
    if a.SlotLeaf? && b.SlotLeaf? { DecimalInjective(a.id, b.id); }
    if a.MeasureLeaf? { assert |OperationName(a.operation)| == |OperationName(b.operation)|; }
    if a.SweepLeaf? { assert |AxisName(a.axis)| == |AxisName(b.axis)|; }
    if a.ConstantLeaf? && a.value.Truth? { assert |Argument(num, a)| == |Argument(num, b)|; }
  }

  lemma LabelIsPlain(leaf: Leaf)
    ensures ':' !in Label(leaf)
  {
  }

  lemma ArgumentIsPlain(num: NumberFormat, leaf: Leaf)
    requires FaithfulNumbers(num) && WritableLeaf(num, leaf)
    ensures '}' !in Argument(num, leaf)
  {
    if leaf.ConstantLeaf? && leaf.value.Quantity? { assert Plain(num.text(leaf.value.amount)); }
    if leaf.ReferenceLeaf? { assert Plain(num.text(leaf.dbm)); }
  }

  // ----- The rendering is prefix-free, hence injective -----

  lemma AtomPrefixFree(num: NumberFormat, a: Norm, b: Norm, s: string, t: string)
    requires FaithfulNumbers(num) && Writable(num, a) && Writable(num, b)
    requires a.Atom? && b.Atom? && Print(num, a, s) == Print(num, b, t)
    ensures a == b && s == t
  {
    TypeNamesDistinct(a.typ, b.typ);
    TypeNamesDistinct(b.typ, a.typ);
    var u, v := Argument(num, a.leaf) + ("}" + s), Argument(num, b.leaf) + ("}" + t);
    Split(TypeName(a.typ), TypeName(b.typ), "{", Label(a.leaf) + (":" + u), Label(b.leaf) + (":" + v));
    LabelIsPlain(a.leaf);
    LabelIsPlain(b.leaf);
    Split(Label(a.leaf), Label(b.leaf), ":", u, v);
    ArgumentIsPlain(num, a.leaf);
    ArgumentIsPlain(num, b.leaf);
    Split(Argument(num, a.leaf), Argument(num, b.leaf), "}", s, t);
    ArgumentsDistinct(num, a.leaf, b.leaf);
  }

  /** The first characters tell the five forms apart. */
  lemma Heads(num: NumberFormat, n: Norm, s: string)
    ensures var text := Print(num, n, s);
      && |text| >= 2
      && (n.Atom? <==> text[0] in "FRTPB") && (n.Linear? <==> text[0] == 'l') && (n.Comparison? <==> text[0] == 'c')
      && (n.Absolute? <==> text[0] == 'a' && text[1] == 'b') && (n.Apply? <==> text[0] == 'a' && text[1] == 'p')
  {
    if n.Atom? { TypeNamesDistinct(n.typ, n.typ); }
  }

  lemma SameForm(num: NumberFormat, a: Norm, b: Norm, s: string, t: string)
    requires Print(num, a, s) == Print(num, b, t)
    ensures a.Atom? == b.Atom? && a.Linear? == b.Linear? && a.Absolute? == b.Absolute?
    ensures a.Apply? == b.Apply? && a.Comparison? == b.Comparison?
  {
    Heads(num, a, s);
    Heads(num, b, t);
  }

  lemma {:induction false} PrefixFree(num: NumberFormat, a: Norm, b: Norm, s: string, t: string)
    requires FaithfulNumbers(num) && Writable(num, a) && Writable(num, b) && Print(num, a, s) == Print(num, b, t)
    ensures a == b && s == t
    decreases a, 1
  {
    SameForm(num, a, b, s, t);
    match a
    case Atom(_, _) => AtomPrefixFree(num, a, b, s, t);
    case Linear(terms) =>
      Strip("linear(", PrintTerms(num, terms, ")" + s), PrintTerms(num, b.terms, ")" + t));
      TermsPrefixFree(num, terms, b.terms, s, t);
    case Absolute(operand) =>
      Strip("absolute(", Print(num, operand, ")" + s), Print(num, b.operand, ")" + t));
      PrefixFree(num, operand, b.operand, ")" + s, ")" + t);
      Strip(")", s, t);
    case Apply(power, delta) =>
      var x, y := Print(num, delta, ")" + s), Print(num, b.delta, ")" + t);
      Strip("apply_power_delta(", Print(num, power, "," + x), Print(num, b.power, "," + y));
      PrefixFree(num, power, b.power, "," + x, "," + y);
      Strip(",", x, y);
      PrefixFree(num, delta, b.delta, ")" + s, ")" + t);
      Strip(")", s, t);
    case Comparison(_, _, _) => ComparisonPrefixFree(num, a, b, s, t);
  }

  lemma {:induction false} ComparisonPrefixFree(num: NumberFormat, a: Norm, b: Norm, s: string, t: string)
    requires FaithfulNumbers(num) && Writable(num, a) && Writable(num, b)
    requires a.Comparison? && b.Comparison? && Print(num, a, s) == Print(num, b, t)
    ensures a == b && s == t
    decreases a, 0
  {
    var x, y := Print(num, a.right, ")" + s), Print(num, b.right, ")" + t);
    var u, v := Print(num, a.left, "," + x), Print(num, b.left, "," + y);
    Strip("compare:", OperatorName(a.op) + ("(" + u), OperatorName(b.op) + ("(" + v));
    OperatorNamesDistinct(a.op, b.op);
    OperatorNamesDistinct(b.op, a.op);
    Split(OperatorName(a.op), OperatorName(b.op), "(", u, v);
    PrefixFree(num, a.left, b.left, "," + x, "," + y);
    Strip(",", x, y);
    PrefixFree(num, a.right, b.right, ")" + s, ")" + t);
    Strip(")", s, t);
  }

  /** What follows a term: the closing parenthesis, or a comma and the remaining terms. */
  function Following(num: NumberFormat, rest: Terms, s: string): string {
    if rest.NoTerms? then ")" + s else "," + PrintTerms(num, rest, ")" + s)
  }

  lemma {:induction false} TermsPrefixFree(num: NumberFormat, a: Terms, b: Terms, s: string, t: string)
    requires FaithfulNumbers(num) && WritableTerms(num, a) && WritableTerms(num, b)
    requires PrintTerms(num, a, ")" + s) == PrintTerms(num, b, ")" + t)
    ensures a == b && s == t
    decreases a, 1
  {
    TermsStart(num, a, s);
    TermsStart(num, b, t);
    if a.NoTerms? {
      Strip(")", s, t);
    } else {
      var x, y := Print(num, a.term, Following(num, a.rest, s)), Print(num, b.term, Following(num, b.rest, t));
      NoStar(a.coefficient);
      NoStar(b.coefficient);
      Split(IntegerText(a.coefficient), IntegerText(b.coefficient), "*", x, y);
      IntegerTextInjective(a.coefficient, b.coefficient);
      PrefixFree(num, a.term, b.term, Following(num, a.rest, s), Following(num, b.rest, t));
      RestPrefixFree(num, a.rest, b.rest, s, t);
    }
  }

  lemma NoStar(i: int)
    ensures '*' !in IntegerText(i)
  {
  }

  /** Only an empty list of terms starts with the closing parenthesis. */
  lemma TermsStart(num: NumberFormat, terms: Terms, s: string)
    ensures |PrintTerms(num, terms, ")" + s)| > 0
    ensures PrintTerms(num, terms, ")" + s)[0] == ')' <==> terms.NoTerms?
  {
    if terms.More? { assert IntegerText(terms.coefficient)[0] != ')'; }
  }

  lemma {:induction false} RestPrefixFree(num: NumberFormat, a: Terms, b: Terms, s: string, t: string)
    requires FaithfulNumbers(num) && WritableTerms(num, a) && WritableTerms(num, b)
    requires Following(num, a, s) == Following(num, b, t)
    ensures a == b && s == t
    decreases a, 2
  {
    assert Following(num, a, s)[0] == Following(num, b, t)[0];
    if a.NoTerms? {
      Strip(")", s, t);
    } else {
      Strip(",", PrintTerms(num, a, ")" + s), PrintTerms(num, b, ")" + t));
      TermsPrefixFree(num, a, b, s, t);
    }
  }

  /** Distinct normal forms never print to the same text. */
  lemma RenderIsInjective(num: NumberFormat, a: Norm, b: Norm)
    requires FaithfulNumbers(num) && Writable(num, a) && Writable(num, b)
    ensures Render(num, a) == Render(num, b) <==> a == b
  {
    RenderPrints(num, a, "");
    RenderPrints(num, b, "");
    if Render(num, a) == Render(num, b) { PrefixFree(num, a, b, "", ""); }
  }
}
