/** The normalizer: from a slot of the IR to its normal form and its text. */
module Normalizing {
  import opened Domain
  import opened Text
  import opened Ir
  import opened NormalForms
  import opened LinearForms
  import V = Validator

  // ----- Normal forms of slots -----

  /** Every operand comes before its consumer. */
  predicate OperandsBefore(d: Definition, i: nat) {
    match d
    case NegateDelta(x) => x < i
    case NegatePowerDelta(x) => x < i
    case AddDelta(x, y) => x < i && y < i
    case SubtractDelta(x, y) => x < i && y < i
    case AddPowerDelta(x, y) => x < i && y < i
    case ApplyPowerDelta(x, y) => x < i && y < i
    case PowerDifference(x, y) => x < i && y < i
    case Alias(x) => x < i
    case AbsoluteValue(x) => x < i
    case Compare(_, x, y, _) => x < i && y < i
    case _ => true
  }

  predicate OperandsPrecede(values: seq<Slot>) {
    forall i :: 0 <= i < |values| ==> OperandsBefore(values[i].definition, i)
  }

  lemma ValidOperandsPrecede(values: seq<Slot>)
    requires V.ValidDefinitions(values)
    ensures OperandsPrecede(values)
  {
    forall i | 0 <= i < |values| ensures OperandsBefore(values[i].definition, i) { assert V.ValidSlot(values, i); }
  }

  function LeafOf(values: seq<Slot>, id: ValueId): Norm
    requires id < |values|
  {
    Atom(values[id].typ,
      match values[id].definition
      case Constant(v) => ConstantLeaf(v)
      case ReferencePower(dbm) => ReferenceLeaf(dbm)
      case SweepValue(axis) => SweepLeaf(axis)
      case Measure(op) => MeasureLeaf(op)
      case _ => SlotLeaf(id))
  }

  /** The linear combination a slot stands for: aliases are followed, signs and sums collected,
      and everything else is a term of its own. */
  function LinearOf(num: NumberFormat, values: seq<Slot>, id: ValueId): Terms
    requires OperandsPrecede(values) && id < |values|
    decreases id, 0
  {
    assert OperandsBefore(values[id].definition, id);
    match values[id].definition
    case Alias(x) => LinearOf(num, values, x)
    case NegatePowerDelta(x) => AddScaled(num, NoTerms, LinearOf(num, values, x), -1)
    case NegateDelta(x) => AddScaled(num, NoTerms, LinearOf(num, values, x), -1)
    case AddPowerDelta(x, y) => AddScaled(num, LinearOf(num, values, x), LinearOf(num, values, y), 1)
    case AddDelta(x, y) => AddScaled(num, LinearOf(num, values, x), LinearOf(num, values, y), 1)
    case SubtractDelta(x, y) => AddScaled(num, LinearOf(num, values, x), LinearOf(num, values, y), -1)
    case PowerDifference(x, y) => AddScaled(num, LinearOf(num, values, x), LinearOf(num, values, y), -1)
    case AbsoluteValue(x) => More(1, Absolute(NormOf(num, values, x)), NoTerms)
    case _ => More(1, LeafOf(values, id), NoTerms)
  }

  function NormOf(num: NumberFormat, values: seq<Slot>, id: ValueId): Norm
    requires OperandsPrecede(values) && id < |values|
    decreases id, 1
  {
    assert OperandsBefore(values[id].definition, id);
    if values[id].definition.Alias? then NormOf(num, values, values[id].definition.target)
    else if Negatable(values[id].typ) then Linear(LinearOf(num, values, id))
    else
      match values[id].definition
      case ApplyPowerDelta(x, y) => Apply(NormOf(num, values, x), NormOf(num, values, y))
      case AbsoluteValue(x) => Absolute(NormOf(num, values, x))
      case Compare(op, x, y, _) => NormalForms.Comparison(op, NormOf(num, values, x), NormOf(num, values, y))
      case _ => LeafOf(values, id)
  }

  /** The numbers a definition holds. */
  function NumbersIn(d: Definition): set<real> {
    match d
    case Constant(Quantity(_, amount)) => {amount}
    case ReferencePower(dbm) => {dbm}
    case _ => {}
  }

  function NumbersOf(values: seq<Slot>): (numbers: set<real>)
    ensures forall i :: 0 <= i < |values| ==> NumbersIn(values[i].definition) <= numbers
  {
    if |values| == 0 then {} else NumbersOf(values[..|values| - 1]) + NumbersIn(values[|values| - 1].definition)
  }

  /** The format is faithful on the numbers of the slots. */
  predicate Faithful(num: NumberFormat, values: seq<Slot>) {
    FaithfulNumbers(num) && NumbersOf(values) <= num.numbers
  }

  /** Any two programs have a format faithful on the numbers of both. */
  lemma SomeFormatIsFaithful(a: seq<Slot>, b: seq<Slot>) returns (num: NumberFormat)
    ensures Faithful(num, a) && Faithful(num, b)
  {
    num := EveryFiniteSetIsWritable(NumbersOf(a) + NumbersOf(b));
  }

  lemma {:induction false} LinearWritable(num: NumberFormat, values: seq<Slot>, id: ValueId)
    requires NumbersOf(values) <= num.numbers && OperandsPrecede(values) && id < |values|
    ensures WritableTerms(num, LinearOf(num, values, id))
    decreases id, 0
  {
    assert OperandsBefore(values[id].definition, id);
    match values[id].definition
    case Alias(x) => LinearWritable(num, values, x);
    case NegatePowerDelta(x) => SumWritable(num, values, x, x, -1);
    case NegateDelta(x) => SumWritable(num, values, x, x, -1);
    case AddPowerDelta(x, y) => SumWritable(num, values, x, y, 1);
    case AddDelta(x, y) => SumWritable(num, values, x, y, 1);
    case SubtractDelta(x, y) => SumWritable(num, values, x, y, -1);
    case PowerDifference(x, y) => SumWritable(num, values, x, y, -1);
    case AbsoluteValue(x) => NormWritable(num, values, x);
    case _ => LeafWritable(num, values, id);
  }

  lemma {:induction false} SumWritable(num: NumberFormat, values: seq<Slot>, x: ValueId, y: ValueId, scale: int)
    requires NumbersOf(values) <= num.numbers && OperandsPrecede(values) && x < |values| && y < |values|
    ensures WritableTerms(num, AddScaled(num, LinearOf(num, values, x), LinearOf(num, values, y), scale))
    ensures WritableTerms(num, AddScaled(num, NoTerms, LinearOf(num, values, y), scale))
    decreases if x < y then y else x, 1
  {
    LinearWritable(num, values, x);
    LinearWritable(num, values, y);
    AddScaledWritable(num, LinearOf(num, values, x), LinearOf(num, values, y), scale);
    AddScaledWritable(num, NoTerms, LinearOf(num, values, y), scale);
  }

  lemma LeafWritable(num: NumberFormat, values: seq<Slot>, id: ValueId)
    requires NumbersOf(values) <= num.numbers && id < |values|
    ensures Writable(num, LeafOf(values, id))
  {
    assert NumbersIn(values[id].definition) <= NumbersOf(values);
  }

  /** A normal form holds only numbers of the slots it comes from. */
  lemma {:induction false} NormWritable(num: NumberFormat, values: seq<Slot>, id: ValueId)
    requires NumbersOf(values) <= num.numbers && OperandsPrecede(values) && id < |values|
    ensures Writable(num, NormOf(num, values, id))
    decreases id, 1
  {
    assert OperandsBefore(values[id].definition, id);
    LinearWritable(num, values, id);
    LeafWritable(num, values, id);
    if !Negatable(values[id].typ) || values[id].definition.Alias? {
      match values[id].definition
      case Alias(x) => NormWritable(num, values, x);
      case ApplyPowerDelta(x, y) => NormWritable(num, values, x); NormWritable(num, values, y);
      case AbsoluteValue(x) => NormWritable(num, values, x);
      case Compare(_, x, y, _) => NormWritable(num, values, x); NormWritable(num, values, y);
      case _ =>
    }
  }

  /** The text two slots are compared by; None for an id out of range. */
  function Identity(num: NumberFormat, values: seq<Slot>, id: ValueId): Option<string>
    requires OperandsPrecede(values)
  {
    if id < |values| then Some(Render(num, NormOf(num, values, id))) else None
  }

  // ----- The sorted container of the procedure -----

  type Entry = (string, int)

  /** The combination as the sorted container holds it: texts and coefficients. */
  function Listing(num: NumberFormat, terms: Terms): seq<Entry> {
    match terms
    case NoTerms => []
    case More(k, t, rest) => [(Render(num, t), k)] + Listing(num, rest)
  }

  /** Adding to the entry of a key, erasing it at zero. */
  function AccumulateEntry(entries: seq<Entry>, key: string, c: int): seq<Entry> {
    if |entries| == 0 then (if c == 0 then [] else [(key, c)])
    else if key == entries[0].0 then
      (if entries[0].1 + c == 0 then entries[1..] else [(key, entries[0].1 + c)] + entries[1..])
    else if Before(key, entries[0].0) then (if c == 0 then entries else [(key, c)] + entries)
    else [entries[0]] + AccumulateEntry(entries[1..], key, c)
  }

  function AddEntries(target: seq<Entry>, source: seq<Entry>, scale: int): seq<Entry>
    decreases |source|
  {
    if |source| == 0 then target
    else AddEntries(AccumulateEntry(target, source[0].0, source[0].1 * scale), source[1..], scale)
  }

  lemma {:induction false} ListingAccumulates(num: NumberFormat, terms: Terms, x: Norm, c: int)
    ensures Listing(num, Accumulate(num, terms, x, c)) == AccumulateEntry(Listing(num, terms), Render(num, x), c)
  {
    if terms.More? {
      var key, head := Render(num, x), (Render(num, terms.term), terms.coefficient);
      EntryAccumulates(head, Listing(num, terms.rest), key, c);
      if key != head.0 && !Before(key, head.0) {
        ListingAccumulates(num, terms.rest, x, c);
      } else if key != head.0 {
        ListingPrepends(num, x, c, terms);
      }
    } else {
      assert [(Render(num, x), c)] + [] == [(Render(num, x), c)];
    }
  }

  lemma ListingPrepends(num: NumberFormat, x: Norm, c: int, terms: Terms)
    ensures Listing(num, More(c, x, terms)) == [(Render(num, x), c)] + Listing(num, terms)
  {
  }

  lemma EntryAccumulates(head: Entry, tail: seq<Entry>, key: string, c: int)
    ensures AccumulateEntry([head] + tail, key, c) ==
      if key == head.0 then (if head.1 + c == 0 then tail else [(key, head.1 + c)] + tail)
      else if Before(key, head.0) then (if c == 0 then [head] + tail else [(key, c)] + ([head] + tail))
      else [head] + AccumulateEntry(tail, key, c)
  {
    assert ([head] + tail)[1..] == tail;
  }

  lemma {:induction false} ListingAdds(num: NumberFormat, target: Terms, source: Terms, scale: int)
    ensures Listing(num, AddScaled(num, target, source, scale)) ==
      AddEntries(Listing(num, target), Listing(num, source), scale)
    decreases source
  {
    if source.More? {
      ListingAccumulates(num, target, source.term, source.coefficient * scale);
      ListingAdds(num, Accumulate(num, target, source.term, source.coefficient * scale), source.rest, scale);
      assert Listing(num, source)[1..] == Listing(num, source.rest);
    }
  }

  /** The entries as they are printed, separated by commas. */
  function PrintEntries(entries: seq<Entry>): string {
    if |entries| == 0 then ""
    else
      IntegerText(entries[0].1) + "*" + entries[0].0 +
      (if |entries| == 1 then "" else "," + PrintEntries(entries[1..]))
  }

  lemma {:induction false} ListingPrints(num: NumberFormat, terms: Terms)
    ensures PrintEntries(Listing(num, terms)) == RenderTerms(num, terms)
  {
    if terms.More? {
      ListingPrints(num, terms.rest);
      assert Listing(num, terms)[1..] == Listing(num, terms.rest);
    }
  }

  // ----- The procedure -----

  method AccumulateTerm(entries: seq<Entry>, key: string, c: int) returns (result: seq<Entry>)
    ensures result == AccumulateEntry(entries, key, c)
  {
    var i := 0;
    assert entries[0..] == entries;
    while i < |entries| && key != entries[i].0 && !Before(key, entries[i].0)
      invariant i <= |entries|
      invariant AccumulateEntry(entries, key, c) == entries[..i] + AccumulateEntry(entries[i..], key, c)
    {
      AccumulateSkips(entries, key, c, i);
      i := i + 1;
    }
    result := entries[..i] + AmendFirst(entries[i..], key, c);
  }

  lemma AccumulateSkips(entries: seq<Entry>, key: string, c: int, i: nat)
    requires i < |entries| && key != entries[i].0 && !Before(key, entries[i].0)
    ensures entries[..i] + AccumulateEntry(entries[i..], key, c) ==
      entries[..i + 1] + AccumulateEntry(entries[i + 1..], key, c)
  {
    var rest := AccumulateEntry(entries[i + 1..], key, c);
    assert entries[i..][1..] == entries[i + 1..];
    assert entries[..i + 1] == entries[..i] + [entries[i]];
    assert entries[..i] + ([entries[i]] + rest) == entries[..i] + [entries[i]] + rest;
  }

  /** The amendment itself, once the key is known not to lie beyond the first entry. */
  function AmendFirst(entries: seq<Entry>, key: string, c: int): (result: seq<Entry>)
    requires |entries| == 0 || key == entries[0].0 || Before(key, entries[0].0)
    ensures result == AccumulateEntry(entries, key, c)
  {
    if |entries| > 0 && key == entries[0].0 then
      var sum := entries[0].1 + c;
      if sum == 0 then entries[1..] else [(key, sum)] + entries[1..]
    else if c == 0 then entries else [(key, c)] + entries
  }

  method AddAll(target: seq<Entry>, source: seq<Entry>, scale: int) returns (result: seq<Entry>)
    ensures result == AddEntries(target, source, scale)
  {
    result := target;
    var i := 0;
    assert source[0..] == source;
    while i < |source|
      invariant i <= |source|
      invariant AddEntries(target, source, scale) == AddEntries(result, source[i..], scale)
    {
      assert source[i..][1..] == source[i + 1..];
      result := AccumulateTerm(result, source[i].0, source[i].1 * scale);
      i := i + 1;
    }
  }

  method PrintAll(entries: seq<Entry>) returns (text: string)
    ensures text == PrintEntries(entries)
  {
    text := "";
    var i := |entries|;
    assert entries[i..] == [];
    while i > 0
      invariant 0 <= i <= |entries| && text == PrintEntries(entries[i..])
    {
      i := i - 1;
      assert entries[i..][1..] == entries[i + 1..];
      text := IntegerText(entries[i].1) + "*" + entries[i].0 + (if i + 1 == |entries| then "" else "," + text);
    }
    assert entries[0..] == entries;
  }

  /** Normalizes slots to text. The active set guards against cycles. */
  class Normalizer {
    const values: seq<Slot>
    const num: NumberFormat
    var active: set<nat>

    constructor (values: seq<Slot>, num: NumberFormat)
      ensures this.values == values && this.num == num && active == {}
    {
      this.values := values;
      this.num := num;
      active := {};
    }

    /** The slots being normalized all lie above the given bound. */
    ghost predicate ActiveAbove(bound: nat)
      reads this
    {
      forall a <- active :: bound <= a
    }

    /** On slots whose operands precede them the guard never fires: normalization succeeds exactly
        on the ids in range. */
    method Normalize(id: ValueId) returns (text: Option<string>)
      requires OperandsPrecede(values) && ActiveAbove(id + 1)
      modifies this
      ensures active == old(active)
      ensures text == Identity(num, values, id)
      decreases id, 3
    {
      if id >= |values| || id in active { return None; }
      active := active + {id};
      text := NormalizeValue(id);
      active := active - {id};
    }

    method NormalizeValue(id: ValueId) returns (text: Option<string>)
      requires OperandsPrecede(values) && id < |values| && ActiveAbove(id)
      modifies this
      ensures active == old(active)
      ensures text == Identity(num, values, id)
      decreases id, 2
    {
      assert OperandsBefore(values[id].definition, id);
      var definition := values[id].definition;
      if definition.Alias? {
        text := Normalize(definition.target);
      } else if Negatable(values[id].typ) {
        text := NormalizedLinear(id);
      } else if definition.ApplyPowerDelta? {
        var left := Normalize(definition.power);
        var right := Normalize(definition.delta);
        if left.None? || right.None? { return None; }
        text := Some("apply_power_delta(" + left.value + "," + right.value + ")");
      } else if definition.AbsoluteValue? {
        var operand := Normalize(definition.operand);
        if operand.None? { return None; }
        text := Some("absolute(" + operand.value + ")");
      } else if definition.Compare? {
        var left := Normalize(definition.left);
        var right := Normalize(definition.right);
        if left.None? || right.None? { return None; }
        text := Some("compare:" + OperatorName(definition.op) + "(" + left.value + "," + right.value + ")");
      } else {
        text := Some(Render(num, LeafOf(values, id)));
      }
    }

    method NormalizedLinear(id: ValueId) returns (text: Option<string>)
      requires OperandsPrecede(values) && id < |values| && ActiveAbove(id)
      modifies this
      ensures active == old(active)
      ensures text == Some(Render(num, Linear(LinearOf(num, values, id))))
      decreases id, 1
    {
      var entries := LinearTerms(id);
      if entries.None? { return None; }
      var terms := PrintAll(entries.value);
      ListingPrints(num, LinearOf(num, values, id));
      text := Some("linear(" + terms + ")");
    }

    method LinearTerms(id: ValueId) returns (entries: Option<seq<Entry>>)
      requires OperandsPrecede(values) && id < |values| && ActiveAbove(id)
      modifies this
      ensures active == old(active)
      ensures entries == Some(Listing(num, LinearOf(num, values, id)))
      decreases id, 0
    {
      assert OperandsBefore(values[id].definition, id);
      match values[id].definition {
        case Alias(x) => entries := LinearTerms(x);
        case NegatePowerDelta(x) => entries := Negated(x);
        case NegateDelta(x) => entries := Negated(x);
        case AddPowerDelta(x, y) => entries := Combined(x, y, 1);
        case AddDelta(x, y) => entries := Combined(x, y, 1);
        case SubtractDelta(x, y) => entries := Combined(x, y, -1);
        case PowerDifference(x, y) => entries := Combined(x, y, -1);
        case AbsoluteValue(x) =>
          var operand := Normalize(x);
          if operand.None? { return None; }
          entries := Some([("absolute(" + operand.value + ")", 1)]);
        case _ => entries := Some([(Render(num, LeafOf(values, id)), 1)]);
      }
      assert entries.Some? ==> entries.value + [] == entries.value;
    }

    method Negated(x: ValueId) returns (entries: Option<seq<Entry>>)
      requires OperandsPrecede(values) && x < |values| && ActiveAbove(x)
      modifies this
      ensures active == old(active)
      ensures entries == Some(Listing(num, AddScaled(num, NoTerms, LinearOf(num, values, x), -1)))
      decreases x, 1
    {
      var operand := LinearTerms(x);
      if operand.None? { return None; }
      var result := AddAll([], operand.value, -1);
      ListingAdds(num, NoTerms, LinearOf(num, values, x), -1);
      entries := Some(result);
    }

    method Combined(x: ValueId, y: ValueId, scale: int) returns (entries: Option<seq<Entry>>)
      requires OperandsPrecede(values) && x < |values| && y < |values| && ActiveAbove(x) && ActiveAbove(y)
      modifies this
      ensures active == old(active)
      ensures entries == Some(Listing(num, AddScaled(num, LinearOf(num, values, x), LinearOf(num, values, y), scale)))
      decreases if x < y then y else x, 1
    {
      var left := LinearTerms(x);
      var right := LinearTerms(y);
      if left.None? || right.None? { return None; }
      var result := AddAll(left.value, right.value, scale);
      ListingAdds(num, LinearOf(num, values, x), LinearOf(num, values, y), scale);
      entries := Some(result);
    }
  }

  /** Normalizes one slot with a fresh normalizer. */
  method NormalizeExpression(values: seq<Slot>, num: NumberFormat, id: ValueId) returns (text: Option<string>)
    requires OperandsPrecede(values)
    ensures text == Identity(num, values, id)
  {
    var normalizer := new Normalizer(values, num);
    text := normalizer.Normalize(id);
  }
}
