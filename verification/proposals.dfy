/** Proposals as JSON: the writer and the response parser undo each other. */
module Proposals {
  import opened Domain
  import opened Utf8
  import opened Json

  // ----- Writing and reading a proposal -----

  function Word(word: string): string {
    "\"" + word + "\""
  }

  const OPENING := "{" + Word("status") + ":" + Word("proposal") + "," + Word("script") + ":"
  const MIDDLE := "," + Word("explanation") + ":"
  const CLOSING := "," + Word("warnings") + ":"

  /** Written strings, separated by commas. */
  function QuotedList(values: seq<Bytes>): Bytes
    requires |values| > 0
  {
    if |values| == 1 then Quoted(values[0]) else Quoted(values[0]) + ([COMMA] + QuotedList(values[1..]))
  }

  function ListJson(values: seq<Bytes>): Bytes {
    [0x5b] + ((if |values| == 0 then [] else QuotedList(values)) + [0x5d])
  }

  /** The end of a written proposal: its last frame, the warnings and the closing brace. */
  function Ending(warnings: seq<Bytes>): Bytes {
    Ascii(CLOSING) + ListJson(warnings) + Ascii("}")
  }

  function ProposalJson(script: Bytes, explanation: Bytes, warnings: seq<Bytes>): Bytes {
    Ascii(OPENING) + Quoted(script) + Ascii(MIDDLE) + Quoted(explanation) + Ending(warnings)
  }

  datatype Response = MalformedJson | SchemaViolation | Payload(script: Bytes, explanation: Bytes, warnings: seq<Bytes>)

  function Texts(items: seq<JsonValue>): Option<seq<Bytes>> {
    if |items| == 0 then Some([])
    else
      var before := Texts(items[..|items| - 1]);
      if before.None? || !items[|items| - 1].Str? then None else Some(before.value + [items[|items| - 1].text])
  }

  predicate HasText(members: map<Bytes, JsonValue>, key: Bytes) {
    key in members && members[key].Str?
  }

  /** Exactly four members of the right kinds. */
  function ReadProposal(root: JsonValue): Response {
    if !root.Object? || |root.members| != 4 then SchemaViolation
    else
      var m := root.members;
      var warnings := Ascii("warnings");
      if !HasText(m, Ascii("status")) || m[Ascii("status")].text != Ascii("proposal") || !HasText(m, Ascii("script"))
         || !HasText(m, Ascii("explanation")) || warnings !in m || !m[warnings].Array? then SchemaViolation
      else
        var texts := Texts(m[warnings].items);
        if texts.None? then SchemaViolation
        else Payload(m[Ascii("script")].text, m[Ascii("explanation")].text, texts.value)
  }

  function ParseProposal(response: Bytes): Response {
    var root := Parse(response);
    if root.None? then MalformedJson else ReadProposal(root.value)
  }

  method ParseProposalResponse(response: Bytes) returns (result: Response)
    ensures result == ParseProposal(response)
  {
    var parser := new JsonParser(response);
    var root := parser.ParseDocument();
    if root.None? { return MalformedJson; }
    if !root.value.Object? || |root.value.members| != 4 { return SchemaViolation; }
    var m := root.value.members;
    if !HasText(m, Ascii("status")) || m[Ascii("status")].text != Ascii("proposal") { return SchemaViolation; }
    if !HasText(m, Ascii("script")) || !HasText(m, Ascii("explanation")) { return SchemaViolation; }
    if Ascii("warnings") !in m || !m[Ascii("warnings")].Array? { return SchemaViolation; }
    var items := m[Ascii("warnings")].items;
    var warnings: seq<Bytes> := [];
    for i := 0 to |items|
      invariant Texts(items[..i]) == Some(warnings)
    {
      assert items[..i + 1][..i] == items[..i];
      if !items[i].Str? {
        TextsStop(items, i + 1);
        return SchemaViolation;
      }
      warnings := warnings + [items[i].text];
    }
    assert items[..|items|] == items;
    result := Payload(m[Ascii("script")].text, m[Ascii("explanation")].text, warnings);
  }

  lemma {:induction false} TextsStop(items: seq<JsonValue>, n: nat)
    requires n <= |items| && Texts(items[..n]).None?
    ensures Texts(items).None?
  {
    if n == |items| {
      assert items[..n] == items;
    } else {
      assert items[..|items| - 1][..n] == items[..n];
      TextsStop(items[..|items| - 1], n);
    }
  }

  // ----- Strings: reading what was written -----

  /** The text stands at the position. */
  predicate Spells(s: Bytes, p: nat, text: Bytes) {
    p + |text| <= |s| && forall i :: 0 <= i < |text| ==> s[p + i] == text[i]
  }

  lemma SpellsByte(s: Bytes, p: nat, text: Bytes, i: nat)
    requires Spells(s, p, text) && i < |text|
    ensures At(s, p + i, text[i])
  {
  }

  /** The parser reads the byte at the position, and goes on behind it. */
  predicate ReadsPiece(s: Bytes, p: nat, b: byte, q: nat) {
    p < |s| && s[p] != QUOTE && StringPiece(s, p) == Some(([b], q))
  }

  /** It reads the bytes of the value one after the other, up to the end. */
  ghost predicate ReadsPieces(s: Bytes, p: nat, value: Bytes, end: nat)
    decreases |value|
  {
    if |value| == 0 then p == end
    else exists q :: ReadsPiece(s, p, value[0], q) && ReadsPieces(s, q, value[1..], end)
  }

  lemma SpellsSplit(s: Bytes, p: nat, a: Bytes, b: Bytes)
    requires Spells(s, p, a + b)
    ensures Spells(s, p, a) && Spells(s, p + |a|, b)
  {
    forall i | 0 <= i < |a| ensures s[p + i] == a[i] { assert (a + b)[i] == a[i]; }
    forall i | 0 <= i < |b| ensures s[p + |a| + i] == b[i] { assert s[p + (|a| + i)] == (a + b)[|a| + i]; }
  }

  /** Every byte is read back from its escape. */
  lemma PieceRoundTrip(s: Bytes, p: nat, b: byte)
    requires Spells(s, p, Escape(b))
    ensures ReadsPiece(s, p, b, p + |Escape(b)|)
  {
    var e := Escape(b);
    SpellsByte(s, p, e, 0);
    if |e| >= 2 { SpellsByte(s, p, e, 1); }
    if |e| == 6 {
      SpellsByte(s, p, e, 2);
      SpellsByte(s, p, e, 3);
      SpellsByte(s, p, e, 4);
      SpellsByte(s, p, e, 5);
      ControlRoundTrip(s, p + 2, b);
    }
  }

  lemma ControlRoundTrip(s: Bytes, p: nat, b: byte)
    requires b < 0x20 && p + 4 <= |s| && s[p] == 0x30 && s[p + 1] == 0x30
    requires s[p + 2] == HexDigit(Nibbles(b).0) && s[p + 3] == HexDigit(Nibbles(b).1)
    ensures UnicodeEscape(s, p) == Some((b, p + 4))
  {
    var (high, low) := Nibbles(b);
    assert HexDigits(s, p + 4, 0, high * 16 + low) == Some(b);
    assert HexDigits(s, p + 3, 1, high) == Some(b);
    assert HexDigits(s, p + 2, 2, 0) == Some(b);
    assert HexDigits(s, p + 1, 3, 0) == Some(b);
    assert HexDigits(s, p, 4, 0) == Some(b);
  }

  /** The escapes of a value are read one after the other. */
  lemma EscapesBegin(s: Bytes, p: nat, value: Bytes, end: nat) returns (q: nat)
    requires |value| > 0 && Spells(s, p, EscapeAll(value)) && end == p + |EscapeAll(value)|
    ensures ReadsPiece(s, p, value[0], q)
    ensures Spells(s, q, EscapeAll(value[1..])) && end == q + |EscapeAll(value[1..])|
  {
    var head, rest := Escape(value[0]), EscapeAll(value[1..]);
    q := p + |head|;
    SpellsSplit(s, p, head, rest);
    PieceRoundTrip(s, p, value[0]);
  }

  lemma {:induction false} EscapesRead(s: Bytes, p: nat, value: Bytes, end: nat)
    requires Spells(s, p, EscapeAll(value)) && end == p + |EscapeAll(value)|
    ensures ReadsPieces(s, p, value, end)
    decreases |value|
  {
    if |value| > 0 {
      var q := EscapesBegin(s, p, value, end);
      EscapesRead(s, q, value[1..], end);
      PiecesJoin(s, p, value, q, end);
    }
  }

  lemma PiecesJoin(s: Bytes, p: nat, value: Bytes, q: nat, end: nat)
    requires |value| > 0 && ReadsPiece(s, p, value[0], q) && ReadsPieces(s, q, value[1..], end)
    ensures ReadsPieces(s, p, value, end)
  {
  }

  lemma {:induction false} PiecesMakeString(s: Bytes, p: nat, value: Bytes, end: nat)
    requires ReadsPieces(s, p, value, end) && At(s, end, QUOTE)
    ensures StringBody(s, p) == Some((value, end + 1))
    decreases |value|
  {
    if |value| > 0 {
      var q :| ReadsPiece(s, p, value[0], q) && ReadsPieces(s, q, value[1..], end);
      PiecesMakeString(s, q, value[1..], end);
      assert value == [value[0]] + value[1..];
    }
  }

  /** The bytes between the quotes of a written string. */
  lemma QuotesSpelled(s: Bytes, p: nat, value: Bytes) returns (end: nat)
    requires Spells(s, p, Quoted(value))
    ensures At(s, p, QUOTE) && ReadsPieces(s, p + 1, value, end) && At(s, end, QUOTE) && end + 1 == p + |Quoted(value)|
  {
    end := p + 1 + |EscapeAll(value)|;
    SpellsSplit(s, p, [QUOTE] + EscapeAll(value), [QUOTE]);
    SpellsSplit(s, p, [QUOTE], EscapeAll(value));
    EscapesRead(s, p + 1, value, end);
    SpellsByte(s, p, [QUOTE], 0);
    SpellsByte(s, end, [QUOTE], 0);
  }

  lemma WrittenRoundTrip(s: Bytes, p: nat, value: Bytes)
    requires Spells(s, p, Quoted(value))
    ensures At(s, p, QUOTE) && StringBody(s, p + 1) == Some((value, p + |Quoted(value)|))
  {
    var end := QuotesSpelled(s, p, value);
    PiecesMakeString(s, p + 1, value, end);
  }

  lemma StringValue(s: Bytes, p: nat, value: Bytes, end: nat)
    requires At(s, p, QUOTE) && StringBody(s, p + 1) == Some((value, end))
    ensures ValueFrom(s, p) == Some((Str(value), end))
  {
  }

  lemma NoSkip(s: Bytes, p: nat)
    requires p == |s| || (p < |s| && !Space(s[p]))
    ensures Skip(s, p) == p
  {
  }

  /** The string round trip: parsing the writer's output returns the original bytes, for every byte
      string. */
  lemma JsonStringRoundTrip(value: Bytes)
    ensures Parse(Quoted(value)) == Some(Str(value))
  {
    var s := Quoted(value);
    WrittenRoundTrip(s, 0, value);
    StringValue(s, 0, value, |s|);
    NoSkip(s, 0);
    NoSkip(s, |s|);
  }

  // ----- The proposal round trip -----

  /** A member written without spaces is read whole. */
  lemma MemberRoundTrip(s: Bytes, p: nat, key: Bytes, k: nat, v: JsonValue, next: nat)
    requires At(s, p, QUOTE) && StringBody(s, p + 1) == Some((key, k)) && At(s, k, COLON)
    requires k + 1 < |s| && !Space(s[k + 1]) && ValueFrom(s, k + 1) == Some((v, next))
    ensures Member(s, p) == Some((key, v, next))
  {
    NoSkip(s, p);
    NoSkip(s, k);
    NoSkip(s, k + 1);
  }

  lemma TextMember(s: Bytes, p: nat, key: Bytes, k: nat, value: Bytes, end: nat)
    requires At(s, p, QUOTE) && StringBody(s, p + 1) == Some((key, k)) && At(s, k, COLON)
    requires At(s, k + 1, QUOTE) && StringBody(s, k + 2) == Some((value, end))
    ensures Member(s, p) == Some((key, Str(value), end))
  {
    StringValue(s, k + 1, value, end);
    MemberRoundTrip(s, p, key, k, Str(value), end);
  }

  function Strs(values: seq<Bytes>): (items: seq<JsonValue>)
    ensures |items| == |values| && forall i :: 0 <= i < |values| ==> items[i] == Str(values[i])
  {
    seq(|values|, i requires 0 <= i < |values| => Str(values[i]))
  }

  lemma ItemRead(s: Bytes, p: nat, items: seq<JsonValue>, value: Bytes, end: nat)
    requires Spells(s, p, Quoted(value)) && end == p + |Quoted(value)|
    ensures At(s, end, 0x5d) ==> Items(s, p, items) == Some((Array(items + [Str(value)]), end + 1))
    ensures At(s, end, COMMA) ==> Items(s, p, items) == Items(s, end + 1, items + [Str(value)])
  {
    WrittenRoundTrip(s, p, value);
    StringValue(s, p, value, end);
    NoSkip(s, p);
    if At(s, end, 0x5d) || At(s, end, COMMA) { NoSkip(s, end); }
  }

  /** A list of two values or more: the first, a comma, and the list of the others. */
  lemma ListSplits(s: Bytes, p: nat, values: seq<Bytes>) returns (q: nat)
    requires |values| > 1 && Spells(s, p, QuotedList(values))
    ensures q == p + |Quoted(values[0])| && Spells(s, p, Quoted(values[0])) && At(s, q, COMMA)
    ensures Spells(s, q + 1, QuotedList(values[1..])) && p + |QuotedList(values)| == q + 1 + |QuotedList(values[1..])|
  {
    var head, rest := Quoted(values[0]), QuotedList(values[1..]);
    q := p + |head|;
    SpellsSplit(s, p, head, [COMMA] + rest);
    SpellsSplit(s, q, [COMMA], rest);
    SpellsByte(s, q, [COMMA], 0);
  }

  lemma StrsGrow(items: seq<JsonValue>, values: seq<Bytes>)
    requires |values| > 0
    ensures items + Strs(values) == items + [Str(values[0])] + Strs(values[1..])
  {
    assert Strs(values) == [Str(values[0])] + Strs(values[1..]);
    assert items + ([Str(values[0])] + Strs(values[1..])) == items + [Str(values[0])] + Strs(values[1..]);
  }

  /** The items from the position on are those of the list, up to its closing bracket. */
  ghost predicate ItemsAre(s: Bytes, p: nat, items: seq<JsonValue>, all: seq<JsonValue>, end: nat) {
    exists at :: at == p && p <= |s| && Items(s, at, items) == Some((Array(all), end + 1))
  }

  lemma LastItem(s: Bytes, p: nat, items: seq<JsonValue>, value: Bytes, end: nat)
    requires Spells(s, p, Quoted(value)) && end == p + |Quoted(value)| && At(s, end, 0x5d)
    ensures ItemsAre(s, p, items, items + [Str(value)], end)
  {
    ItemRead(s, p, items, value, end);
  }

  lemma NextItem(s: Bytes, p: nat, items: seq<JsonValue>, value: Bytes, q: nat, all: seq<JsonValue>, end: nat)
    requires Spells(s, p, Quoted(value)) && q == p + |Quoted(value)| && At(s, q, COMMA)
    requires ItemsAre(s, q + 1, items + [Str(value)], all, end)
    ensures ItemsAre(s, p, items, all, end)
  {
    ItemRead(s, p, items, value, q);
  }

  /** The written strings of a list are read in their order. */
  lemma {:induction false} ItemsRoundTrip(s: Bytes, p: nat, items: seq<JsonValue>, values: seq<Bytes>, end: nat)
    requires |values| > 0 && Spells(s, p, QuotedList(values)) && end == p + |QuotedList(values)| && At(s, end, 0x5d)
    ensures ItemsAre(s, p, items, items + Strs(values), end)
    decreases |values|
  {
    StrsGrow(items, values);
    if |values| == 1 {
      LastItem(s, p, items, values[0], end);
      assert Strs(values[1..]) == [] && items + [Str(values[0])] + [] == items + [Str(values[0])];
    } else {
      var q := ListSplits(s, p, values);
      ItemsRoundTrip(s, q + 1, items + [Str(values[0])], values[1..], end);
      NextItem(s, p, items, values[0], q, items + Strs(values), end);
    }
  }

  lemma ArrayValue(s: Bytes, p: nat, list: seq<JsonValue>, end: nat)
    requires At(s, p, 0x5b) && At(s, p + 1, QUOTE) && ItemsAre(s, p + 1, [], list, end)
    ensures ValueFrom(s, p) == Some((Array(list), end + 1))
  {
    NoSkip(s, p + 1);
  }

  lemma EmptyArray(s: Bytes, p: nat)
    requires At(s, p, 0x5b) && At(s, p + 1, 0x5d)
    ensures ValueFrom(s, p) == Some((Array([]), p + 2))
  {
    NoSkip(s, p + 1);
  }

  lemma ListOpens(s: Bytes, p: nat, values: seq<Bytes>)
    requires |values| > 0 && Spells(s, p, QuotedList(values))
    ensures At(s, p, QUOTE)
  {
    var head := Quoted(values[0]);
    if |values| > 1 { SpellsSplit(s, p, head, [COMMA] + QuotedList(values[1..])); }
    SpellsByte(s, p, head, 0);
  }

  lemma ListBrackets(s: Bytes, p: nat, inner: Bytes)
    requires Spells(s, p, [0x5b] + (inner + [0x5d]))
    ensures At(s, p, 0x5b) && Spells(s, p + 1, inner) && At(s, p + 1 + |inner|, 0x5d)
  {
    SpellsSplit(s, p, [0x5b], inner + [0x5d]);
    SpellsSplit(s, p + 1, inner, [0x5d]);
    SpellsByte(s, p, [0x5b], 0);
    SpellsByte(s, p + 1 + |inner|, [0x5d], 0);
  }

  /** A written list of strings is read back whole. */
  lemma ListRoundTrip(s: Bytes, p: nat, values: seq<Bytes>)
    requires Spells(s, p, ListJson(values))
    ensures At(s, p, 0x5b) && ValueFrom(s, p) == Some((Array(Strs(values)), p + |ListJson(values)|))
  {
    if |values| == 0 {
      ListBrackets(s, p, []);
      EmptyArray(s, p);
      assert Strs(values) == [];
    } else {
      var inner := QuotedList(values);
      ListBrackets(s, p, inner);
      ListOpens(s, p + 1, values);
      ItemsRoundTrip(s, p + 1, [], values, p + 1 + |inner|);
      assert [] + Strs(values) == Strs(values);
      ArrayValue(s, p, Strs(values), p + 1 + |inner|);
    }
  }

  lemma ListMember(s: Bytes, p: nat, key: Bytes, k: nat, values: seq<Bytes>)
    requires At(s, p, QUOTE) && StringBody(s, p + 1) == Some((key, k)) && At(s, k, COLON)
    requires Spells(s, k + 1, ListJson(values))
    ensures Member(s, p) == Some((key, Array(Strs(values)), k + 1 + |ListJson(values)|))
  {
    ListRoundTrip(s, k + 1, values);
    MemberRoundTrip(s, p, key, k, Array(Strs(values)), k + 1 + |ListJson(values)|);
  }

  /** The texts of a list are those of its strings, in their order, and there are none where an item
      is not a string. */
  lemma {:induction false} TextsAreOrdered(items: seq<JsonValue>)
    ensures Texts(items).Some? <==> forall i :: 0 <= i < |items| ==> items[i].Str?
    ensures Texts(items).Some? ==> items == Strs(Texts(items).value)
  {
    if |items| > 0 {
      var n := |items| - 1;
      TextsAreOrdered(items[..n]);
      assert items == items[..n] + [items[n]];
    }
  }

  lemma StrsAreTexts(values: seq<Bytes>)
    ensures Texts(Strs(values)) == Some(values)
  {
    var items := Strs(values);
    TextsAreOrdered(items);
    var texts := Texts(items).value;
    assert |texts| == |items|;
    forall i | 0 <= i < |values| ensures texts[i] == values[i] { assert items[i] == Strs(texts)[i]; }
    assert texts == values;
  }

  /** A member stands at the position, and the byte behind it is the mark. */
  predicate MemberAt(s: Bytes, p: nat, key: Bytes, v: JsonValue, next: nat, mark: byte) {
    p <= |s| && Member(s, p) == Some((key, v, next)) && At(s, next, mark)
  }

  lemma NextMember(s: Bytes, p: nat, members: map<Bytes, JsonValue>, key: Bytes, v: JsonValue, next: nat)
    requires MemberAt(s, p, key, v, next, COMMA) && key !in members
    ensures Members(s, p, members) == Members(s, next + 1, members[key := v])
  {
    NoSkip(s, next);
  }

  lemma LastMember(s: Bytes, p: nat, members: map<Bytes, JsonValue>, key: Bytes, v: JsonValue, next: nat)
    requires MemberAt(s, p, key, v, next, 0x7d) && key !in members
    ensures Members(s, p, members) == Some((Object(members[key := v]), next + 1))
  {
    NoSkip(s, next);
  }

  lemma {:induction false} PlainEscapes(value: Bytes)
    requires forall i :: 0 <= i < |value| ==> value[i] >= 0x20 && value[i] != QUOTE && value[i] != BACKSLASH
    ensures EscapeAll(value) == value
  {
    if |value| > 0 {
      PlainEscapes(value[1..]);
      assert Escape(value[0]) == [value[0]];
      assert [value[0]] + value[1..] == value;
    }
  }

  predicate Letters(word: string) {
    forall i :: 0 <= i < |word| ==> 'a' <= word[i] <= 'z'
  }

  lemma AsciiSplit(s: Bytes, p: nat, a: string, b: string)
    requires Spells(s, p, Ascii(a + b))
    ensures Spells(s, p, Ascii(a)) && Spells(s, p + |a|, Ascii(b))
  {
    assert Ascii(a + b) == Ascii(a) + Ascii(b);
    SpellsSplit(s, p, Ascii(a), Ascii(b));
  }

  lemma MarkSpelled(s: Bytes, p: nat, mark: char)
    requires Spells(s, p, Ascii([mark])) && mark as int < 0x80
    ensures At(s, p, mark as int)
  {
    SpellsByte(s, p, Ascii([mark]), 0);
  }

  /** A word of letters between quotes is its own writing. */
  lemma WordIsQuoted(word: string)
    requires Letters(word)
    ensures Ascii(Word(word)) == Quoted(Ascii(word)) && |Quoted(Ascii(word))| == |word| + 2
  {
    PlainEscapes(Ascii(word));
    assert Ascii(Word(word)) == [QUOTE] + Ascii(word) + [QUOTE];
  }

  lemma WordSpelled(s: Bytes, p: nat, word: string)
    requires Spells(s, p, Ascii(Word(word))) && Letters(word)
    ensures At(s, p, QUOTE) && StringBody(s, p + 1) == Some((Ascii(word), p + |word| + 2))
  {
    WordIsQuoted(word);
    WrittenRoundTrip(s, p, Ascii(word));
  }

  /** Where the five pieces of a written proposal stand. */
  lemma PiecesSpelled(a: Bytes, b: Bytes, c: Bytes, d: Bytes, e: Bytes)
    ensures var s := a + b + c + d + e;
      && Spells(s, 0, a) && Spells(s, |a|, b) && Spells(s, |a| + |b|, c) && Spells(s, |a| + |b| + |c|, d)
      && Spells(s, |a| + |b| + |c| + |d|, e)
  {
  }

  /** The opening frame: a member, a comma, and the key of the second member. */
  lemma OpeningSpelled(s: Bytes)
    requires Spells(s, 0, Ascii(OPENING))
    ensures At(s, 0, 0x7b) && At(s, 9, COLON) && At(s, 20, COMMA) && At(s, 29, COLON)
    ensures At(s, 1, QUOTE) && StringBody(s, 2) == Some((Ascii("status"), 9))
    ensures At(s, 10, QUOTE) && StringBody(s, 11) == Some((Ascii("proposal"), 20))
    ensures At(s, 21, QUOTE) && StringBody(s, 22) == Some((Ascii("script"), 29))
  {
    AsciiSplit(s, 0, "{" + Word("status") + ":" + Word("proposal") + "," + Word("script"), ":");
    AsciiSplit(s, 0, "{" + Word("status") + ":" + Word("proposal") + ",", Word("script"));
    AsciiSplit(s, 0, "{" + Word("status") + ":" + Word("proposal"), ",");
    AsciiSplit(s, 0, "{" + Word("status") + ":", Word("proposal"));
    AsciiSplit(s, 0, "{" + Word("status"), ":");
    AsciiSplit(s, 0, "{", Word("status"));
    MarkSpelled(s, 0, '{');
    MarkSpelled(s, 9, ':');
    MarkSpelled(s, 20, ',');
    MarkSpelled(s, 29, ':');
    WordSpelled(s, 1, "status");
    WordSpelled(s, 10, "proposal");
    WordSpelled(s, 21, "script");
  }

  lemma MiddleSpelled(s: Bytes, p: nat)
    requires Spells(s, p, Ascii(MIDDLE))
    ensures At(s, p, COMMA) && At(s, p + 14, COLON)
    ensures At(s, p + 1, QUOTE) && StringBody(s, p + 2) == Some((Ascii("explanation"), p + 14))
  {
    AsciiSplit(s, p, "," + Word("explanation"), ":");
    AsciiSplit(s, p, ",", Word("explanation"));
    MarkSpelled(s, p, ',');
    MarkSpelled(s, p + 14, ':');
    WordSpelled(s, p + 1, "explanation");
  }

  lemma ClosingSpelled(s: Bytes, p: nat)
    requires Spells(s, p, Ascii(CLOSING))
    ensures At(s, p, COMMA) && At(s, p + 11, COLON)
    ensures At(s, p + 1, QUOTE) && StringBody(s, p + 2) == Some((Ascii("warnings"), p + 11))
  {
    AsciiSplit(s, p, "," + Word("warnings"), ":");
    AsciiSplit(s, p, ",", Word("warnings"));
    MarkSpelled(s, p, ',');
    MarkSpelled(s, p + 11, ':');
    WordSpelled(s, p + 1, "warnings");
  }

  lemma KeysDistinct()
    ensures Ascii("status") != Ascii("script") && Ascii("status") != Ascii("explanation")
      && Ascii("status") != Ascii("warnings")
    ensures Ascii("script") != Ascii("explanation") && Ascii("script") != Ascii("warnings")
    ensures Ascii("explanation") != Ascii("warnings")
  {
    assert |Ascii("status")| == 6 && |Ascii("script")| == 6 && |Ascii("explanation")| == 11 && |Ascii("warnings")| == 8;
    assert Ascii("status")[1] != Ascii("script")[1];
  }

  /** The members of a written proposal. */
  function AllMembers(script: Bytes, explanation: Bytes, warnings: seq<Bytes>): map<Bytes, JsonValue> {
    map[][Ascii("status") := Str(Ascii("proposal"))][Ascii("script") := Str(script)]
    [Ascii("explanation") := Str(explanation)][Ascii("warnings") := Array(Strs(warnings))]
  }

  lemma ScriptMembers(s: Bytes, script: Bytes)
    requires Spells(s, 0, Ascii(OPENING)) && Spells(s, 30, Quoted(script))
    ensures At(s, 0, 0x7b) && At(s, 1, QUOTE) && MemberAt(s, 1, Ascii("status"), Str(Ascii("proposal")), 20, COMMA)
    ensures Member(s, 21) == Some((Ascii("script"), Str(script), 30 + |Quoted(script)|))
  {
    OpeningSpelled(s);
    WrittenRoundTrip(s, 30, script);
    TextMember(s, 1, Ascii("status"), 9, Ascii("proposal"), 20);
    TextMember(s, 21, Ascii("script"), 29, script, 30 + |Quoted(script)|);
  }

  /** A member whose value is a written string. */
  lemma QuotedMember(s: Bytes, p: nat, key: Bytes, k: nat, value: Bytes)
    requires At(s, p, QUOTE) && StringBody(s, p + 1) == Some((key, k)) && At(s, k, COLON)
    requires Spells(s, k + 1, Quoted(value))
    ensures Member(s, p) == Some((key, Str(value), k + 1 + |Quoted(value)|))
  {
    WrittenRoundTrip(s, k + 1, value);
    TextMember(s, p, key, k, value, k + 1 + |Quoted(value)|);
  }

  lemma ExplanationMember(s: Bytes, p: nat, explanation: Bytes)
    requires Spells(s, p, Ascii(MIDDLE)) && Spells(s, p + 15, Quoted(explanation))
    ensures At(s, p, COMMA)
    ensures Member(s, p + 1) == Some((Ascii("explanation"), Str(explanation), p + 15 + |Quoted(explanation)|))
  {
    MiddleSpelled(s, p);
    QuotedMember(s, p + 1, Ascii("explanation"), p + 14, explanation);
  }

  lemma EndingSpelled(s: Bytes, p: nat, warnings: seq<Bytes>, end: nat)
    requires Spells(s, p, Ending(warnings)) && end == p + 12 + |ListJson(warnings)|
    ensures Spells(s, p, Ascii(CLOSING)) && Spells(s, p + 12, ListJson(warnings)) && At(s, end, 0x7d)
  {
    SpellsSplit(s, p, Ascii(CLOSING) + ListJson(warnings), Ascii("}"));
    SpellsSplit(s, p, Ascii(CLOSING), ListJson(warnings));
    MarkSpelled(s, end, '}');
  }

  lemma WarningsMember(s: Bytes, p: nat, warnings: seq<Bytes>, end: nat)
    requires Spells(s, p, Ending(warnings)) && end == p + 12 + |ListJson(warnings)|
    ensures At(s, p, COMMA) && At(s, end, 0x7d)
    ensures Member(s, p + 1) == Some((Ascii("warnings"), Array(Strs(warnings)), end))
  {
    EndingSpelled(s, p, warnings, end);
    ClosingSpelled(s, p);
    ListMember(s, p + 1, Ascii("warnings"), p + 11, warnings);
  }

  lemma FramesMeasured()
    ensures |OPENING| == 30 && |MIDDLE| == 15 && |CLOSING| == 12
  {
  }

  lemma TwoMembers(s: Bytes, p: nat, members: map<Bytes, JsonValue>, k1: Bytes, v1: JsonValue, e1: nat, k2: Bytes,
                   v2: JsonValue, e2: nat)
    requires MemberAt(s, p, k1, v1, e1, COMMA) && MemberAt(s, e1 + 1, k2, v2, e2, COMMA)
    requires k1 !in members && k2 !in members && k2 != k1
    ensures Members(s, p, members) == Members(s, e2 + 1, members[k1 := v1][k2 := v2])
  {
    NextMember(s, p, members, k1, v1, e1);
    NextMember(s, e1 + 1, members[k1 := v1], k2, v2, e2);
  }

  lemma LastTwoMembers(s: Bytes, p: nat, members: map<Bytes, JsonValue>, k3: Bytes, v3: JsonValue, e3: nat, k4: Bytes,
                       v4: JsonValue, e4: nat)
    requires MemberAt(s, p, k3, v3, e3, COMMA) && MemberAt(s, e3 + 1, k4, v4, e4, 0x7d)
    requires k3 !in members && k4 !in members && k4 != k3
    ensures Members(s, p, members) == Some((Object(members[k3 := v3][k4 := v4]), e4 + 1))
  {
    NextMember(s, p, members, k3, v3, e3);
    LastMember(s, e3 + 1, members[k3 := v3], k4, v4, e4);
  }

  /** Four members of different names, one after the other. */
  lemma FourMembers(s: Bytes, k1: Bytes, v1: JsonValue, e1: nat, k2: Bytes, v2: JsonValue, e2: nat,
                    k3: Bytes, v3: JsonValue, e3: nat, k4: Bytes, v4: JsonValue, e4: nat)
    requires MemberAt(s, 1, k1, v1, e1, COMMA) && MemberAt(s, e1 + 1, k2, v2, e2, COMMA)
    requires MemberAt(s, e2 + 1, k3, v3, e3, COMMA) && MemberAt(s, e3 + 1, k4, v4, e4, 0x7d)
    requires k2 != k1 && k3 != k1 && k3 != k2 && k4 != k1 && k4 != k2 && k4 != k3
    ensures Members(s, 1, map[]) == Some((Object(map[][k1 := v1][k2 := v2][k3 := v3][k4 := v4]), e4 + 1))
  {
    var none: map<Bytes, JsonValue> := map[];
    TwoMembers(s, 1, none, k1, v1, e1, k2, v2, e2);
    LastTwoMembers(s, e2 + 1, none[k1 := v1][k2 := v2], k3, v3, e3, k4, v4, e4);
  }

  lemma FourKeys(script: Bytes, explanation: Bytes, warnings: seq<Bytes>)
    ensures |AllMembers(script, explanation, warnings)| == 4
  {
    KeysDistinct();
  }

  /** The four members of a proposal, under the given keys: the script ends at p, the explanation at
      q and the warnings at end. */
  predicate FourStand(s: Bytes, p: nat, q: nat, end: nat, script: Bytes, explanation: Bytes, warnings: seq<Bytes>,
                      status: Bytes, k1: Bytes, k2: Bytes, k3: Bytes, k4: Bytes) {
    && At(s, 0, 0x7b) && At(s, 1, QUOTE) && |s| == end + 1
    && MemberAt(s, 1, k1, Str(status), 20, COMMA) && MemberAt(s, 21, k2, Str(script), p, COMMA)
    && MemberAt(s, p + 1, k3, Str(explanation), q, COMMA)
    && MemberAt(s, q + 1, k4, Array(Strs(warnings)), end, 0x7d)
  }

  lemma ScriptStands(s: Bytes, p: nat, script: Bytes)
    requires Spells(s, 0, Ascii(OPENING)) && Spells(s, 30, Quoted(script)) && p == 30 + |Quoted(script)|
    requires At(s, p, COMMA)
    ensures At(s, 0, 0x7b) && At(s, 1, QUOTE) && MemberAt(s, 1, Ascii("status"), Str(Ascii("proposal")), 20, COMMA)
    ensures MemberAt(s, 21, Ascii("script"), Str(script), p, COMMA)
  {
    ScriptMembers(s, script);
  }

  lemma ExplanationStands(s: Bytes, p: nat, q: nat, explanation: Bytes)
    requires Spells(s, p, Ascii(MIDDLE)) && Spells(s, p + 15, Quoted(explanation))
    requires q == p + 15 + |Quoted(explanation)| && At(s, q, COMMA)
    ensures At(s, p, COMMA) && MemberAt(s, p + 1, Ascii("explanation"), Str(explanation), q, COMMA)
  {
    ExplanationMember(s, p, explanation);
  }

  lemma WarningsStand(s: Bytes, q: nat, warnings: seq<Bytes>, end: nat)
    requires Spells(s, q, Ending(warnings)) && end == q + 12 + |ListJson(warnings)|
    ensures At(s, q, COMMA) && MemberAt(s, q + 1, Ascii("warnings"), Array(Strs(warnings)), end, 0x7d)
  {
    WarningsMember(s, q, warnings, end);
  }

  lemma MembersStand(s: Bytes, p: nat, q: nat, end: nat, script: Bytes, explanation: Bytes, warnings: seq<Bytes>)
    requires Spells(s, 0, Ascii(OPENING)) && Spells(s, 30, Quoted(script)) && p == 30 + |Quoted(script)|
    requires Spells(s, p, Ascii(MIDDLE)) && Spells(s, p + 15, Quoted(explanation))
      && q == p + 15 + |Quoted(explanation)|
    requires Spells(s, q, Ending(warnings)) && end == q + 12 + |ListJson(warnings)| && |s| == end + 1
    ensures FourStand(s, p, q, end, script, explanation, warnings, Ascii("proposal"), Ascii("status"), Ascii("script"),
              Ascii("explanation"), Ascii("warnings"))
  {
    WarningsStand(s, q, warnings, end);
    ExplanationStands(s, p, q, explanation);
    ScriptStands(s, p, script);
  }

  /** Keys that differ in pairs make an object of four members. */
  lemma ObjectOfFour(s: Bytes, k1: Bytes, v1: JsonValue, e1: nat, k2: Bytes, v2: JsonValue, e2: nat,
                     k3: Bytes, v3: JsonValue, e3: nat, k4: Bytes, v4: JsonValue, e4: nat)
    requires At(s, 0, 0x7b) && At(s, 1, QUOTE) && |s| == e4 + 1
    requires MemberAt(s, 1, k1, v1, e1, COMMA) && MemberAt(s, e1 + 1, k2, v2, e2, COMMA)
    requires MemberAt(s, e2 + 1, k3, v3, e3, COMMA) && MemberAt(s, e3 + 1, k4, v4, e4, 0x7d)
    requires k2 != k1 && k3 != k1 && k3 != k2 && k4 != k1 && k4 != k2 && k4 != k3
    ensures Parse(s) == Some(Object(map[][k1 := v1][k2 := v2][k3 := v3][k4 := v4]))
  {
    FourMembers(s, k1, v1, e1, k2, v2, e2, k3, v3, e3, k4, v4, e4);
    ObjectParses(s, map[][k1 := v1][k2 := v2][k3 := v3][k4 := v4]);
  }

  lemma MembersParse(s: Bytes, p: nat, q: nat, end: nat, script: Bytes, explanation: Bytes, warnings: seq<Bytes>,
                     status: Bytes, k1: Bytes, k2: Bytes, k3: Bytes, k4: Bytes)
    requires FourStand(s, p, q, end, script, explanation, warnings, status, k1, k2, k3, k4)
    requires k2 != k1 && k3 != k1 && k3 != k2 && k4 != k1 && k4 != k2 && k4 != k3
    ensures Parse(s) ==
      Some(Object(map[][k1 := Str(status)][k2 := Str(script)][k3 := Str(explanation)][k4 := Array(Strs(warnings))]))
  {
    ObjectOfFour(s, k1, Str(status), 20, k2, Str(script), p, k3, Str(explanation), q, k4, Array(Strs(warnings)), end);
  }

  /** The written proposal parses to an object of its four members. */
  lemma ProposalParses(script: Bytes, explanation: Bytes, warnings: seq<Bytes>)
    ensures Parse(ProposalJson(script, explanation, warnings)) ==
      Some(Object(AllMembers(script, explanation, warnings)))
  {
    var s := ProposalJson(script, explanation, warnings);
    var p := 30 + |Quoted(script)|;
    var q := p + 15 + |Quoted(explanation)|;
    var end := q + 12 + |ListJson(warnings)|;
    FramesMeasured();
    PiecesSpelled(Ascii(OPENING), Quoted(script), Ascii(MIDDLE), Quoted(explanation), Ending(warnings));
    MembersStand(s, p, q, end, script, explanation, warnings);
    KeysDistinct();
    MembersParse(s, p, q, end, script, explanation, warnings, Ascii("proposal"), Ascii("status"), Ascii("script"),
                 Ascii("explanation"), Ascii("warnings"));
  }

  lemma ObjectParses(s: Bytes, members: map<Bytes, JsonValue>)
    requires At(s, 0, 0x7b) && At(s, 1, QUOTE) && Members(s, 1, map[]) == Some((Object(members), |s|))
    ensures Parse(s) == Some(Object(members))
  {
    assert Skip(s, 0) == 0 && Skip(s, 1) == 1;
  }

  /** The proposal round trip: parsing a written proposal returns exactly its script, its explanation
      and its warnings in order, whatever bytes they hold. */
  lemma ProposalRoundTrip(script: Bytes, explanation: Bytes, warnings: seq<Bytes>)
    ensures ParseProposal(ProposalJson(script, explanation, warnings)) == Payload(script, explanation, warnings)
  {
    ProposalParses(script, explanation, warnings);
    FourKeys(script, explanation, warnings);
    KeysDistinct();
    StrsAreTexts(warnings);
  }
}
