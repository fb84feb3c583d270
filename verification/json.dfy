/** JSON text as section 7 of RFC 8259 defines it: the string writer, and the response parser. */
module Json {
  import opened Domain
  import opened Utf8

  datatype JsonValue =
    | JsonNull | JsonBoolean | JsonNumber | Str(text: Bytes) | Array(items: seq<JsonValue>)
    | Object(members: map<Bytes, JsonValue>)

  const QUOTE: byte := 0x22
  const BACKSLASH: byte := 0x5c
  const COMMA: byte := 0x2c
  const COLON: byte := 0x3a

  /** ASCII text as bytes. */
  function Ascii(s: string): (bytes: Bytes)
    ensures |bytes| == |s| && forall i :: 0 <= i < |s| && s[i] as int < 0x80 ==> bytes[i] == s[i] as int
  {
    seq(|s|, i requires 0 <= i < |s| => if s[i] as int < 0x80 then s[i] as int else 0)
  }

  // ----- Writing strings -----

  function HexDigit(n: nat): byte
    requires n < 16
  {
    if n < 10 then 0x30 + n else 0x61 + (n - 10)
  }

  /** The upper and the lower four bits of a control character. */
  function Nibbles(b: byte): (r: (nat, nat))
    requires b < 0x20
    ensures r.0 * 16 + r.1 == b && r.1 < 16
  {
    if b < 0x10 then (0, b) else (1, b - 0x10)
  }

  /** How one byte is written inside a string. */
  function Escape(b: byte): (bytes: Bytes)
    ensures |bytes| > 0
  {
    if b == QUOTE then [BACKSLASH, QUOTE]
    else if b == BACKSLASH then [BACKSLASH, BACKSLASH]
    else if b == 0x08 then [BACKSLASH, 0x62]
    else if b == 0x0c then [BACKSLASH, 0x66]
    else if b == 0x0a then [BACKSLASH, 0x6e]
    else if b == 0x0d then [BACKSLASH, 0x72]
    else if b == 0x09 then [BACKSLASH, 0x74]
    else if b < 0x20 then [BACKSLASH, 0x75, 0x30, 0x30, HexDigit(Nibbles(b).0), HexDigit(Nibbles(b).1)]
    else [b]
  }

  function EscapeAll(value: Bytes): Bytes {
    if |value| == 0 then [] else Escape(value[0]) + EscapeAll(value[1..])
  }

  /** A string between its quotes. */
  function Quoted(value: Bytes): Bytes {
    [QUOTE] + EscapeAll(value) + [QUOTE]
  }

  method JsonString(value: Bytes) returns (output: Bytes)
    ensures output == Quoted(value)
  {
    output := [QUOTE];
    var i := 0;
    assert value[0..] == value;
    while i < |value|
      invariant i <= |value| && [QUOTE] + EscapeAll(value) == output + EscapeAll(value[i..])
    {
      assert value[i..][1..] == value[i + 1..];
      output := output + Escape(value[i]);
      i := i + 1;
    }
    output := output + [QUOTE];
  }

  // ----- Reading strings -----

  function HexValue(b: byte): Option<nat> {
    if 0x30 <= b <= 0x39 then Some(b - 0x30)
    else if 0x61 <= b <= 0x66 then Some(b - 0x61 + 10)
    else if 0x41 <= b <= 0x46 then Some(b - 0x41 + 10)
    else None
  }

  /** The number written in the next n hexadecimal digits, read after a number already begun. */
  function HexDigits(s: Bytes, p: nat, n: nat, so_far: nat): Option<nat>
    requires p + n <= |s|
    decreases n
  {
    if n == 0 then Some(so_far)
    else
      var d := HexValue(s[p]);
      if d.None? then None else HexDigits(s, p + 1, n - 1, so_far * 16 + d.value)
  }

  function HexQuad(s: Bytes, p: nat): (r: Option<nat>)
    ensures r.Some? ==> r.value < 0x10000 && p + 4 <= |s|
  {
    if p + 4 > |s| then None
    else
      HexIsSmall(s, p, 4, 0);
      HexDigits(s, p, 4, 0)
  }

  lemma {:induction false} HexIsSmall(s: Bytes, p: nat, n: nat, so_far: nat)
    requires p + n <= |s| && n <= 4
    ensures var r := HexDigits(s, p, n, so_far);
      r.Some? ==>
        r.value < (so_far + 1) *
          (if n == 0 then 1 else if n == 1 then 16 else if n == 2 then 256 else if n == 3 then 4096 else 65536)
    decreases n
  {
    if n > 0 && HexValue(s[p]).Some? { HexIsSmall(s, p + 1, n - 1, so_far * 16 + HexValue(s[p]).value); }
  }

  /** The code point of a Unicode escape, whose digits start at p, and where it ends. A high
      surrogate must be followed by the escape of a low one. */
  function UnicodeEscape(s: Bytes, p: nat): (r: Option<(nat, nat)>)
    ensures r.Some? ==> ScalarValue(r.value.0) && p < r.value.1 <= |s|
  {
    var high := HexQuad(s, p);
    if high.None? then None
    else if 0xd800 <= high.value <= 0xdbff then
      if p + 6 > |s| || s[p + 4] != BACKSLASH || s[p + 5] != 0x75 then None
      else
        var low := HexQuad(s, p + 6);
        if low.None? || low.value < 0xdc00 || low.value > 0xdfff then None
        else Some((0x10000 + (high.value - 0xd800) * 0x400 + (low.value - 0xdc00), p + 10))
    else if 0xdc00 <= high.value <= 0xdfff then None
    else Some((high.value, p + 4))
  }

  function SimpleEscape(b: byte): Option<byte> {
    if b == QUOTE then Some(QUOTE)
    else if b == BACKSLASH then Some(BACKSLASH)
    else if b == 0x2f then Some(0x2f)
    else if b == 0x62 then Some(0x08)
    else if b == 0x66 then Some(0x0c)
    else if b == 0x6e then Some(0x0a)
    else if b == 0x72 then Some(0x0d)
    else if b == 0x74 then Some(0x09)
    else None
  }

  /** One piece of a string: the bytes it stands for, and where it ends. */
  function StringPiece(s: Bytes, p: nat): (r: Option<(Bytes, nat)>)
    requires p < |s| && s[p] != QUOTE
    ensures r.Some? ==> p < r.value.1 <= |s|
  {
    if s[p] < 0x20 then None
    else if s[p] != BACKSLASH then Some(([s[p]], p + 1))
    else if p + 1 >= |s| then None
    else if s[p + 1] == 0x75 then
      var u := UnicodeEscape(s, p + 2);
      if u.None? then None else Some((Encode(u.value.0), u.value.1))
    else
      var e := SimpleEscape(s[p + 1]);
      if e.None? then None else Some(([e.value], p + 2))
  }

  /** The rest of a string after its opening quote, and where it ends. */
  function StringBody(s: Bytes, p: nat): (r: Option<(Bytes, nat)>)
    ensures r.Some? ==> p < r.value.1 <= |s|
    decreases |s| - p
  {
    if p >= |s| then None
    else if s[p] == QUOTE then Some(([], p + 1))
    else
      var piece := StringPiece(s, p);
      if piece.None? then None
      else
        var rest := StringBody(s, piece.value.1);
        if rest.None? then None else Some((piece.value.0 + rest.value.0, rest.value.1))
  }

  // ----- Reading values -----

  predicate Space(b: byte) {
    b == 0x20 || b == 0x09 || b == 0x0d || b == 0x0a
  }

  function Skip(s: Bytes, p: nat): (q: nat)
    requires p <= |s|
    ensures p <= q <= |s| && (q < |s| ==> !Space(s[q]))
    decreases |s| - p
  {
    if p < |s| && Space(s[p]) then Skip(s, p + 1) else p
  }

  predicate DigitByte(b: byte) {
    0x30 <= b <= 0x39
  }

  function DigitsEnd(s: Bytes, p: nat): (q: nat)
    requires p <= |s|
    ensures p <= q <= |s|
    decreases |s| - p
  {
    if p < |s| && DigitByte(s[p]) then DigitsEnd(s, p + 1) else p
  }

  predicate At(s: Bytes, p: nat, b: byte) {
    p < |s| && s[p] == b
  }

  /** Where the integer part of a number ends. */
  function IntegerEnd(s: Bytes, p: nat): (r: Option<nat>)
    requires p <= |s|
    ensures r.Some? ==> p < r.value <= |s|
  {
    if At(s, p, 0x30) then (if p + 1 < |s| && DigitByte(s[p + 1]) then None else Some(p + 1))
    else if DigitsEnd(s, p) == p then None else Some(DigitsEnd(s, p))
  }

  function FractionEnd(s: Bytes, p: nat): (r: Option<nat>)
    requires p <= |s|
    ensures r.Some? ==> p <= r.value <= |s|
  {
    if !At(s, p, 0x2e) then Some(p)
    else if DigitsEnd(s, p + 1) == p + 1 then None else Some(DigitsEnd(s, p + 1))
  }

  function ExponentEnd(s: Bytes, p: nat): (r: Option<nat>)
    requires p <= |s|
    ensures r.Some? ==> p <= r.value <= |s|
  {
    if !At(s, p, 0x65) && !At(s, p, 0x45) then Some(p)
    else
      var q := if At(s, p + 1, 0x2b) || At(s, p + 1, 0x2d) then p + 2 else p + 1;
      if DigitsEnd(s, q) == q then None else Some(DigitsEnd(s, q))
  }

  function NumberEnd(s: Bytes, p: nat): (r: Option<nat>)
    requires p <= |s|
    ensures r.Some? ==> p < r.value <= |s|
  {
    var integer := IntegerEnd(s, if At(s, p, 0x2d) then p + 1 else p);
    if integer.None? then None
    else
      var fraction := FractionEnd(s, integer.value);
      if fraction.None? then None else ExponentEnd(s, fraction.value)
  }

  predicate Literally(s: Bytes, p: nat, text: Bytes) {
    p + |text| <= |s| && s[p..p + |text|] == text
  }

  /** The value at a position, and where it ends. */
  function ValueFrom(s: Bytes, p: nat): (r: Option<(JsonValue, nat)>)
    ensures r.Some? ==> p < r.value.1 <= |s|
    decreases |s| - p, 2
  {
    if p >= |s| then None
    else if s[p] == QUOTE then
      var text := StringBody(s, p + 1);
      if text.None? then None else Some((Str(text.value.0), text.value.1))
    else if s[p] == 0x5b then
      (if At(s, Skip(s, p + 1), 0x5d) then Some((Array([]), Skip(s, p + 1) + 1)) else Items(s, Skip(s, p + 1), []))
    else if s[p] == 0x7b then
      (if At(s, Skip(s, p + 1), 0x7d)
        then Some((Object(map[]), Skip(s, p + 1) + 1)) else Members(s, Skip(s, p + 1), map[]))
    else if Literally(s, p, Ascii("null")) then Some((JsonNull, p + 4))
    else if Literally(s, p, Ascii("true")) then Some((JsonBoolean, p + 4))
    else if Literally(s, p, Ascii("false")) then Some((JsonBoolean, p + 5))
    else
      var end := NumberEnd(s, p);
      if end.None? then None else Some((JsonNumber, end.value))
  }

  /** The remaining items of an array. */
  function Items(s: Bytes, p: nat, items: seq<JsonValue>): (r: Option<(JsonValue, nat)>)
    requires p <= |s|
    ensures r.Some? ==> p < r.value.1 <= |s|
    decreases |s| - p, 3
  {
    var item := ValueFrom(s, Skip(s, p));
    if item.None? then None
    else
      var q, all := Skip(s, item.value.1), items + [item.value.0];
      if At(s, q, 0x5d) then Some((Array(all), q + 1))
      else if At(s, q, COMMA) then Items(s, q + 1, all) else None
  }

  /** One member of an object: its key, its value and where it ends. */
  function Member(s: Bytes, p: nat): (r: Option<(Bytes, JsonValue, nat)>)
    requires p <= |s|
    ensures r.Some? ==> p < r.value.2 <= |s|
    decreases |s| - p, 3
  {
    var start := Skip(s, p);
    if !At(s, start, QUOTE) then None
    else
      var key := StringBody(s, start + 1);
      if key.None? || !At(s, Skip(s, key.value.1), COLON) then None
      else
        var value := ValueFrom(s, Skip(s, Skip(s, key.value.1) + 1));
        if value.None? then None else Some((key.value.0, value.value.0, value.value.1))
  }

  /** The remaining members of an object; a repeated key is refused. */
  function Members(s: Bytes, p: nat, members: map<Bytes, JsonValue>): (r: Option<(JsonValue, nat)>)
    requires p <= |s|
    ensures r.Some? ==> p < r.value.1 <= |s|
    decreases |s| - p, 4
  {
    var member := Member(s, p);
    if member.None? || member.value.0 in members then None
    else
      var q, all := Skip(s, member.value.2), members[member.value.0 := member.value.1];
      if At(s, q, 0x7d) then Some((Object(all), q + 1))
      else if At(s, q, COMMA) then Members(s, q + 1, all) else None
  }

  /** A whole text holding one value. */
  function Parse(s: Bytes): Option<JsonValue> {
    var v := ValueFrom(s, Skip(s, 0));
    if v.None? || Skip(s, v.value.1) != |s| then None else Some(v.value.0)
  }

  // ----- The parser -----

  /** Reads values behind a cursor; None where the parser throws. */
  class JsonParser {
    const input: Bytes
    var position: nat

    constructor (input: Bytes)
      ensures this.input == input && position == 0
    {
      this.input := input;
      position := 0;
    }

    method SkipSpace()
      requires position <= |input|
      modifies this
      ensures position == Skip(input, old(position))
    {
      while position < |input| && Space(input[position])
        invariant position <= |input| && Skip(input, position) == Skip(input, old(position))
      {
        position := position + 1;
      }
    }

    method Consume(expected: byte) returns (ok: bool)
      requires position <= |input|
      modifies this
      ensures ok == At(input, old(position), expected) && position == old(position) + (if ok then 1 else 0)
      ensures position <= |input|
    {
      ok := position < |input| && input[position] == expected;
      if ok { position := position + 1; }
    }

    method ParseHexQuad() returns (result: Option<nat>)
      requires position <= |input|
      modifies this
      ensures result == HexQuad(input, old(position))
      ensures result.Some? ==> position == old(position) + 4 <= |input|
    {
      if position + 4 > |input| { return None; }
      var value: nat := 0;
      var n := 4;
      while n > 0
        invariant 0 <= n <= 4 && position == old(position) + (4 - n)
        invariant HexDigits(input, old(position), 4, 0) == HexDigits(input, position, n, value)
      {
        var d := HexValue(input[position]);
        if d.None? { return None; }
        position := position + 1;
        value := value * 16 + d.value;
        n := n - 1;
      }
      result := Some(value);
    }

    method ParseUnicodeEscape() returns (codepoint: Option<nat>)
      requires position <= |input|
      modifies this
      ensures var r := UnicodeEscape(input, old(position));
        if r.Some? then codepoint == Some(r.value.0) && position == r.value.1 else codepoint == None
    {
      var high := ParseHexQuad();
      if high.None? { return None; }
      if 0xd800 <= high.value <= 0xdbff {
        if position + 2 > |input| || input[position] != BACKSLASH || input[position + 1] != 0x75 { return None; }
        position := position + 2;
        var low := ParseHexQuad();
        if low.None? || low.value < 0xdc00 || low.value > 0xdfff { return None; }
        return Some(0x10000 + (high.value - 0xd800) * 0x400 + (low.value - 0xdc00));
      }
      if 0xdc00 <= high.value <= 0xdfff { return None; }
      codepoint := high;
    }

    method ParsePiece() returns (piece: Option<Bytes>)
      requires position < |input| && input[position] != QUOTE
      modifies this
      ensures var r := StringPiece(input, old(position));
        if r.Some? then piece == Some(r.value.0) && position == r.value.1 else piece == None
    {
      var value := input[position];
      position := position + 1;
      if value < 0x20 { return None; }
      if value != BACKSLASH { return Some([value]); }
      if position >= |input| { return None; }
      var escape := input[position];
      position := position + 1;
      if escape == 0x75 {
        var codepoint := ParseUnicodeEscape();
        if codepoint.None? { return None; }
        return Some(Encode(codepoint.value));
      }
      var simple := SimpleEscape(escape);
      if simple.None? { return None; }
      piece := Some([simple.value]);
    }

    /** Reads a string behind its opening quote, appending piece by piece. */
    method ParseStringBody() returns (text: Option<Bytes>)
      requires position <= |input|
      modifies this
      ensures var r := StringBody(input, old(position));
        if r.Some? then text == Some(r.value.0) && position == r.value.1 else text == None
    {
      var output: Bytes := [];
      ghost var whole := StringBody(input, position);
      PrependNothing(output, whole);
      while position < |input|
        invariant position <= |input|
        invariant whole == Prepend(output, StringBody(input, position))
        decreases |input| - position
      {
        if input[position] == QUOTE {
          position := position + 1;
          assert output + [] == output;
          return Some(output);
        }
        var piece := ParsePiece();
        if piece.None? { return None; }
        PrependTwice(output, piece.value, StringBody(input, position));
        output := output + piece.value;
      }
      text := None;
    }

    method ParseString() returns (text: Option<Bytes>)
      requires position <= |input|
      modifies this
      ensures var r := if At(input, old(position), QUOTE) then StringBody(input, old(position) + 1) else None;
        if r.Some? then text == Some(r.value.0) && position == r.value.1 else text == None
    {
      var quoted := Consume(QUOTE);
      if !quoted { return None; }
      text := ParseStringBody();
    }

    method SkipDigits()
      requires position <= |input|
      modifies this
      ensures position == DigitsEnd(input, old(position))
    {
      while position < |input| && DigitByte(input[position])
        invariant position <= |input| && DigitsEnd(input, position) == DigitsEnd(input, old(position))
      {
        position := position + 1;
      }
    }

    /** At least one digit. */
    method RequireDigits() returns (ok: bool)
      requires position <= |input|
      modifies this
      ensures position == DigitsEnd(input, old(position)) && ok == (position != old(position))
    {
      var digits := position;
      SkipDigits();
      ok := position != digits;
    }

    method ParseInteger() returns (ok: bool)
      requires position <= |input|
      modifies this
      ensures var r := IntegerEnd(input, old(position)); ok == r.Some? && (ok ==> position == r.value)
    {
      var zero := Consume(0x30);
      if zero {
        ok := !(position < |input| && DigitByte(input[position]));
      } else {
        ok := RequireDigits();
      }
    }

    method ParseFraction() returns (ok: bool)
      requires position <= |input|
      modifies this
      ensures var r := FractionEnd(input, old(position)); ok == r.Some? && (ok ==> position == r.value)
    {
      ok := Consume(0x2e);
      if ok { ok := RequireDigits(); } else { ok := true; }
    }

    method ParseExponent() returns (ok: bool)
      requires position <= |input|
      modifies this
      ensures var r := ExponentEnd(input, old(position)); ok == r.Some? && (ok ==> position == r.value)
    {
      if position < |input| && (input[position] == 0x65 || input[position] == 0x45) {
        position := position + 1;
        if position < |input| && (input[position] == 0x2b || input[position] == 0x2d) { position := position + 1; }
        ok := RequireDigits();
      } else {
        ok := true;
      }
    }

    method ParseNumber() returns (ok: bool)
      requires position <= |input|
      modifies this
      ensures var r := NumberEnd(input, old(position)); ok == r.Some? && (ok ==> position == r.value)
    {
      var sign := Consume(0x2d);
      ok := ParseInteger();
      if ok { ok := ParseFraction(); }
      if ok { ok := ParseExponent(); }
    }

    method ParseValue() returns (value: Option<JsonValue>)
      requires position <= |input|
      modifies this
      ensures var r := ValueFrom(input, old(position));
        if r.Some? then value == Some(r.value.0) && position == r.value.1 else value == None
      decreases |input| - position, 2
    {
      if position >= |input| { return None; }
      if input[position] == QUOTE {
        var text := ParseString();
        return if text.None? then None else Some(Str(text.value));
      }
      if input[position] == 0x5b {
        value := ParseArray();
        return;
      }
      if input[position] == 0x7b {
        value := ParseObject();
        return;
      }
      if Literally(input, position, Ascii("null")) {
        position := position + 4;
        return Some(JsonNull);
      }
      if Literally(input, position, Ascii("true")) {
        position := position + 4;
        return Some(JsonBoolean);
      }
      if Literally(input, position, Ascii("false")) {
        position := position + 5;
        return Some(JsonBoolean);
      }
      var ok := ParseNumber();
      value := if ok then Some(JsonNumber) else None;
    }

    method ParseArray() returns (value: Option<JsonValue>)
      requires At(input, position, 0x5b)
      modifies this
      ensures var r := ValueFrom(input, old(position));
        if r.Some? then value == Some(r.value.0) && position == r.value.1 else value == None
      decreases |input| - position, 1
    {
      ghost var whole := ValueFrom(input, position);
      position := position + 1;
      SkipSpace();
      var empty := Consume(0x5d);
      if empty { return Some(Array([])); }
      var items: seq<JsonValue> := [];
      assert whole == Items(input, position, items);
      while true
        invariant old(position) < position <= |input| && Items(input, position, items) == whole
        decreases |input| - position
      {
        SkipSpace();
        var item := ParseValue();
        if item.None? { return None; }
        items := items + [item.value];
        SkipSpace();
        var closed := Consume(0x5d);
        if closed { return Some(Array(items)); }
        var more := Consume(COMMA);
        if !more { return None; }
      }
    }

    method ParseMember() returns (member: Option<(Bytes, JsonValue)>)
      requires position <= |input|
      modifies this
      ensures var r := Member(input, old(position));
        if r.Some? then member == Some((r.value.0, r.value.1)) && position == r.value.2 else member == None
      decreases |input| - position, 3
    {
      SkipSpace();
      var key := ParseString();
      if key.None? { return None; }
      SkipSpace();
      var colon := Consume(COLON);
      if !colon { return None; }
      SkipSpace();
      var value := ParseValue();
      if value.None? { return None; }
      member := Some((key.value, value.value));
    }

    /** The members of an object that has some, up to its closing brace. */
    method ParseMembers() returns (value: Option<JsonValue>)
      requires position <= |input|
      modifies this
      ensures var r := Members(input, old(position), map[]);
        if r.Some? then value == Some(r.value.0) && position == r.value.1 else value == None
      decreases |input| - position, 4
    {
      var members: map<Bytes, JsonValue> := map[];
      ghost var whole := Members(input, position, members);
      while true
        invariant old(position) <= position <= |input| && Members(input, position, members) == whole
        decreases |input| - position
      {
        MembersStep(input, position, members);
        var member := ParseMember();
        if member.None? || member.value.0 in members { return None; }
        members := members[member.value.0 := member.value.1];
        SkipSpace();
        var closed := Consume(0x7d);
        if closed { return Some(Object(members)); }
        var more := Consume(COMMA);
        if !more { return None; }
        assert whole == Members(input, position, members);
      }
    }

    method ParseObject() returns (value: Option<JsonValue>)
      requires At(input, position, 0x7b)
      modifies this
      ensures var r := ValueFrom(input, old(position));
        if r.Some? then value == Some(r.value.0) && position == r.value.1 else value == None
      decreases |input| - position, 1
    {
      position := position + 1;
      SkipSpace();
      var empty := Consume(0x7d);
      if empty { return Some(Object(map[])); }
      value := ParseMembers();
    }

    method ParseDocument() returns (value: Option<JsonValue>)
      requires position == 0
      modifies this
      ensures value == Parse(input)
    {
      SkipSpace();
      value := ParseValue();
      if value.None? { return; }
      SkipSpace();
      if position != |input| { value := None; }
    }
  }

  /** What follows the next member decides how an object goes on. */
  lemma MembersStep(s: Bytes, p: nat, members: map<Bytes, JsonValue>)
    requires p <= |s|
    ensures var member := Member(s, p);
      if member.None? || member.value.0 in members then Members(s, p, members) == None
      else
        var q, all := Skip(s, member.value.2), members[member.value.0 := member.value.1];
        Members(s, p, members) ==
          if At(s, q, 0x7d) then Some((Object(all), q + 1))
          else if At(s, q, COMMA) then Members(s, q + 1, all) else None
  {
  }

  function Prepend(output: Bytes, rest: Option<(Bytes, nat)>): Option<(Bytes, nat)> {
    if rest.None? then None else Some((output + rest.value.0, rest.value.1))
  }

  lemma PrependNothing(empty: Bytes, rest: Option<(Bytes, nat)>)
    requires empty == []
    ensures Prepend(empty, rest) == rest
  {
    if rest.Some? { assert [] + rest.value.0 == rest.value.0; }
  }

  lemma PrependTwice(a: Bytes, b: Bytes, rest: Option<(Bytes, nat)>)
    ensures Prepend(a, Prepend(b, rest)) == Prepend(a + b, rest)
  {
    if rest.Some? { assert a + (b + rest.value.0) == a + b + rest.value.0; }
  }
}
