/** UTF-8 as section 3 of RFC 3629 defines it. */
module Utf8 {
  import opened Domain

  type byte = i: int | 0 <= i < 256

  type Bytes = seq<byte>

  /** A code point that is not a surrogate. */
  predicate ScalarValue(c: nat) {
    c <= 0x10ffff && !(0xd800 <= c <= 0xdfff)
  }

  /** The bytes appended for a code point. */
  function Encode(c: nat): (bytes: Bytes)
    requires c <= 0x10ffff
    ensures 1 <= |bytes| <= 4
  {
    if c <= 0x7f then [c]
    else if c <= 0x7ff then [0xc0 + c / 0x40, 0x80 + c % 0x40]
    else if c <= 0xffff then [0xe0 + c / 0x1000, 0x80 + c / 0x40 % 0x40, 0x80 + c % 0x40]
    else [0xf0 + c / 0x40000, 0x80 + c / 0x1000 % 0x40, 0x80 + c / 0x40 % 0x40, 0x80 + c % 0x40]
  }

  predicate ScalarValues(scalars: seq<nat>) {
    forall i :: 0 <= i < |scalars| ==> ScalarValue(scalars[i])
  }

  function EncodeAll(scalars: seq<nat>): Bytes
    requires ScalarValues(scalars)
  {
    if |scalars| == 0 then [] else Encode(scalars[0]) + EncodeAll(scalars[1..])
  }

  /** The bytes are the encodings of some scalar values, one after the other. */
  ghost predicate WellEncoded(bytes: Bytes) {
    exists scalars :: ScalarValues(scalars) && EncodeAll(scalars) == bytes
  }

  // ----- The check -----

  /** The length announced by a leading byte; 0 where none is. */
  function Announced(first: byte): nat {
    if first <= 0x7f then 1
    else if 0xc0 <= first < 0xe0 then 2
    else if 0xe0 <= first < 0xf0 then 3
    else if 0xf0 <= first < 0xf8 then 4
    else 0
  }

  /** The bits a leading byte contributes. */
  function LeadingBits(first: byte): nat
    requires Announced(first) >= 2
  {
    if Announced(first) == 2 then first - 0xc0 else if Announced(first) == 3 then first - 0xe0 else first - 0xf0
  }

  /** The code point read from the continuation bytes; None where one of them is not such a byte. */
  function Continue(bytes: Bytes, codepoint: nat): Option<nat> {
    if |bytes| == 0 then Some(codepoint)
    else if 0x80 <= bytes[0] < 0xc0 then Continue(bytes[1..], codepoint * 0x40 + (bytes[0] - 0x80)) else None
  }

  /** Neither overlong, nor too large, nor a surrogate. */
  predicate Acceptable(count: nat, codepoint: nat) {
    && !(count == 2 && codepoint < 0x80) && !(count == 3 && codepoint < 0x800) && !(count == 4 && codepoint < 0x10000)
    && ScalarValue(codepoint)
  }

  /** The length and value of the first character; None where the check fails on it. */
  function First(bytes: Bytes): (r: Option<(nat, nat)>)
    requires |bytes| > 0
    ensures r.Some? ==> 1 <= r.value.0 <= |bytes| && ScalarValue(r.value.1)
  {
    var count := Announced(bytes[0]);
    if count == 1 then Some((1, bytes[0]))
    else if count == 0 || count > |bytes| then None
    else
      var codepoint := Continue(bytes[1..count], LeadingBits(bytes[0]));
      if codepoint.Some? && Acceptable(count, codepoint.value) then Some((count, codepoint.value)) else None
  }

  predicate ValidUtf8(bytes: Bytes) {
    |bytes| == 0 || (First(bytes).Some? && ValidUtf8(bytes[First(bytes).value.0..]))
  }

  /** The check as a loop over the bytes. */
  method CheckUtf8(text: Bytes) returns (ok: bool)
    ensures ok == ValidUtf8(text)
  {
    var index := 0;
    assert text[0..] == text;
    while index < |text|
      invariant index <= |text| && ValidUtf8(text) == ValidUtf8(text[index..])
    {
      var first := text[index];
      ghost var rest := text[index..];
      if first <= 0x7f {
        assert rest[1..] == text[index + 1..];
        index := index + 1;
        continue;
      }
      var count, codepoint: nat;
      if 0xc0 <= first < 0xe0 {
        count, codepoint := 2, first - 0xc0;
      } else if 0xe0 <= first < 0xf0 {
        count, codepoint := 3, first - 0xe0;
      } else if 0xf0 <= first < 0xf8 {
        count, codepoint := 4, first - 0xf0;
      } else {
        return false;
      }
      if index + count > |text| { return false; }
      var offset := 1;
      assert rest[1..count][0..] == rest[1..count];
      while offset < count
        invariant 1 <= offset <= count
        invariant Continue(rest[1..count], LeadingBits(first)) == Continue(rest[offset..count], codepoint)
      {
        var b := text[index + offset];
        assert rest[offset..count][0] == b && rest[offset..count][1..] == rest[offset + 1..count];
        if !(0x80 <= b < 0xc0) { return false; }
        codepoint := codepoint * 0x40 + (b - 0x80);
        offset := offset + 1;
      }
      if !Acceptable(count, codepoint) { return false; }
      assert First(rest) == Some((count, codepoint));
      assert rest[count..] == text[index + count..];
      index := index + count;
    }
    ok := true;
  }

  // ----- The check is exact -----

  function Bits(b: byte): nat {
    if b >= 0x80 then b - 0x80 else 0
  }

  /** The six-bit digits of a number. */
  lemma Digits(c: nat, x: nat, y: nat, z: nat)
    requires y < 0x40 && z < 0x40 && c == x * 0x1000 + y * 0x40 + z
    ensures c / 0x40 == x * 0x40 + y && c / 0x1000 == x && c / 0x40 % 0x40 == y && c % 0x40 == z
  {
  }

  lemma Digits4(c: nat, w: nat, x: nat, y: nat, z: nat)
    requires x < 0x40 && y < 0x40 && z < 0x40 && c == w * 0x40000 + x * 0x1000 + y * 0x40 + z
    ensures c / 0x40000 == w && c / 0x1000 % 0x40 == x && c / 0x40 % 0x40 == y && c % 0x40 == z
  {
    Digits(c, w * 0x40 + x, y, z);
    assert (w * 0x40 + x) / 0x40 == w && (w * 0x40 + x) % 0x40 == x;
    assert c / 0x40000 == c / 0x1000 / 0x40;
  }

  lemma ContinueUnrolls(t: Bytes, c: nat)
    requires 1 <= |t| <= 3 && Continue(t, c).Some?
    ensures forall i :: 0 <= i < |t| ==> 0x80 <= t[i] < 0xc0
    ensures |t| == 1 ==> Continue(t, c).value == c * 0x40 + Bits(t[0])
    ensures |t| == 2 ==> Continue(t, c).value == c * 0x1000 + Bits(t[0]) * 0x40 + Bits(t[1])
    ensures |t| == 3 ==> Continue(t, c).value == c * 0x40000 + Bits(t[0]) * 0x1000 + Bits(t[1]) * 0x40 + Bits(t[2])
  {
    if |t| >= 2 {
      assert t[1..][0] == t[1];
      if |t| == 3 { assert t[1..][1..][0] == t[2]; }
    }
  }

  /** The check of the first character inverts the encoding. */
  lemma FirstDecodes(bytes: Bytes)
    requires |bytes| > 0 && First(bytes).Some?
    ensures var (count, c) := First(bytes).value; bytes[..count] == Encode(c)
  {
    var (count, c) := First(bytes).value;
    if count == 2 {
      FirstDecodes2(bytes);
    } else if count == 3 {
      FirstDecodes3(bytes);
    } else if count == 4 {
      FirstDecodes4(bytes);
    }
  }

  lemma FirstDecodes2(bytes: Bytes)
    requires |bytes| > 0 && First(bytes).Some? && Announced(bytes[0]) == 2
    ensures bytes[..2] == Encode(First(bytes).value.1)
  {
    var c, t := First(bytes).value.1, bytes[1..2];
    ContinueUnrolls(t, bytes[0] - 0xc0);
    assert t[0] == bytes[1] && c == 0 * 0x1000 + (bytes[0] - 0xc0) * 0x40 + Bits(bytes[1]);
    Digits(c, 0, bytes[0] - 0xc0, Bits(bytes[1]));
  }

  lemma FirstDecodes3(bytes: Bytes)
    requires |bytes| > 0 && First(bytes).Some? && Announced(bytes[0]) == 3
    ensures bytes[..3] == Encode(First(bytes).value.1)
  {
    var c, t := First(bytes).value.1, bytes[1..3];
    ContinueUnrolls(t, bytes[0] - 0xe0);
    assert t[0] == bytes[1] && t[1] == bytes[2];
    Digits(c, bytes[0] - 0xe0, Bits(bytes[1]), Bits(bytes[2]));
  }

  lemma FirstDecodes4(bytes: Bytes)
    requires |bytes| > 0 && First(bytes).Some? && Announced(bytes[0]) == 4
    ensures bytes[..4] == Encode(First(bytes).value.1)
  {
    var c, t := First(bytes).value.1, bytes[1..4];
    ContinueUnrolls(t, bytes[0] - 0xf0);
    assert t[0] == bytes[1] && t[1] == bytes[2] && t[2] == bytes[3];
    Digits4(c, bytes[0] - 0xf0, Bits(bytes[1]), Bits(bytes[2]), Bits(bytes[3]));
  }

  lemma ContinueReads(t: Bytes, c: nat)
    requires 1 <= |t| <= 3 && forall i :: 0 <= i < |t| ==> 0x80 <= t[i] < 0xc0
    ensures Continue(t, c).Some?
  {
    if |t| >= 2 {
      assert t[1..][0] == t[1];
      if |t| == 3 { assert t[1..][1..][0] == t[2]; }
    }
  }

  lemma FirstOfEncoding(c: nat, rest: Bytes)
    requires ScalarValue(c)
    ensures First(Encode(c) + rest) == Some((|Encode(c)|, c))
  {
    var bytes, count := Encode(c) + rest, |Encode(c)|;
    assert bytes[0] == Encode(c)[0] && Announced(bytes[0]) == count;
    if count >= 2 {
      var t := bytes[1..count];
      assert t == Encode(c)[1..];
      ContinueReads(t, LeadingBits(bytes[0]));
      ContinueUnrolls(t, LeadingBits(bytes[0]));
      EncodingReads(c, t);
    }
  }

  /** The digits of an encoding add up to its code point. */
  lemma EncodingReads(c: nat, t: Bytes)
    requires ScalarValue(c) && |Encode(c)| >= 2 && t == Encode(c)[1..]
    ensures var b := LeadingBits(Encode(c)[0]);
      && (|t| == 1 ==> c == b * 0x40 + Bits(t[0]))
      && (|t| == 2 ==> c == b * 0x1000 + Bits(t[0]) * 0x40 + Bits(t[1]))
      && (|t| == 3 ==> c == b * 0x40000 + Bits(t[0]) * 0x1000 + Bits(t[1]) * 0x40 + Bits(t[2]))
  {
    if |t| == 2 { Recompose3(c); }
    if |t| == 3 { Recompose4(c); }
  }

  lemma Recompose3(c: nat)
    ensures c == c / 0x1000 * 0x1000 + c / 0x40 % 0x40 * 0x40 + c % 0x40
  {
    assert c / 0x40 == c / 0x1000 * 0x40 + c / 0x40 % 0x40;
  }

  lemma Recompose4(c: nat)
    ensures c == c / 0x40000 * 0x40000 + c / 0x1000 % 0x40 * 0x1000 + c / 0x40 % 0x40 * 0x40 + c % 0x40
  {
    Recompose3(c);
    assert c / 0x1000 == c / 0x40000 * 0x40 + c / 0x1000 % 0x40;
  }

  lemma EncodeAllHead(c: nat, rest: seq<nat>)
    requires ScalarValue(c) && ScalarValues(rest)
    ensures ScalarValues([c] + rest) && EncodeAll([c] + rest) == Encode(c) + EncodeAll(rest)
  {
    assert ([c] + rest)[1..] == rest;
  }

  lemma {:induction false} ValidIsEncoded(bytes: Bytes) returns (scalars: seq<nat>)
    requires ValidUtf8(bytes)
    ensures ScalarValues(scalars) && EncodeAll(scalars) == bytes
  {
    if |bytes| == 0 {
      scalars := [];
    } else {
      var (count, c) := First(bytes).value;
      FirstDecodes(bytes);
      var rest := ValidIsEncoded(bytes[count..]);
      scalars := [c] + rest;
      EncodeAllHead(c, rest);
      assert bytes == bytes[..count] + bytes[count..];
    }
  }

  lemma {:induction false} EncodedIsValid(scalars: seq<nat>)
    requires ScalarValues(scalars)
    ensures ValidUtf8(EncodeAll(scalars))
  {
    if |scalars| > 0 {
      var head, tail := Encode(scalars[0]), EncodeAll(scalars[1..]);
      FirstOfEncoding(scalars[0], tail);
      assert (head + tail)[|head|..] == tail;
      EncodedIsValid(scalars[1..]);
    }
  }

  /** The check accepts exactly the concatenations of encoded scalar values. */
  lemma ValidUtf8IsExact(bytes: Bytes)
    ensures ValidUtf8(bytes) <==> WellEncoded(bytes)
  {
    if ValidUtf8(bytes) {
      var scalars := ValidIsEncoded(bytes);
    }
    if WellEncoded(bytes) {
      var scalars :| ScalarValues(scalars) && EncodeAll(scalars) == bytes;
      EncodedIsValid(scalars);
    }
  }

  /** Characters may be put in front of valid text. */
  lemma EncodingThenValid(c: nat, rest: Bytes)
    requires ScalarValue(c) && ValidUtf8(rest)
    ensures ValidUtf8(Encode(c) + rest)
  {
    FirstOfEncoding(c, rest);
    assert (Encode(c) + rest)[|Encode(c)|..] == rest;
  }
}
