/** What the escapes of a JSON string denote, as section 7 of RFC 8259 defines them. */
module JsonEscapes {
  import opened Domain
  import opened Utf8
  import opened Json

  /** The byte is the hexadecimal digit of that value, in either case. */
  predicate Digit(b: byte, n: nat) {
    (n < 10 && b == 0x30 + n) || (10 <= n < 16 && (b == 0x41 + (n - 10) || b == 0x61 + (n - 10)))
  }

  /** Four digits at the position denote the number. */
  predicate Quad(s: Bytes, p: nat, n: nat) {
    && p + 4 <= |s| && n < 0x10000
    && Digit(s[p], n / 0x1000) && Digit(s[p + 1], n / 0x100 % 0x10)
    && Digit(s[p + 2], n / 0x10 % 0x10) && Digit(s[p + 3], n % 0x10)
  }

  predicate EscapeMark(s: Bytes, p: nat) {
    p + 2 <= |s| && s[p] == BACKSLASH && s[p + 1] == 0x75
  }

  /** The escapes at the position denote the scalar value: one escape of its number below 0x10000,
      a surrogate pair above. */
  predicate Escapes(s: Bytes, p: nat, c: nat, end: nat) {
    && ScalarValue(c) && EscapeMark(s, p)
    && if c < 0x10000 then Quad(s, p + 2, c) && end == p + 6
       else
         && Quad(s, p + 2, 0xd800 + (c - 0x10000) / 0x400)
         && EscapeMark(s, p + 6) && Quad(s, p + 8, 0xdc00 + (c - 0x10000) % 0x400) && end == p + 12
  }

  lemma DigitIsExact(b: byte, n: nat)
    ensures HexValue(b) == Some(n) <==> Digit(b, n)
  {
  }

  lemma FourDigits(s: Bytes, p: nat)
    requires p + 4 <= |s|
    ensures HexQuad(s, p).Some? <==>
      HexValue(s[p]).Some? && HexValue(s[p + 1]).Some? && HexValue(s[p + 2]).Some? && HexValue(s[p + 3]).Some?
    ensures HexQuad(s, p).Some? ==>
      HexQuad(s, p).value == HexValue(s[p]).value * 0x1000 + HexValue(s[p + 1]).value * 0x100
                             + HexValue(s[p + 2]).value * 0x10 + HexValue(s[p + 3]).value
  {
    var a, b, c := HexValue(s[p]), HexValue(s[p + 1]), HexValue(s[p + 2]);
    if a.Some? && b.Some? && c.Some? {
      var x := a.value * 16 + b.value;
      assert HexDigits(s, p + 3, 1, x * 16 + c.value) ==
        if HexValue(s[p + 3]).None? then None
        else HexDigits(s, p + 4, 0, (x * 16 + c.value) * 16 + HexValue(s[p + 3]).value);
      assert HexDigits(s, p + 2, 2, x) == HexDigits(s, p + 3, 1, x * 16 + c.value);
      assert HexDigits(s, p + 1, 3, a.value) == HexDigits(s, p + 2, 2, x);
    }
    assert HexDigits(s, p, 4, 0) == if a.None? then None else HexDigits(s, p + 1, 3, a.value);
  }

  lemma LastPlace(q: nat, d: nat, n: nat)
    requires d < 0x10
    ensures n == q * 0x10 + d <==> q == n / 0x10 && d == n % 0x10
  {
  }

  lemma PlacesOf(a: nat, b: nat, c: nat, d: nat, n: nat)
    requires a < 0x10 && b < 0x10 && c < 0x10 && d < 0x10 && n < 0x10000
    ensures n == a * 0x1000 + b * 0x100 + c * 0x10 + d <==>
      a == n / 0x1000 && b == n / 0x100 % 0x10 && c == n / 0x10 % 0x10 && d == n % 0x10
  {
    var ab := a * 0x10 + b;
    var abc := ab * 0x10 + c;
    LastPlace(abc, d, n);
    LastPlace(ab, c, n / 0x10);
    LastPlace(a, b, n / 0x100);
    assert n / 0x10 / 0x10 == n / 0x100 && n / 0x100 / 0x10 == n / 0x1000;
  }

  /** The four digits are read as the number they denote, in either case, and nothing else is read. */
  lemma QuadIsExact(s: Bytes, p: nat, n: nat)
    ensures HexQuad(s, p) == Some(n) <==> Quad(s, p, n)
  {
    if p + 4 <= |s| {
      FourDigits(s, p);
      var a, b, c, d := HexValue(s[p]), HexValue(s[p + 1]), HexValue(s[p + 2]), HexValue(s[p + 3]);
      DigitIsExact(s[p], n / 0x1000);
      DigitIsExact(s[p + 1], n / 0x100 % 0x10);
      DigitIsExact(s[p + 2], n / 0x10 % 0x10);
      DigitIsExact(s[p + 3], n % 0x10);
      if a.Some? && b.Some? && c.Some? && d.Some? && n < 0x10000 {
        PlacesOf(a.value, b.value, c.value, d.value, n);
      }
    }
  }

  lemma PairParts(high: nat, low: nat, c: nat)
    requires 0xd800 <= high <= 0xdbff && 0xdc00 <= low <= 0xdfff && 0x10000 <= c <= 0x10ffff
    ensures c == 0x10000 + (high - 0xd800) * 0x400 + (low - 0xdc00) <==>
      high == 0xd800 + (c - 0x10000) / 0x400 && low == 0xdc00 + (c - 0x10000) % 0x400
  {
  }

  lemma ReadEscapeDenotes(s: Bytes, p: nat, c: nat, end: nat)
    requires EscapeMark(s, p) && UnicodeEscape(s, p + 2) == Some((c, end))
    ensures Escapes(s, p, c, end)
  {
    var high := HexQuad(s, p + 2);
    QuadIsExact(s, p + 2, high.value);
    if 0xd800 <= high.value <= 0xdbff {
      var low := HexQuad(s, p + 8);
      QuadIsExact(s, p + 8, low.value);
      PairParts(high.value, low.value, c);
    }
  }

  lemma DenotedEscapeIsRead(s: Bytes, p: nat, c: nat, end: nat)
    requires Escapes(s, p, c, end)
    ensures UnicodeEscape(s, p + 2) == Some((c, end))
  {
    if c < 0x10000 {
      QuadIsExact(s, p + 2, c);
    } else {
      var high, low := 0xd800 + (c - 0x10000) / 0x400, 0xdc00 + (c - 0x10000) % 0x400;
      QuadIsExact(s, p + 2, high);
      QuadIsExact(s, p + 8, low);
      PairParts(high, low, c);
    }
  }

  /** A Unicode escape decodes to the encoding of a scalar value exactly when its digits denote that
      value, in either case, and as a surrogate pair where it does not fit four digits. */
  lemma EscapesAreExact(s: Bytes, p: nat, c: nat, end: nat)
    requires EscapeMark(s, p)
    ensures UnicodeEscape(s, p + 2) == Some((c, end)) <==> Escapes(s, p, c, end)
    ensures Escapes(s, p, c, end) ==> StringPiece(s, p) == Some((Encode(c), end))
  {
    if UnicodeEscape(s, p + 2) == Some((c, end)) { ReadEscapeDenotes(s, p, c, end); }
    if Escapes(s, p, c, end) { DenotedEscapeIsRead(s, p, c, end); }
  }

  /** The escapes of one character, and what each stands for. */
  const SHORT_ESCAPES: seq<(char, nat)> := [
    ('"', 0x22), ('\\', 0x5c), ('/', 0x2f), ('b', 0x08), ('f', 0x0c), ('n', 0x0a), ('r', 0x0d), ('t', 0x09)]

  /** What else a string is made of: bytes that stand for themselves, and the short escapes. */
  lemma OtherPiecesAreExact(s: Bytes, p: nat, bytes: Bytes, end: nat)
    requires p < |s| && s[p] != QUOTE && !EscapeMark(s, p)
    ensures StringPiece(s, p) == Some((bytes, end)) <==>
      || (s[p] >= 0x20 && s[p] != BACKSLASH && bytes == [s[p]] && end == p + 1)
      || (s[p] == BACKSLASH && p + 1 < |s| && end == p + 2
          && exists e <- SHORT_ESCAPES :: s[p + 1] == e.0 as int && bytes == [e.1])
  {
    if s[p] == BACKSLASH && p + 1 < |s| {
      ShortEscape(s[p + 1]);
      var value := SimpleEscape(s[p + 1]);
      if value.Some? {
        var e :| e in SHORT_ESCAPES && s[p + 1] == e.0 as int && value == Some(e.1);
        assert forall x <- SHORT_ESCAPES :: x.0 == e.0 ==> x == e;
      }
    }
  }

  lemma ShortEscape(b: byte)
    ensures SimpleEscape(b).Some? <==> exists e <- SHORT_ESCAPES :: b == e.0 as int
    ensures forall e <- SHORT_ESCAPES :: b == e.0 as int ==> SimpleEscape(b) == Some(e.1)
  {
    var t := SHORT_ESCAPES;
    assert forall e <- t :: e in [t[0], t[1], t[2], t[3], t[4], t[5], t[6], t[7]];
    assert t[0] in t && t[1] in t && t[2] in t && t[3] in t && t[4] in t && t[5] in t && t[6] in t && t[7] in t;
  }
}
