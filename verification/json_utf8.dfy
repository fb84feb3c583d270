/** Parsing keeps text valid: strings decoded from valid UTF-8 are valid UTF-8. */
module JsonUtf8 {
  import opened Domain
  import opened Utf8
  import opened Json
  import opened Proposals

  /** Continuation bytes and long leading bytes lie outside ASCII. */
  lemma LongEncodingsAreHigh(c: nat)
    requires ScalarValue(c) && |Encode(c)| >= 2
    ensures forall i :: 0 <= i < |Encode(c)| ==> Encode(c)[i] >= 0x80
  {
  }

  /** No byte inside a long character is ASCII. */
  lemma CharactersHoldTogether(t: Bytes, k: nat)
    requires |t| > 0 && First(t).Some? && 0 < k < First(t).value.0
    ensures t[k] >= 0x80
  {
    FirstDecodes(t);
    LongEncodingsAreHigh(First(t).value.1);
    assert t[k] == t[..First(t).value.0][k];
  }

  /** Valid text may be cut in front of any ASCII byte, and at its end. */
  lemma {:induction false} CutBeforeAscii(t: Bytes, k: nat)
    requires ValidUtf8(t) && k <= |t| && (k < |t| ==> t[k] < 0x80)
    ensures ValidUtf8(t[..k]) && ValidUtf8(t[k..])
    decreases |t|
  {
    if k == 0 {
      assert t[0..] == t;
    } else {
      var (count, c) := First(t).value;
      FirstDecodes(t);
      var rest := t[count..];
      if k < count { CharactersHoldTogether(t, k); }
      CutBeforeAscii(rest, k - count);
      assert t[..k] == Encode(c) + rest[..k - count];
      EncodingThenValid(c, rest[..k - count]);
      assert t[k..] == rest[k - count..];
    }
  }

  /** Leading ASCII bytes may be dropped. */
  lemma {:induction false} DropAscii(t: Bytes, k: nat)
    requires ValidUtf8(t) && k <= |t| && forall i :: 0 <= i < k ==> t[i] < 0x80
    ensures ValidUtf8(t[k..])
  {
    if k == 0 {
      assert t[0..] == t;
    } else {
      assert First(t) == Some((1, t[0]));
      DropAscii(t[1..], k - 1);
      assert t[1..][k - 1..] == t[k..];
    }
  }

  lemma HighByteCopied(s: Bytes, p: nat)
    requires p < |s| && s[p] >= 0x80 && StringBody(s, p).Some?
    ensures StringBody(s, p + 1).Some? && StringBody(s, p + 1).value.1 == StringBody(s, p).value.1
    ensures StringBody(s, p).value.0 == [s[p]] + StringBody(s, p + 1).value.0
  {
    assert StringPiece(s, p) == Some(([s[p]], p + 1));
  }

  /** Bytes outside ASCII are copied one by one. */
  lemma {:induction false} HighBytesCopied(s: Bytes, p: nat, k: nat)
    requires p + k <= |s| && StringBody(s, p).Some? && forall i :: p <= i < p + k ==> s[i] >= 0x80
    ensures StringBody(s, p + k).Some? && StringBody(s, p + k).value.1 == StringBody(s, p).value.1
    ensures StringBody(s, p).value.0 == s[p..p + k] + StringBody(s, p + k).value.0
    decreases k
  {
    var rest := StringBody(s, p).value.0;
    if k == 0 {
      assert s[p..p] + rest == rest;
    } else {
      HighByteCopied(s, p);
      HighBytesCopied(s, p + 1, k - 1);
      OneMore(s, p, k, StringBody(s, p + k).value.0);
    }
  }

  lemma OneMore(s: Bytes, p: nat, k: nat, rest: Bytes)
    requires 0 < k && p + k <= |s|
    ensures [s[p]] + (s[p + 1..p + k] + rest) == s[p..p + k] + rest
  {
    assert s[p..p + k] == [s[p]] + s[p + 1..p + k];
  }

  lemma UnicodeEscapeIsAscii(s: Bytes, p: nat)
    requires UnicodeEscape(s, p).Some?
    ensures forall i :: p <= i < UnicodeEscape(s, p).value.1 ==> s[i] < 0x80
  {
    HexQuadIsAscii(s, p);
    if 0xd800 <= HexQuad(s, p).value <= 0xdbff { HexQuadIsAscii(s, p + 6); }
  }

  /** An escape is written in ASCII and stands for an encoded scalar value. */
  lemma EscapesAreScalars(s: Bytes, p: nat) returns (c: nat)
    requires p < |s| && s[p] == BACKSLASH && StringPiece(s, p).Some?
    ensures ScalarValue(c) && StringPiece(s, p).value.0 == Encode(c)
    ensures forall i :: p <= i < StringPiece(s, p).value.1 ==> s[i] < 0x80
  {
    if s[p + 1] == 0x75 {
      c := UnicodeEscape(s, p + 2).value.0;
      UnicodeEscapeIsAscii(s, p + 2);
    } else {
      c := SimpleEscape(s[p + 1]).value;
    }
  }

  lemma HexQuadIsAscii(s: Bytes, p: nat)
    requires HexQuad(s, p).Some?
    ensures forall i :: p <= i < p + 4 ==> s[i] < 0x80
  {
    HexDigitsAreAscii(s, p, 4, 0);
  }

  lemma {:induction false} HexDigitsAreAscii(s: Bytes, p: nat, n: nat, so_far: nat)
    requires p + n <= |s| && HexDigits(s, p, n, so_far).Some?
    ensures forall i :: p <= i < p + n ==> s[i] < 0x80
    decreases n
  {
    if n > 0 { HexDigitsAreAscii(s, p + 1, n - 1, so_far * 16 + HexValue(s[p]).value); }
  }

  /** The bytes of a string between the position and its closing quote. */
  function BodyBytes(s: Bytes, p: nat): Bytes
    requires StringBody(s, p).Some?
  {
    s[p..StringBody(s, p).value.1 - 1]
  }

  lemma BodyIsSlice(s: Bytes, p: nat, q: nat)
    requires StringBody(s, p).Some? && p <= q < StringBody(s, p).value.1
    ensures q - p <= |BodyBytes(s, p)| && forall i :: 0 <= i < q - p ==> BodyBytes(s, p)[i] == s[p + i]
  {
  }

  lemma EscapePreserved(s: Bytes, p: nat) returns (c: nat, q: nat)
    requires StringBody(s, p).Some? && ValidUtf8(BodyBytes(s, p)) && s[p] == BACKSLASH
    ensures ScalarValue(c) && p < q && StringBody(s, q).Some? && ValidUtf8(BodyBytes(s, q))
    ensures StringBody(s, p).value.0 == Encode(c) + StringBody(s, q).value.0
  {
    c := EscapesAreScalars(s, p);
    q := StringPiece(s, p).value.1;
    var body := BodyBytes(s, p);
    BodyIsSlice(s, p, q);
    DropAscii(body, q - p);
    BodyDropped(s, p, q - p);
  }

  /** The decoding preserves validity: when the bytes of a string are valid UTF-8, so is the text it
      stands for. */
  lemma {:induction false} DecodingPreservesUtf8(s: Bytes, p: nat)
    requires StringBody(s, p).Some? && ValidUtf8(BodyBytes(s, p))
    ensures ValidUtf8(StringBody(s, p).value.0)
    decreases |s| - p
  {
    if s[p] == BACKSLASH {
      var c, q := EscapePreserved(s, p);
      DecodingPreservesUtf8(s, q);
      EncodingThenValid(c, StringBody(s, q).value.0);
    } else if s[p] != QUOTE {
      var c, q := CharacterPreserved(s, p);
      DecodingPreservesUtf8(s, q);
      EncodingThenValid(c, StringBody(s, q).value.0);
    }
  }

  /** A character that is not an escape is copied whole. */
  lemma CharacterPreserved(s: Bytes, p: nat) returns (c: nat, q: nat)
    requires StringBody(s, p).Some? && ValidUtf8(BodyBytes(s, p)) && s[p] != QUOTE && s[p] != BACKSLASH
    ensures ScalarValue(c) && p < q && StringBody(s, q).Some? && ValidUtf8(BodyBytes(s, q))
    ensures StringBody(s, p).value.0 == Encode(c) + StringBody(s, q).value.0
  {
    var body := BodyBytes(s, p);
    assert body[0] == s[p];
    var count := First(body).value.0;
    c, q := First(body).value.1, p + count;
    FirstDecodes(body);
    if count >= 2 { LongCharacterCopied(s, p, c); }
    BodyDropped(s, p, count);
  }

  lemma LongCharacterCopied(s: Bytes, p: nat, c: nat)
    requires StringBody(s, p).Some? && ScalarValue(c) && |Encode(c)| >= 2
    requires |Encode(c)| <= |BodyBytes(s, p)| && BodyBytes(s, p)[..|Encode(c)|] == Encode(c)
    ensures var q := p + |Encode(c)|;
      && StringBody(s, q).Some? && StringBody(s, q).value.1 == StringBody(s, p).value.1
      && StringBody(s, p).value.0 == Encode(c) + StringBody(s, q).value.0
  {
    var count := |Encode(c)|;
    LongEncodingsAreHigh(c);
    assert s[p..p + count] == BodyBytes(s, p)[..count];
    forall i | p <= i < p + count ensures s[i] >= 0x80 { assert s[i] == s[p..p + count][i - p]; }
    HighBytesCopied(s, p, count);
  }

  lemma BodyDropped(s: Bytes, p: nat, count: nat)
    requires StringBody(s, p).Some? && StringBody(s, p + count).Some?
    requires StringBody(s, p).value.1 == StringBody(s, p + count).value.1 && count <= |BodyBytes(s, p)|
    ensures BodyBytes(s, p)[count..] == BodyBytes(s, p + count)
  {
    assert BodyBytes(s, p)[count..] == BodyBytes(s, p + count);
  }

  // ----- Whole documents -----

  /** All strings in a value are valid UTF-8, keys included. */
  predicate AllValid(v: JsonValue) {
    match v
    case Str(text) => ValidUtf8(text)
    case Array(items) => forall i :: 0 <= i < |items| ==> AllValid(items[i])
    case Object(members) => forall k <- members :: ValidUtf8(k) && AllValid(members[k])
    case _ => true
  }

  /** What lies between two ASCII bytes of valid text is valid. */
  lemma BetweenAscii(t: Bytes, a: nat, b: nat)
    requires ValidUtf8(t) && a < b < |t| && t[a] < 0x80 && t[b] < 0x80
    ensures ValidUtf8(t[a + 1..b])
  {
    CutBeforeAscii(t, b);
    var front := t[..b];
    CutBeforeAscii(front, a);
    var inner := front[a..];
    assert inner[0] == t[a];
    DropAscii(inner, 1);
    assert inner[1..] == t[a + 1..b];
  }

  /** A string inside a valid document has valid bytes. */
  lemma StringInDocument(s: Bytes, p: nat)
    requires ValidUtf8(s) && At(s, p, QUOTE) && StringBody(s, p + 1).Some?
    ensures ValidUtf8(StringBody(s, p + 1).value.0)
  {
    ClosingQuote(s, p + 1);
    BetweenAscii(s, p, StringBody(s, p + 1).value.1 - 1);
    DecodingPreservesUtf8(s, p + 1);
  }

  lemma {:induction false} ClosingQuote(s: Bytes, p: nat)
    requires StringBody(s, p).Some?
    ensures s[StringBody(s, p).value.1 - 1] == QUOTE
    decreases |s| - p
  {
    if s[p] != QUOTE { ClosingQuote(s, StringPiece(s, p).value.1); }
  }

  lemma {:induction false} ValueIsValid(s: Bytes, p: nat)
    requires ValidUtf8(s) && ValueFrom(s, p).Some?
    ensures AllValid(ValueFrom(s, p).value.0)
    decreases |s| - p, 2
  {
    if s[p] == QUOTE {
      StringInDocument(s, p);
    } else if s[p] == 0x5b {
      if !At(s, Skip(s, p + 1), 0x5d) { ItemsAreValid(s, Skip(s, p + 1), []); }
    } else if s[p] == 0x7b {
      if !At(s, Skip(s, p + 1), 0x7d) { MembersAreValid(s, Skip(s, p + 1), map[]); }
    }
  }

  lemma OneMoreItem(s: Bytes, p: nat, items: seq<JsonValue>) returns (next: nat, all: seq<JsonValue>)
    requires p <= |s| && Items(s, p, items).Some?
    ensures p < next <= |s| && ValueFrom(s, Skip(s, p)).Some?
    ensures all == items + [ValueFrom(s, Skip(s, p)).value.0]
    ensures Items(s, p, items).value.0 == Array(all)
            || (Items(s, next, all).Some? && Items(s, p, items).value.0 == Items(s, next, all).value.0)
  {
    var item := ValueFrom(s, Skip(s, p)).value;
    next, all := Skip(s, item.1), items + [item.0];
    if At(s, next, COMMA) { next := next + 1; }
  }

  lemma AppendedIsValid(items: seq<JsonValue>, item: JsonValue)
    requires AllValid(Array(items)) && AllValid(item)
    ensures AllValid(Array(items + [item]))
  {
  }

  lemma {:induction false} ItemsAreValid(s: Bytes, p: nat, items: seq<JsonValue>)
    requires ValidUtf8(s) && p <= |s| && Items(s, p, items).Some? && AllValid(Array(items))
    ensures AllValid(Items(s, p, items).value.0)
    decreases |s| - p, 3
  {
    var next, all := OneMoreItem(s, p, items);
    ValueIsValid(s, Skip(s, p));
    AppendedIsValid(items, ValueFrom(s, Skip(s, p)).value.0);
    if Items(s, p, items).value.0 != Array(all) { ItemsAreValid(s, next, all); }
  }

  lemma {:induction false} MembersAreValid(s: Bytes, p: nat, members: map<Bytes, JsonValue>)
    requires ValidUtf8(s) && p <= |s| && Members(s, p, members).Some? && AllValid(Object(members))
    ensures AllValid(Members(s, p, members).value.0)
    decreases |s| - p, 4
  {
    var (key, value, next) := Member(s, p).value;
    MemberIsValid(s, p);
    var q, all := Skip(s, next), members[key := value];
    assert AllValid(Object(all));
    if !At(s, q, 0x7d) { MembersAreValid(s, q + 1, all); }
  }

  lemma {:induction false} MemberIsValid(s: Bytes, p: nat)
    requires ValidUtf8(s) && p <= |s| && Member(s, p).Some?
    ensures ValidUtf8(Member(s, p).value.0) && AllValid(Member(s, p).value.1)
    decreases |s| - p, 3
  {
    var start := Skip(s, p);
    StringInDocument(s, start);
    var key := StringBody(s, start + 1).value;
    ValueIsValid(s, Skip(s, Skip(s, key.1) + 1));
  }

  /** Every string of a document parsed from valid UTF-8 is valid UTF-8, and so are the script, the
      explanation and the warnings of a proposal. */
  lemma ProposalIsValid(response: Bytes)
    requires ValidUtf8(response) && ParseProposal(response).Payload?
    ensures var r := ParseProposal(response);
      ValidUtf8(r.script) && ValidUtf8(r.explanation) && forall i :: 0 <= i < |r.warnings| ==> ValidUtf8(r.warnings[i])
  {
    ValueIsValid(response, Skip(response, 0));
    var m := Parse(response).value.members;
    TextsAreValid(m[Ascii("warnings")].items);
  }

  lemma {:induction false} TextsAreValid(items: seq<JsonValue>)
    requires Texts(items).Some? && forall i :: 0 <= i < |items| ==> AllValid(items[i])
    ensures forall i :: 0 <= i < |Texts(items).value| ==> ValidUtf8(Texts(items).value[i])
  {
    if |items| > 0 { TextsAreValid(items[..|items| - 1]); }
  }
}
