/** The number grammar in section 6 of RFC 8259, and the parser's numbers as words of it. */
module JsonNumbers {
  import opened Domain
  import opened Utf8
  import opened Json

  // ----- The grammar -----

  predicate Digits(t: Bytes) {
    |t| > 0 && forall b <- t :: DigitByte(b)
  }

  /** A digit string without a leading zero, unless it is a single zero. */
  predicate IntegerPart(t: Bytes) {
    Digits(t) && (t[0] == 0x30 ==> |t| == 1)
  }

  predicate FractionPart(t: Bytes) {
    |t| > 0 && t[0] == 0x2e && Digits(t[1..])
  }

  predicate Signed(t: Bytes) {
    Digits(t) || (|t| > 0 && t[0] in {0x2b, 0x2d} && Digits(t[1..]))
  }

  predicate ExponentPart(t: Bytes) {
    |t| > 0 && t[0] in {0x65, 0x45} && Signed(t[1..])
  }

  /** An optional minus, an integer, and an optional fraction and exponent. */
  predicate NumberParts(minus: Bytes, integer: Bytes, fraction: Bytes, exponent: Bytes) {
    && minus in {[], [0x2d]} && IntegerPart(integer)
    && (fraction == [] || FractionPart(fraction)) && (exponent == [] || ExponentPart(exponent))
  }

  /** The bytes between p and q are a number whose parts meet at a, b and c. */
  predicate SplitsAt(s: Bytes, p: nat, a: nat, b: nat, c: nat, q: nat) {
    p <= a <= b <= c <= q <= |s| && NumberParts(s[p..a], s[a..b], s[b..c], s[c..q])
  }

  predicate DigitAt(s: Bytes, q: nat) {
    q < |s| && DigitByte(s[q])
  }

  predicate ExponentAt(s: Bytes, q: nat) {
    At(s, q, 0x65) || At(s, q, 0x45)
  }

  /** What follows does not begin another digit or a part the number still lacks. */
  predicate Stops(s: Bytes, b: nat, c: nat, q: nat) {
    !DigitAt(s, q) && (c == q ==> !ExponentAt(s, q)) && (b == c == q ==> !At(s, q, 0x2e))
  }

  // ----- Digit runs -----

  /** A run of digits ends where the last of them stands, if no digit follows. */
  lemma {:induction false} RunEnds(s: Bytes, p: nat, q: nat)
    requires p <= q <= |s|
    ensures DigitsEnd(s, p) == q <==> (forall i :: p <= i < q ==> DigitByte(s[i])) && !DigitAt(s, q)
    decreases |s| - p
  {
    if DigitAt(s, p) {
      if p < q { RunEnds(s, p + 1, q); }
    }
  }

  /** The digits from p on, if there are any. */
  lemma DigitsAre(s: Bytes, p: nat, q: nat)
    requires p <= q <= |s|
    ensures DigitsEnd(s, p) == q && p < q <==> Digits(s[p..q]) && !DigitAt(s, q)
  {
    RunEnds(s, p, q);
    if Digits(s[p..q]) {
      forall i | p <= i < q ensures DigitByte(s[i]) { assert s[p..q][i - p] == s[i]; }
    }
  }

  // ----- The parts -----

  lemma IntegerIs(s: Bytes, p: nat, q: nat)
    requires p <= q <= |s|
    ensures IntegerEnd(s, p) == Some(q) <==> IntegerPart(s[p..q]) && !DigitAt(s, q)
  {
    DigitsAre(s, p, q);
  }

  lemma FractionIs(s: Bytes, p: nat, q: nat)
    requires p <= q <= |s|
    ensures FractionEnd(s, p) == Some(q) <==>
      if p == q then !At(s, p, 0x2e) else FractionPart(s[p..q]) && !DigitAt(s, q)
  {
    if p < q {
      assert s[p..q][1..] == s[p + 1..q];
      DigitsAre(s, p + 1, q);
    }
  }

  lemma SignedIs(s: Bytes, p: nat, q: nat)
    requires p <= q <= |s|
    ensures var start := if At(s, p, 0x2b) || At(s, p, 0x2d) then p + 1 else p;
      start <= |s| && (start < q && DigitsEnd(s, start) == q <==> Signed(s[p..q]) && !DigitAt(s, q))
  {
    DigitsAre(s, p, q);
    if p < q {
      assert s[p..q][1..] == s[p + 1..q];
      DigitsAre(s, p + 1, q);
    }
  }

  lemma ExponentIs(s: Bytes, p: nat, q: nat)
    requires p <= q <= |s|
    ensures ExponentEnd(s, p) == Some(q) <==>
      if p == q then !ExponentAt(s, p) else ExponentPart(s[p..q]) && !DigitAt(s, q)
  {
    if p < q {
      assert s[p..q][1..] == s[p + 1..q];
      SignedIs(s, p + 1, q);
    }
  }

  // ----- Numbers -----

  /** A number read at p ends at q exactly when the bytes between are a word of the grammar that
      nothing following continues. */
  lemma NumbersAreGrammatical(s: Bytes, p: nat, q: nat)
    requires p <= |s|
    ensures NumberEnd(s, p) == Some(q) <==>
      exists a: nat, b: nat, c: nat :: SplitsAt(s, p, a, b, c, q) && Stops(s, b, c, q)
  {
    if NumberEnd(s, p) == Some(q) { ReadNumberSplits(s, p, q); }
    if a: nat, b: nat, c: nat :| SplitsAt(s, p, a, b, c, q) && Stops(s, b, c, q) {
      SplitNumberIsRead(s, p, a, b, c, q);
    }
  }

  lemma ReadNumberSplits(s: Bytes, p: nat, q: nat)
    requires p <= |s| && NumberEnd(s, p) == Some(q)
    ensures exists a: nat, b: nat, c: nat :: SplitsAt(s, p, a, b, c, q) && Stops(s, b, c, q)
  {
    var a := if At(s, p, 0x2d) then p + 1 else p;
    var b := IntegerEnd(s, a).value;
    var c := FractionEnd(s, b).value;
    IntegerIs(s, a, b);
    FractionIs(s, b, c);
    ExponentIs(s, c, q);
    assert s[p..a] == if At(s, p, 0x2d) then [0x2d] else [];
    assert SplitsAt(s, p, a, b, c, q) && Stops(s, b, c, q);
  }

  lemma SplitNumberIsRead(s: Bytes, p: nat, a: nat, b: nat, c: nat, q: nat)
    requires SplitsAt(s, p, a, b, c, q) && Stops(s, b, c, q)
    ensures NumberEnd(s, p) == Some(q)
  {
    assert a == if At(s, p, 0x2d) then p + 1 else p by {
      assert s[a..b][0] == s[a] && DigitByte(s[a]);
      if p < a { assert s[p..a][0] == s[p]; }
    }
    PartsEnd(s, p, a, b, c, q);
    IntegerIs(s, a, b);
    FractionIs(s, b, c);
    ExponentIs(s, c, q);
  }

  /** No digit follows a part, since the next part or what follows the number does not begin with
      one. */
  lemma PartsEnd(s: Bytes, p: nat, a: nat, b: nat, c: nat, q: nat)
    requires SplitsAt(s, p, a, b, c, q) && Stops(s, b, c, q)
    ensures !DigitAt(s, b) && !DigitAt(s, c)
    ensures b == c ==> !At(s, b, 0x2e)
  {
    if b < c { assert s[b..c][0] == s[b]; }
    if c < q { assert s[c..q][0] == s[c]; }
  }

  // ----- Whole texts -----

  predicate Blank(t: Bytes) {
    forall b <- t :: Space(b)
  }

  lemma {:induction false} SkipsBlank(s: Bytes, p: nat, q: nat)
    requires p <= q <= |s|
    ensures Skip(s, p) == q <==> Blank(s[p..q]) && (q < |s| ==> !Space(s[q]))
    decreases |s| - p
  {
    if p < |s| && Space(s[p]) && p < q {
      SkipsBlank(s, p + 1, q);
      assert s[p..q] == [s[p]] + s[p + 1..q];
    } else if p < q {
      assert s[p..q][0] == s[p];
    }
  }

  lemma {:induction false} ItemsMakeArrays(s: Bytes, p: nat, items: seq<JsonValue>)
    requires p <= |s|
    ensures Items(s, p, items).Some? ==> Items(s, p, items).value.0.Array?
    decreases |s| - p
  {
    var item := ValueFrom(s, Skip(s, p));
    if item.Some? {
      var q := Skip(s, item.value.1);
      if At(s, q, COMMA) { ItemsMakeArrays(s, q + 1, items + [item.value.0]); }
    }
  }

  lemma {:induction false} MembersMakeObjects(s: Bytes, p: nat, members: map<Bytes, JsonValue>)
    requires p <= |s|
    ensures Members(s, p, members).Some? ==> Members(s, p, members).value.0.Object?
    decreases |s| - p
  {
    var member := Member(s, p);
    if member.Some? && member.value.0 !in members {
      var q := Skip(s, member.value.2);
      if At(s, q, COMMA) { MembersMakeObjects(s, q + 1, members[member.value.0 := member.value.1]); }
    }
  }

  /** A literal name begins with a letter. */
  lemma WordBegins(s: Bytes, p: nat, text: Bytes)
    requires Literally(s, p, text) && |text| > 0
    ensures s[p] == text[0]
  {
    assert s[p..p + |text|][0] == s[p];
  }

  lemma NoWordIsNumber(s: Bytes, p: nat)
    requires p < |s| && NumberEnd(s, p).Some?
    ensures !Literally(s, p, Ascii("null")) && !Literally(s, p, Ascii("true")) && !Literally(s, p, Ascii("false"))
  {
    if Literally(s, p, Ascii("null")) { WordBegins(s, p, Ascii("null")); }
    if Literally(s, p, Ascii("true")) { WordBegins(s, p, Ascii("true")); }
    if Literally(s, p, Ascii("false")) { WordBegins(s, p, Ascii("false")); }
  }

  /** Only the number branch yields a number, and a number begins like no other value. */
  lemma NumbersComeFromNumbers(s: Bytes, p: nat, q: nat)
    requires p <= |s|
    ensures ValueFrom(s, p) == Some((JsonNumber, q)) <==> NumberEnd(s, p) == Some(q)
  {
    if p < |s| {
      if s[p] == 0x5b { ItemsMakeArrays(s, Skip(s, p + 1), []); }
      if s[p] == 0x7b { MembersMakeObjects(s, Skip(s, p + 1), map[]); }
      if NumberEnd(s, p).Some? { NoWordIsNumber(s, p); }
    }
  }

  /** A text is read as a number exactly when it is a number of the grammar between blanks. */
  lemma NumberTexts(s: Bytes)
    ensures Parse(s) == Some(JsonNumber) <==> exists p: nat, a: nat, b: nat, c: nat, q: nat ::
      SplitsAt(s, p, a, b, c, q) && Blank(s[..p]) && Blank(s[q..])
  {
    if Parse(s) == Some(JsonNumber) {
      var p := Skip(s, 0);
      var q := ValueFrom(s, p).value.1;
      NumbersComeFromNumbers(s, p, q);
      NumbersAreGrammatical(s, p, q);
      SkipsBlank(s, 0, p);
      SkipsBlank(s, q, |s|);
      var a: nat, b: nat, c: nat :| SplitsAt(s, p, a, b, c, q) && Stops(s, b, c, q);
      assert s[0..p] == s[..p] && s[q..|s|] == s[q..];
    }
    if p: nat, a: nat, b: nat, c: nat, q: nat :|
      SplitsAt(s, p, a, b, c, q) && Blank(s[..p]) && Blank(s[q..])
    {
      NumberTextIsRead(s, p, a, b, c, q);
    }
  }

  lemma NumberTextIsRead(s: Bytes, p: nat, a: nat, b: nat, c: nat, q: nat)
    requires SplitsAt(s, p, a, b, c, q) && Blank(s[..p]) && Blank(s[q..])
    ensures Parse(s) == Some(JsonNumber)
  {
    assert s[0..p] == s[..p] && s[q..|s|] == s[q..];
    assert !Space(s[p]) by {
      assert s[a..b][0] == s[a] && DigitByte(s[a]);
      if p < a { assert s[p..a][0] == s[p]; }
    }
    SkipsBlank(s, 0, p);
    SkipsBlank(s, q, |s|);
    if q < |s| { assert s[q..][0] == s[q] && Space(s[q]); }
    SplitNumberIsRead(s, p, a, b, c, q);
    NumbersComeFromNumbers(s, p, q);
  }
}
