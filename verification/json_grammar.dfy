/** The grammar of JSON texts in RFC 8259, and the parser as its exact decision. */
module JsonGrammar {
  import opened Domain
  import opened Utf8
  import opened Json
  import opened JsonNumbers
  import opened JsonEscapes

  const OPEN_BRACKET: byte := 0x5b
  const CLOSE_BRACKET: byte := 0x5d
  const OPEN_BRACE: byte := 0x7b
  const CLOSE_BRACE: byte := 0x7d

  // ----- The grammar: what the bytes between two positions are -----

  predicate Blanks(s: Bytes, p: nat, q: nat) {
    p <= q <= |s| && forall i :: p <= i < q ==> Space(s[i])
  }

  /** One piece of a string: a plain byte, a short escape, or the escape of a scalar value. */
  ghost predicate PieceSpans(s: Bytes, p: nat, q: nat, bytes: Bytes) {
    && p < |s| && s[p] != QUOTE
    && if EscapeMark(s, p) then exists c: nat :: Escapes(s, p, c, q) && bytes == Encode(c)
       else
         || (s[p] >= 0x20 && s[p] != BACKSLASH && bytes == [s[p]] && q == p + 1)
         || (s[p] == BACKSLASH && p + 1 < |s| && q == p + 2
             && exists e <- SHORT_ESCAPES :: s[p + 1] == e.0 as int && bytes == [e.1])
  }

  /** The pieces of a string and its closing quote. */
  ghost predicate TextSpans(s: Bytes, p: nat, q: nat, text: Bytes)
    decreases |s| - p
  {
    && p < q <= |s|
    && if s[p] == QUOTE then text == [] && q == p + 1
       else exists m: nat, bytes: Bytes ::
         p < m < q && PieceSpans(s, p, m, bytes) && bytes <= text && TextSpans(s, m, q, text[|bytes|..])
  }

  /** A value, without blanks around it. */
  ghost predicate ValueSpans(s: Bytes, p: nat, q: nat, v: JsonValue)
    decreases q - p, 0
  {
    && p < q <= |s|
    && match v
       case Str(text) => s[p] == QUOTE && TextSpans(s, p + 1, q, text)
       case JsonNumber => exists a: nat, b: nat, c: nat :: SplitsAt(s, p, a, b, c, q)
       case JsonNull => s[p..q] == Ascii("null")
       case JsonBoolean => s[p..q] == Ascii("true") || s[p..q] == Ascii("false")
       case Array(items) =>
         && s[p] == OPEN_BRACKET && p + 1 < q && s[q - 1] == CLOSE_BRACKET
         && if items == [] then Blanks(s, p + 1, q - 1) else ItemsSpan(s, p + 1, q - 1, items)
       case Object(members) =>
         && s[p] == OPEN_BRACE && p + 1 < q && s[q - 1] == CLOSE_BRACE
         && if members == map[] then Blanks(s, p + 1, q - 1)
            else exists keys :: Lists(keys, members) && MembersSpan(s, p + 1, q - 1, keys, members)
  }

  /** Values separated by commas, with blanks around them. */
  ghost predicate ItemsSpan(s: Bytes, p: nat, q: nat, items: seq<JsonValue>)
    requires |items| > 0
    decreases q - p, 2
  {
    exists e: nat :: e <= q && ItemSpans(s, p, q, e, items[0]) && ItemsAfter(s, p, q, e, items)
  }

  ghost predicate ItemsAfter(s: Bytes, p: nat, q: nat, e: nat, items: seq<JsonValue>)
    requires |items| > 0
    decreases q - p, 1
  {
    if |items| == 1 then Blanks(s, e, q)
    else exists c: nat :: p <= c < q && Blanks(s, e, c) && At(s, c, COMMA) && ItemsSpan(s, c + 1, q, items[1..])
  }

  ghost predicate ItemSpans(s: Bytes, p: nat, q: nat, e: nat, v: JsonValue)
    requires e <= q
    decreases q - p, 1
  {
    exists a: nat :: p <= a < e && Blanks(s, p, a) && ValueSpans(s, a, e, v)
  }

  /** The keys of the members, each once, in some order. */
  predicate Lists(keys: seq<Bytes>, members: map<Bytes, JsonValue>) {
    && |keys| > 0 && (forall i, j :: 0 <= i < j < |keys| ==> keys[i] != keys[j])
    && (forall k <- keys :: k in members) && (forall k <- members :: k in keys)
  }

  /** The members under these keys, separated by commas, with blanks around them. */
  ghost predicate MembersSpan(s: Bytes, p: nat, q: nat, keys: seq<Bytes>, members: map<Bytes, JsonValue>)
    requires |keys| > 0 && forall k <- keys :: k in members
    decreases q - p, 2
  {
    exists e: nat ::
      e <= q && MemberSpans(s, p, q, e, keys[0], members[keys[0]]) && MembersAfter(s, p, q, e, keys, members)
  }

  ghost predicate MembersAfter(s: Bytes, p: nat, q: nat, e: nat, keys: seq<Bytes>, members: map<Bytes, JsonValue>)
    requires |keys| > 0 && forall k <- keys :: k in members
    decreases q - p, 1
  {
    if |keys| == 1 then Blanks(s, e, q)
    else exists c: nat ::
      p <= c < q && Blanks(s, e, c) && At(s, c, COMMA) && MembersSpan(s, c + 1, q, keys[1..], members)
  }

  /** A key, a colon and a value, with blanks before each. */
  ghost predicate MemberSpans(s: Bytes, p: nat, q: nat, e: nat, key: Bytes, v: JsonValue)
    requires e <= q
    decreases q - p, 1
  {
    exists a: nat, b: nat, c: nat, d: nat :: MemberPlaces(s, p, q, e, key, v, a, b, c, d)
  }

  /** The key stands from a to b, the colon at c, and the value from d to e. */
  ghost predicate MemberPlaces(s: Bytes, p: nat, q: nat, e: nat, key: Bytes, v: JsonValue, a: nat, b: nat, c: nat,
                               d: nat)
    requires e <= q
    decreases q - p, 0
  {
    && p <= a < b <= c < d < e <= |s| && Blanks(s, p, a) && At(s, a, QUOTE) && TextSpans(s, a + 1, b, key)
    && Blanks(s, b, c) && At(s, c, COLON) && Blanks(s, c + 1, d) && ValueSpans(s, d, e, v)
  }

  // ----- Strings -----

  lemma PieceIsExact(s: Bytes, p: nat, q: nat, bytes: Bytes)
    requires p < |s| && s[p] != QUOTE
    ensures StringPiece(s, p) == Some((bytes, q)) <==> PieceSpans(s, p, q, bytes)
  {
    if EscapeMark(s, p) {
      if StringPiece(s, p) == Some((bytes, q)) {
        var c := UnicodeEscape(s, p + 2).value.0;
        EscapesAreExact(s, p, c, q);
      }
      if c: nat :| Escapes(s, p, c, q) && bytes == Encode(c) { EscapesAreExact(s, p, c, q); }
    } else {
      OtherPiecesAreExact(s, p, bytes, q);
    }
  }

  /** A string is read to the text its pieces stand for. */
  lemma {:induction false} TextSound(s: Bytes, p: nat)
    requires StringBody(s, p).Some?
    ensures TextSpans(s, p, StringBody(s, p).value.1, StringBody(s, p).value.0)
    decreases |s| - p
  {
    if s[p] != QUOTE {
      var (bytes, m) := StringPiece(s, p).value;
      PieceIsExact(s, p, m, bytes);
      TextSound(s, m);
      var (rest, q) := StringBody(s, m).value;
      assert (bytes + rest)[|bytes|..] == rest;
    }
  }

  lemma {:induction false} TextComplete(s: Bytes, p: nat, q: nat, text: Bytes)
    requires TextSpans(s, p, q, text)
    ensures StringBody(s, p) == Some((text, q))
    decreases |s| - p
  {
    if s[p] != QUOTE {
      var m: nat, bytes: Bytes :|
        p < m < q && PieceSpans(s, p, m, bytes) && bytes <= text && TextSpans(s, m, q, text[|bytes|..]);
      PieceIsExact(s, p, m, bytes);
      TextComplete(s, m, q, text[|bytes|..]);
      assert bytes + text[|bytes|..] == text;
    }
  }

  // ----- Blanks -----

  lemma SkipIsBlanks(s: Bytes, p: nat, q: nat)
    requires p <= q <= |s|
    ensures Skip(s, p) == q <==> Blanks(s, p, q) && (q < |s| ==> !Space(s[q]))
  {
    SkipsBlank(s, p, q);
    if Blank(s[p..q]) {
      forall i | p <= i < q ensures Space(s[i]) { assert s[p..q][i - p] == s[i]; }
    }
  }

  lemma BlanksJoin(s: Bytes, p: nat, m: nat, q: nat)
    requires Blanks(s, p, m) && Blanks(s, m, q)
    ensures Blanks(s, p, q)
  {
  }

  // ----- What is read is in the grammar -----

  lemma LaterItem(s: Bytes, m: nat, p: nat, q: nat, e: nat, v: JsonValue)
    requires Blanks(s, m, p) && e <= q && ItemSpans(s, p, q, e, v)
    ensures ItemSpans(s, m, q, e, v)
  {
    var a: nat :| p <= a < e && Blanks(s, p, a) && ValueSpans(s, a, e, v);
    BlanksJoin(s, m, p, a);
  }

  lemma LaterAfter(s: Bytes, m: nat, p: nat, q: nat, e: nat, items: seq<JsonValue>)
    requires |items| > 0 && m <= p && ItemsAfter(s, p, q, e, items)
    ensures ItemsAfter(s, m, q, e, items)
  {
    if |items| > 1 {
      var c: nat :| p <= c < q && Blanks(s, e, c) && At(s, c, COMMA) && ItemsSpan(s, c + 1, q, items[1..]);
      assert m <= c;
    }
  }

  /** Blanks may stand before the first value. */
  lemma LaterItems(s: Bytes, m: nat, p: nat, q: nat, items: seq<JsonValue>)
    requires |items| > 0 && Blanks(s, m, p) && ItemsSpan(s, p, q, items)
    ensures ItemsSpan(s, m, q, items)
  {
    var e: nat :| e <= q && ItemSpans(s, p, q, e, items[0]) && ItemsAfter(s, p, q, e, items);
    LaterItem(s, m, p, q, e, items[0]);
    LaterAfter(s, m, p, q, e, items);
  }

  lemma LaterMember(s: Bytes, m: nat, p: nat, q: nat, e: nat, key: Bytes, v: JsonValue)
    requires Blanks(s, m, p) && e <= q && MemberSpans(s, p, q, e, key, v)
    ensures MemberSpans(s, m, q, e, key, v)
  {
    var a: nat, b: nat, c: nat, d: nat :| MemberPlaces(s, p, q, e, key, v, a, b, c, d);
    BlanksJoin(s, m, p, a);
    assert MemberPlaces(s, m, q, e, key, v, a, b, c, d);
  }

  lemma LaterMembersAfter(s: Bytes, m: nat, p: nat, q: nat, e: nat, keys: seq<Bytes>, members: map<Bytes, JsonValue>)
    requires |keys| > 0 && (forall k <- keys :: k in members) && m <= p && MembersAfter(s, p, q, e, keys, members)
    ensures MembersAfter(s, m, q, e, keys, members)
  {
    if |keys| > 1 {
      var c: nat :| p <= c < q && Blanks(s, e, c) && At(s, c, COMMA) && MembersSpan(s, c + 1, q, keys[1..], members);
      assert m <= c;
    }
  }

  /** Blanks may stand before the first key. */
  lemma LaterMembers(s: Bytes, m: nat, p: nat, q: nat, keys: seq<Bytes>, members: map<Bytes, JsonValue>)
    requires |keys| > 0 && (forall k <- keys :: k in members) && Blanks(s, m, p)
    requires MembersSpan(s, p, q, keys, members)
    ensures MembersSpan(s, m, q, keys, members)
  {
    var e: nat :|
      e <= q && MemberSpans(s, p, q, e, keys[0], members[keys[0]]) && MembersAfter(s, p, q, e, keys, members);
    LaterMember(s, m, p, q, e, keys[0], members[keys[0]]);
    LaterMembersAfter(s, m, p, q, e, keys, members);
  }

  lemma {:induction false} ValueSound(s: Bytes, p: nat)
    requires ValueFrom(s, p).Some?
    ensures ValueSpans(s, p, ValueFrom(s, p).value.1, ValueFrom(s, p).value.0)
    decreases |s| - p, 2
  {
    if s[p] == OPEN_BRACKET {
      ArraySound(s, p);
    } else if s[p] == OPEN_BRACE {
      ObjectSound(s, p);
    } else {
      ScalarSound(s, p);
    }
  }

  lemma ScalarSound(s: Bytes, p: nat)
    requires ValueFrom(s, p).Some? && s[p] != OPEN_BRACKET && s[p] != OPEN_BRACE
    ensures ValueSpans(s, p, ValueFrom(s, p).value.1, ValueFrom(s, p).value.0)
  {
    if s[p] == QUOTE {
      TextSound(s, p + 1);
    } else if !Literally(s, p, Ascii("null")) && !Literally(s, p, Ascii("true")) && !Literally(s, p, Ascii("false")) {
      NumbersAreGrammatical(s, p, ValueFrom(s, p).value.1);
    }
  }

  lemma {:induction false} ArraySound(s: Bytes, p: nat)
    requires ValueFrom(s, p).Some? && s[p] == OPEN_BRACKET
    ensures ValueSpans(s, p, ValueFrom(s, p).value.1, ValueFrom(s, p).value.0)
    decreases |s| - p, 1
  {
    var (v, q) := ValueFrom(s, p).value;
    var start := Skip(s, p + 1);
    SkipIsBlanks(s, p + 1, start);
    if !At(s, start, CLOSE_BRACKET) {
      ItemsMakeArrays(s, start, []);
      var items := ItemsSound(s, start, [], v.items, q - 1);
      assert [] + items == items;
      LaterItems(s, p + 1, start, q - 1, items);
    }
  }

  lemma {:induction false} ObjectSound(s: Bytes, p: nat)
    requires ValueFrom(s, p).Some? && s[p] == OPEN_BRACE
    ensures ValueSpans(s, p, ValueFrom(s, p).value.1, ValueFrom(s, p).value.0)
    decreases |s| - p, 1
  {
    var (v, q) := ValueFrom(s, p).value;
    var start := Skip(s, p + 1);
    SkipIsBlanks(s, p + 1, start);
    if !At(s, start, CLOSE_BRACE) {
      MembersMakeObjects(s, start, map[]);
      var keys := MembersSound(s, start, map[], v.members, q - 1);
      LaterMembers(s, p + 1, start, q - 1, keys, v.members);
      assert Lists(keys, v.members);
    }
  }

  lemma ItemsJoin(s: Bytes, p: nat, a: nat, e: nat, c: nat, q: nat, v: JsonValue, rest: seq<JsonValue>)
    requires p <= a && Blanks(s, p, a) && ValueSpans(s, a, e, v) && Blanks(s, e, c) && c <= q
    requires if rest == [] then c == q else At(s, c, COMMA) && c < q && ItemsSpan(s, c + 1, q, rest)
    ensures ItemsSpan(s, p, q, [v] + rest)
  {
    var items := [v] + rest;
    assert ItemSpans(s, p, q, e, items[0]);
    if rest != [] { assert items[1..] == rest; }
    assert ItemsAfter(s, p, q, e, items);
  }

  ghost predicate ReadsItems(s: Bytes, p: nat, before: seq<JsonValue>, items: seq<JsonValue>, q: nat) {
    exists at: nat :: at == p <= |s| && Items(s, at, before) == Some((Array(items), q + 1))
  }

  /** The first value read, and what the rest is read from. */
  lemma ItemsBegin(s: Bytes, p: nat, before: seq<JsonValue>, all: seq<JsonValue>, q: nat)
    returns (a: nat, v: JsonValue, e: nat, c: nat)
    requires ReadsItems(s, p, before, all, q)
    ensures p <= a < e <= c <= |s| && Blanks(s, p, a) && ValueFrom(s, a) == Some((v, e)) && Blanks(s, e, c)
    ensures if At(s, c, CLOSE_BRACKET) then all == before + [v] && q == c
      else At(s, c, COMMA) && ReadsItems(s, c + 1, before + [v], all, q)
  {
    a := Skip(s, p);
    v, e := ValueFrom(s, a).value.0, ValueFrom(s, a).value.1;
    c := Skip(s, e);
    SkipIsBlanks(s, p, a);
    SkipIsBlanks(s, e, c);
    if !At(s, c, CLOSE_BRACKET) { assert Items(s, c + 1, before + [v]) == Some((Array(all), q + 1)); }
  }

  lemma {:induction false} ItemsSound(s: Bytes, p: nat, before: seq<JsonValue>, all: seq<JsonValue>, q: nat)
    returns (items: seq<JsonValue>)
    requires ReadsItems(s, p, before, all, q)
    ensures |items| > 0 && all == before + items && At(s, q, CLOSE_BRACKET) && ItemsSpan(s, p, q, items)
    decreases |s| - p, 3
  {
    var a, v, e, c := ItemsBegin(s, p, before, all, q);
    ValueSound(s, a);
    var rest: seq<JsonValue> := [];
    if !At(s, c, CLOSE_BRACKET) {
      rest := ItemsSound(s, c + 1, before + [v], all, q);
      assert before + [v] + rest == before + ([v] + rest);
    }
    items := [v] + rest;
    ItemsJoin(s, p, a, e, c, q, v, rest);
  }

  /** The parts of a member that was read. */
  lemma MemberParts(s: Bytes, p: nat, key: Bytes, v: JsonValue, e: nat) returns (a: nat, b: nat, c: nat, d: nat)
    requires p <= |s| && Member(s, p) == Some((key, v, e))
    ensures p <= a < b <= c < d < e <= |s| && Blanks(s, p, a) && At(s, a, QUOTE)
    ensures StringBody(s, a + 1) == Some((key, b)) && Blanks(s, b, c) && At(s, c, COLON) && Blanks(s, c + 1, d)
    ensures ValueFrom(s, d) == Some((v, e))
  {
    a := Skip(s, p);
    b := StringBody(s, a + 1).value.1;
    c := Skip(s, b);
    d := Skip(s, c + 1);
    SkipIsBlanks(s, p, a);
    SkipIsBlanks(s, b, c);
    SkipIsBlanks(s, c + 1, d);
  }

  lemma {:induction false} MemberSound(s: Bytes, p: nat, q: nat, key: Bytes, v: JsonValue, e: nat)
    requires p <= |s| && Member(s, p) == Some((key, v, e)) && e <= q
    ensures MemberSpans(s, p, q, e, key, v)
    decreases |s| - p, 2
  {
    var a, b, c, d := MemberParts(s, p, key, v, e);
    TextSound(s, a + 1);
    ValueSound(s, d);
    assert MemberPlaces(s, p, q, e, key, v, a, b, c, d);
  }

  lemma MembersJoin(s: Bytes, p: nat, e: nat, c: nat, q: nat, key: Bytes, rest: seq<Bytes>,
                    members: map<Bytes, JsonValue>)
    requires key in members && (forall k <- rest :: k in members)
    requires Blanks(s, e, c) && c <= q && p < e && MemberSpans(s, p, q, e, key, members[key])
    requires if rest == [] then c == q else At(s, c, COMMA) && c < q && MembersSpan(s, c + 1, q, rest, members)
    ensures MembersSpan(s, p, q, [key] + rest, members)
  {
    var keys := [key] + rest;
    if rest != [] { assert keys[1..] == rest; }
    assert MembersAfter(s, p, q, e, keys, members);
  }

  /** The keys were read once each, none of them before, and nothing else was added. */
  predicate Added(before: map<Bytes, JsonValue>, keys: seq<Bytes>, after: map<Bytes, JsonValue>) {
    && (forall i, j :: 0 <= i < j < |keys| ==> keys[i] != keys[j])
    && (forall k <- keys :: k in after && k !in before)
    && (forall k <- after :: k in keys || k in before)
    && (forall k <- before :: k in after && after[k] == before[k])
  }

  lemma AddedNext(before: map<Bytes, JsonValue>, key: Bytes, v: JsonValue, rest: seq<Bytes>,
                  after: map<Bytes, JsonValue>)
    requires key !in before && Added(before[key := v], rest, after)
    ensures Added(before, [key] + rest, after) && after[key] == v
  {
    var keys := [key] + rest;
    assert key in before[key := v] && key in after;
    forall k <- keys ensures k in after && k !in before {
      if k != key { assert k in rest; }
    }
    forall k <- after ensures k in keys || k in before {
      if k in rest { assert k in keys; } else if k == key { assert keys[0] == key; }
    }
  }

  ghost predicate ReadsMembers(s: Bytes, p: nat, before: map<Bytes, JsonValue>, members: map<Bytes, JsonValue>,
                               q: nat) {
    exists at: nat :: at == p <= |s| && Members(s, at, before) == Some((Object(members), q + 1))
  }

  /** The first member read, and what the rest is read from. */
  lemma MembersBegin(s: Bytes, p: nat, before: map<Bytes, JsonValue>, members: map<Bytes, JsonValue>, q: nat)
    returns (key: Bytes, v: JsonValue, e: nat, c: nat)
    requires ReadsMembers(s, p, before, members, q)
    ensures p <= |s| && Member(s, p) == Some((key, v, e)) && key !in before && p < e && Blanks(s, e, c)
    ensures if At(s, c, CLOSE_BRACE) then members == before[key := v] && q == c
      else At(s, c, COMMA) && ReadsMembers(s, c + 1, before[key := v], members, q)
  {
    key, v, e := Member(s, p).value.0, Member(s, p).value.1, Member(s, p).value.2;
    c := Skip(s, e);
    SkipIsBlanks(s, e, c);
    if !At(s, c, CLOSE_BRACE) { assert Members(s, c + 1, before[key := v]) == Some((Object(members), q + 1)); }
  }

  /** The members read from the position on: an object that ends with its brace. */
  ghost predicate Collected(s: Bytes, p: nat, before: map<Bytes, JsonValue>, keys: seq<Bytes>,
                            members: map<Bytes, JsonValue>, q: nat) {
    && |keys| > 0 && Added(before, keys, members) && At(s, q, CLOSE_BRACE) && MembersSpan(s, p, q, keys, members)
  }

  lemma CollectedLast(s: Bytes, p: nat, before: map<Bytes, JsonValue>, key: Bytes, v: JsonValue, e: nat, c: nat)
    requires key !in before && p < e && Blanks(s, e, c) && At(s, c, CLOSE_BRACE) && MemberSpans(s, p, c, e, key, v)
    ensures Collected(s, p, before, [key], before[key := v], c)
  {
    AddedNext(before, key, v, [], before[key := v]);
    MembersJoin(s, p, e, c, c, key, [], before[key := v]);
    assert [key] + [] == [key];
  }

  lemma CollectedNext(s: Bytes, p: nat, before: map<Bytes, JsonValue>, key: Bytes, v: JsonValue, e: nat, c: nat,
                      rest: seq<Bytes>, members: map<Bytes, JsonValue>, q: nat)
    requires key !in before && p < e && Blanks(s, e, c) && At(s, c, COMMA) && c < q && MemberSpans(s, p, q, e, key, v)
    requires Collected(s, c + 1, before[key := v], rest, members, q)
    ensures Collected(s, p, before, [key] + rest, members, q)
  {
    AddedNext(before, key, v, rest, members);
    MembersJoin(s, p, e, c, q, key, rest, members);
  }

  lemma {:induction false} MembersSound(s: Bytes, p: nat, before: map<Bytes, JsonValue>, members: map<Bytes, JsonValue>,
                                        q: nat) returns (keys: seq<Bytes>)
    requires ReadsMembers(s, p, before, members, q)
    ensures Collected(s, p, before, keys, members, q)
    decreases |s| - p, 3
  {
    var key, v, e, c := MembersBegin(s, p, before, members, q);
    if At(s, c, CLOSE_BRACE) {
      keys := [key];
      MemberSound(s, p, q, key, v, e);
      CollectedLast(s, p, before, key, v, e, c);
    } else {
      var rest := MembersSound(s, c + 1, before[key := v], members, q);
      keys := [key] + rest;
      MemberSound(s, p, q, key, v, e);
      CollectedNext(s, p, before, key, v, e, c, rest, members, q);
    }
  }

  // ----- What is in the grammar is read -----

  /** No number goes on here. */
  predicate Delimited(s: Bytes, q: nat) {
    q <= |s| && (q < |s| ==> Space(s[q]) || s[q] in {COMMA, CLOSE_BRACKET, CLOSE_BRACE})
  }

  lemma BlanksDelimit(s: Bytes, e: nat, q: nat)
    requires Blanks(s, e, q) && (At(s, q, COMMA) || At(s, q, CLOSE_BRACKET) || At(s, q, CLOSE_BRACE) || q == |s|)
    ensures Delimited(s, e) && Skip(s, e) == q
  {
    SkipIsBlanks(s, e, q);
  }

  lemma NumberStarts(s: Bytes, p: nat, a: nat, b: nat, c: nat, q: nat)
    requires SplitsAt(s, p, a, b, c, q)
    ensures p < q && (DigitByte(s[p]) || s[p] == 0x2d)
  {
    assert s[a..b][0] == s[a] && DigitByte(s[a]);
    if p < a { assert s[p..a][0] == s[p]; }
  }

  lemma WordStarts(s: Bytes, p: nat, q: nat, word: Bytes)
    requires p < q <= |s| && s[p..q] == word
    ensures |word| > 0 && s[p] == word[0] && Literally(s, p, word) && q == p + |word|
  {
    assert s[p..q][0] == s[p];
  }

  lemma ValueStarts(s: Bytes, p: nat, q: nat, v: JsonValue)
    requires ValueSpans(s, p, q, v)
    ensures !Space(s[p]) && s[p] !in {CLOSE_BRACKET, CLOSE_BRACE}
  {
    match v
    case JsonNumber =>
      var a: nat, b: nat, c: nat :| SplitsAt(s, p, a, b, c, q);
      NumberStarts(s, p, a, b, c, q);
    case JsonNull => WordStarts(s, p, q, Ascii("null"));
    case JsonBoolean =>
      if s[p..q] == Ascii("true") { WordStarts(s, p, q, Ascii("true")); } else { WordStarts(s, p, q, Ascii("false")); }
    case _ =>
  }

  lemma WordComplete(s: Bytes, p: nat, q: nat, v: JsonValue)
    requires ValueSpans(s, p, q, v) && (v.JsonNull? || v.JsonBoolean?)
    ensures ValueFrom(s, p) == Some((v, q))
  {
    if v.JsonNull? {
      WordStarts(s, p, q, Ascii("null"));
    } else if s[p..q] == Ascii("true") {
      WordStarts(s, p, q, Ascii("true"));
      if Literally(s, p, Ascii("null")) { WordBegins(s, p, Ascii("null")); }
    } else {
      WordStarts(s, p, q, Ascii("false"));
      if Literally(s, p, Ascii("null")) { WordBegins(s, p, Ascii("null")); }
      if Literally(s, p, Ascii("true")) { WordBegins(s, p, Ascii("true")); }
    }
  }

  lemma NumberComplete(s: Bytes, p: nat, q: nat)
    requires ValueSpans(s, p, q, JsonNumber) && Delimited(s, q)
    ensures ValueFrom(s, p) == Some((JsonNumber, q))
  {
    var a: nat, b: nat, c: nat :| SplitsAt(s, p, a, b, c, q);
    SplitNumberIsRead(s, p, a, b, c, q);
    NumbersComeFromNumbers(s, p, q);
  }

  lemma {:induction false} ValueComplete(s: Bytes, p: nat, q: nat, v: JsonValue)
    requires ValueSpans(s, p, q, v) && Delimited(s, q)
    ensures ValueFrom(s, p) == Some((v, q))
    decreases q - p, 1
  {
    match v
    case Str(text) => TextComplete(s, p + 1, q, text);
    case JsonNumber => NumberComplete(s, p, q);
    case JsonNull => WordComplete(s, p, q, v);
    case JsonBoolean => WordComplete(s, p, q, v);
    case Array(_) => ArrayComplete(s, p, q, v);
    case Object(_) => ObjectComplete(s, p, q, v);
  }

  lemma {:induction false} ArrayComplete(s: Bytes, p: nat, q: nat, v: JsonValue)
    requires ValueSpans(s, p, q, v) && v.Array?
    ensures ValueFrom(s, p) == Some((v, q))
    decreases q - p, 0
  {
    if v.items == [] {
      SkipIsBlanks(s, p + 1, q - 1);
    } else {
      var start := ItemsStart(s, p + 1, q - 1, v.items);
      ItemsComplete(s, start, q - 1, [], v.items);
      assert [] + v.items == v.items;
    }
  }

  /** The blanks before the first value. */
  lemma ItemsStart(s: Bytes, p: nat, q: nat, items: seq<JsonValue>) returns (start: nat)
    requires |items| > 0 && ItemsSpan(s, p, q, items)
    ensures p <= start <= |s| && Skip(s, p) == start && !At(s, start, CLOSE_BRACKET) && ItemsSpan(s, start, q, items)
  {
    var e: nat :| e <= q && ItemSpans(s, p, q, e, items[0]) && ItemsAfter(s, p, q, e, items);
    start :| p <= start < e && Blanks(s, p, start) && ValueSpans(s, start, e, items[0]);
    ValueStarts(s, start, e, items[0]);
    SkipIsBlanks(s, p, start);
    assert Blanks(s, start, start) && ItemSpans(s, start, q, e, items[0]);
    if |items| > 1 {
      var c: nat :| p <= c < q && Blanks(s, e, c) && At(s, c, COMMA) && ItemsSpan(s, c + 1, q, items[1..]);
      assert start <= c;
    }
    assert ItemsAfter(s, start, q, e, items);
  }

  /** Where the first value stands, and what follows it. */
  lemma ItemsSplit(s: Bytes, p: nat, q: nat, items: seq<JsonValue>) returns (a: nat, e: nat, c: nat)
    requires |items| > 0 && ItemsSpan(s, p, q, items) && At(s, q, CLOSE_BRACKET)
    ensures p <= a < e <= c <= q && Skip(s, p) == a && ValueSpans(s, a, e, items[0]) && Delimited(s, e)
    ensures Skip(s, e) == c
    ensures if |items| == 1 then c == q else At(s, c, COMMA) && c < q && ItemsSpan(s, c + 1, q, items[1..])
  {
    e :| e <= q && ItemSpans(s, p, q, e, items[0]) && ItemsAfter(s, p, q, e, items);
    a :| p <= a < e && Blanks(s, p, a) && ValueSpans(s, a, e, items[0]);
    ValueStarts(s, a, e, items[0]);
    SkipIsBlanks(s, p, a);
    c := q;
    if |items| > 1 {
      c :| p <= c < q && Blanks(s, e, c) && At(s, c, COMMA) && ItemsSpan(s, c + 1, q, items[1..]);
    }
    BlanksDelimit(s, e, c);
  }

  lemma LastItemRead(s: Bytes, p: nat, before: seq<JsonValue>, a: nat, v: JsonValue, e: nat, c: nat)
    requires p <= |s| && Skip(s, p) == a && ValueFrom(s, a) == Some((v, e)) && Skip(s, e) == c
    requires At(s, c, CLOSE_BRACKET)
    ensures ReadsItems(s, p, before, before + [v], c)
  {
    assert Items(s, p, before) == Some((Array(before + [v]), c + 1));
  }

  lemma ItemsGoOn(s: Bytes, p: nat, before: seq<JsonValue>, a: nat, v: JsonValue, e: nat, c: nat)
    requires p <= |s| && Skip(s, p) == a && ValueFrom(s, a) == Some((v, e)) && Skip(s, e) == c && At(s, c, COMMA)
    ensures Items(s, p, before) == Items(s, c + 1, before + [v])
  {
  }

  lemma NextItemRead(s: Bytes, p: nat, before: seq<JsonValue>, a: nat, v: JsonValue, e: nat, c: nat,
                     all: seq<JsonValue>, q: nat)
    requires p <= |s| && Skip(s, p) == a && ValueFrom(s, a) == Some((v, e)) && Skip(s, e) == c && At(s, c, COMMA)
    requires ReadsItems(s, c + 1, before + [v], all, q)
    ensures ReadsItems(s, p, before, all, q)
  {
    ItemsGoOn(s, p, before, a, v, e, c);
  }

  lemma {:induction false} ItemsComplete(s: Bytes, p: nat, q: nat, before: seq<JsonValue>, items: seq<JsonValue>)
    requires |items| > 0 && ItemsSpan(s, p, q, items) && At(s, q, CLOSE_BRACKET)
    ensures ReadsItems(s, p, before, before + items, q)
    decreases q - p, 2
  {
    var a, e, c := ItemsSplit(s, p, q, items);
    ValueComplete(s, a, e, items[0]);
    if |items| == 1 {
      assert before + [items[0]] == before + items;
      LastItemRead(s, p, before, a, items[0], e, q);
    } else {
      ItemsComplete(s, c + 1, q, before + [items[0]], items[1..]);
      assert before + [items[0]] + items[1..] == before + items;
      NextItemRead(s, p, before, a, items[0], e, c, before + items, q);
    }
  }

  lemma {:induction false} ObjectComplete(s: Bytes, p: nat, q: nat, v: JsonValue)
    requires ValueSpans(s, p, q, v) && v.Object?
    ensures ValueFrom(s, p) == Some((v, q))
    decreases q - p, 0
  {
    if v.members == map[] {
      SkipIsBlanks(s, p + 1, q - 1);
    } else {
      var keys :| Lists(keys, v.members) && MembersSpan(s, p + 1, q - 1, keys, v.members);
      var start := MembersStart(s, p + 1, q - 1, keys, v.members);
      MembersComplete(s, start, q - 1, map[], keys, v.members);
    }
  }

  /** The blanks before the first key. */
  lemma MembersStart(s: Bytes, p: nat, q: nat, keys: seq<Bytes>, members: map<Bytes, JsonValue>) returns (start: nat)
    requires |keys| > 0 && (forall k <- keys :: k in members) && MembersSpan(s, p, q, keys, members)
    ensures p <= start <= |s| && Skip(s, p) == start && !At(s, start, CLOSE_BRACE)
    ensures MembersSpan(s, start, q, keys, members)
  {
    var e: nat :|
      e <= q && MemberSpans(s, p, q, e, keys[0], members[keys[0]]) && MembersAfter(s, p, q, e, keys, members);
    start := MemberStart(s, p, q, e, keys[0], members[keys[0]]);
    if |keys| > 1 {
      var c: nat :| p <= c < q && Blanks(s, e, c) && At(s, c, COMMA) && MembersSpan(s, c + 1, q, keys[1..], members);
      assert start <= c;
    }
    assert MembersAfter(s, start, q, e, keys, members);
  }

  lemma MemberStart(s: Bytes, p: nat, q: nat, e: nat, key: Bytes, v: JsonValue) returns (start: nat)
    requires e <= q && MemberSpans(s, p, q, e, key, v)
    ensures p <= start < e <= |s| && Skip(s, p) == start && At(s, start, QUOTE)
    ensures MemberSpans(s, start, q, e, key, v)
  {
    var a: nat, b: nat, c: nat, d: nat :| MemberPlaces(s, p, q, e, key, v, a, b, c, d);
    SkipIsBlanks(s, p, a);
    assert MemberPlaces(s, a, q, e, key, v, a, b, c, d);
    start := a;
  }

  lemma PlacesSkipped(s: Bytes, p: nat, q: nat, e: nat, key: Bytes, v: JsonValue, a: nat, b: nat, c: nat, d: nat)
    requires e <= q && MemberPlaces(s, p, q, e, key, v, a, b, c, d)
    ensures e <= |s| && Skip(s, p) == a && Skip(s, b) == c && Skip(s, c + 1) == d
  {
    SkipIsBlanks(s, p, a);
    SkipIsBlanks(s, b, c);
    ValueStarts(s, d, e, v);
    SkipIsBlanks(s, c + 1, d);
  }

  lemma MemberRead(s: Bytes, p: nat, a: nat, b: nat, c: nat, d: nat, e: nat, key: Bytes, v: JsonValue)
    requires p <= |s| && Skip(s, p) == a && At(s, a, QUOTE) && StringBody(s, a + 1) == Some((key, b))
    requires Skip(s, b) == c && At(s, c, COLON) && Skip(s, c + 1) == d && ValueFrom(s, d) == Some((v, e))
    ensures Member(s, p) == Some((key, v, e))
  {
  }

  lemma {:induction false} MemberComplete(s: Bytes, p: nat, q: nat, e: nat, key: Bytes, v: JsonValue)
    requires e <= q && MemberSpans(s, p, q, e, key, v) && Delimited(s, e)
    ensures p <= |s| && Member(s, p) == Some((key, v, e))
    decreases q - p, 2
  {
    var a: nat, b: nat, c: nat, d: nat :| MemberPlaces(s, p, q, e, key, v, a, b, c, d);
    PlacesSkipped(s, p, q, e, key, v, a, b, c, d);
    TextComplete(s, a + 1, b, key);
    ValueComplete(s, d, e, v);
    MemberRead(s, p, a, b, c, d, e, key, v);
  }

  lemma LastMemberRead(s: Bytes, p: nat, before: map<Bytes, JsonValue>, key: Bytes, v: JsonValue, e: nat, c: nat)
    requires p <= |s| && Member(s, p) == Some((key, v, e)) && key !in before && Skip(s, e) == c && At(s, c, CLOSE_BRACE)
    ensures ReadsMembers(s, p, before, before[key := v], c)
  {
    assert Members(s, p, before) == Some((Object(before[key := v]), c + 1));
  }

  lemma NextMemberRead(s: Bytes, p: nat, before: map<Bytes, JsonValue>, key: Bytes, v: JsonValue, e: nat, c: nat,
                       members: map<Bytes, JsonValue>, q: nat)
    requires p <= |s| && Member(s, p) == Some((key, v, e)) && key !in before && Skip(s, e) == c && At(s, c, COMMA)
    requires ReadsMembers(s, c + 1, before[key := v], members, q)
    ensures ReadsMembers(s, p, before, members, q)
  {
    assert Members(s, p, before) == Members(s, c + 1, before[key := v]);
  }

  lemma AddedFirst(before: map<Bytes, JsonValue>, keys: seq<Bytes>, members: map<Bytes, JsonValue>)
    requires |keys| > 0 && Added(before, keys, members)
    ensures keys[0] in members && keys[0] !in before
    ensures Added(before[keys[0] := members[keys[0]]], keys[1..], members)
    ensures |keys| == 1 ==> members == before[keys[0] := members[keys[0]]]
  {
    var rest := keys[1..];
    assert keys == [keys[0]] + rest;
    forall k <- rest ensures k in members && k !in before[keys[0] := members[keys[0]]] {
      var i :| 0 <= i < |rest| && rest[i] == k;
      assert keys[i + 1] == k;
    }
    forall k <- members ensures k in rest || k in before[keys[0] := members[keys[0]]] {
      if k in keys && k != keys[0] { assert k in rest; }
    }
  }

  /** Where the first member ends, and what follows it. */
  lemma MembersSplit(s: Bytes, p: nat, q: nat, keys: seq<Bytes>, members: map<Bytes, JsonValue>)
    returns (e: nat, c: nat)
    requires |keys| > 0 && (forall k <- keys :: k in members) && MembersSpan(s, p, q, keys, members)
    requires At(s, q, CLOSE_BRACE)
    ensures e <= c <= q && MemberSpans(s, p, q, e, keys[0], members[keys[0]]) && Delimited(s, e) && Skip(s, e) == c
    ensures if |keys| == 1 then c == q
      else At(s, c, COMMA) && p <= c < q && MembersSpan(s, c + 1, q, keys[1..], members)
  {
    e :| e <= q && MemberSpans(s, p, q, e, keys[0], members[keys[0]]) && MembersAfter(s, p, q, e, keys, members);
    c := q;
    if |keys| > 1 {
      c :| p <= c < q && Blanks(s, e, c) && At(s, c, COMMA) && MembersSpan(s, c + 1, q, keys[1..], members);
    }
    BlanksDelimit(s, e, c);
  }

  lemma {:induction false} MembersComplete(s: Bytes, p: nat, q: nat, before: map<Bytes, JsonValue>, keys: seq<Bytes>,
                                           members: map<Bytes, JsonValue>)
    requires |keys| > 0 && Added(before, keys, members) && MembersSpan(s, p, q, keys, members) && At(s, q, CLOSE_BRACE)
    ensures ReadsMembers(s, p, before, members, q)
    decreases q - p, 4
  {
    AddedFirst(before, keys, members);
    var e, c := MembersSplit(s, p, q, keys, members);
    MemberComplete(s, p, q, e, keys[0], members[keys[0]]);
    MembersGoOn(s, p, q, before, keys, members, e, c);
  }

  lemma {:induction false} MembersGoOn(s: Bytes, p: nat, q: nat, before: map<Bytes, JsonValue>, keys: seq<Bytes>,
                                       members: map<Bytes, JsonValue>, e: nat, c: nat)
    requires |keys| > 0 && At(s, q, CLOSE_BRACE) && keys[0] in members && keys[0] !in before
    requires Added(before[keys[0] := members[keys[0]]], keys[1..], members)
    requires |keys| == 1 ==> members == before[keys[0] := members[keys[0]]]
    requires p <= |s| && Member(s, p) == Some((keys[0], members[keys[0]], e)) && Skip(s, e) == c
    requires if |keys| == 1 then c == q
      else At(s, c, COMMA) && p <= c < q && MembersSpan(s, c + 1, q, keys[1..], members)
    ensures ReadsMembers(s, p, before, members, q)
    decreases q - p, 3
  {
    var key, v := keys[0], members[keys[0]];
    if |keys| == 1 {
      LastMemberRead(s, p, before, key, v, e, q);
    } else {
      MembersComplete(s, c + 1, q, before[key := v], keys[1..], members);
      NextMemberRead(s, p, before, key, v, e, c, members, q);
    }
  }

  // ----- The theorem -----

  /** The text is the value, with blanks around it. */
  ghost predicate Denotes(s: Bytes, v: JsonValue) {
    exists p: nat, q: nat :: p < q && Blanks(s, 0, p) && ValueSpans(s, p, q, v) && Blanks(s, q, |s|)
  }

  /** The parser decides the grammar: a text is parsed to a value exactly when the grammar makes it
      that value, with every key of an object given once. */
  lemma ParserIsExact(s: Bytes, v: JsonValue)
    ensures Parse(s) == Some(v) <==> Denotes(s, v)
  {
    if Parse(s) == Some(v) {
      var p := Skip(s, 0);
      var q := ValueFrom(s, p).value.1;
      ValueSound(s, p);
      SkipIsBlanks(s, 0, p);
      SkipIsBlanks(s, q, |s|);
    }
    if p: nat, q: nat :| p < q && Blanks(s, 0, p) && ValueSpans(s, p, q, v) && Blanks(s, q, |s|) {
      ValueStarts(s, p, q, v);
      SkipIsBlanks(s, 0, p);
      BlanksDelimit(s, q, |s|);
      ValueComplete(s, p, q, v);
    }
  }
}
