/** Which texts are proposals. */
module ProposalGrammar {
  import opened Domain
  import opened Utf8
  import opened Json
  import opened Proposals
  import opened JsonGrammar

  lemma FourInAll(m: map<Bytes, JsonValue>, a: Bytes, b: Bytes, c: Bytes, d: Bytes)
    requires |m| == 4 && a in m && b in m && c in m && d in m
    requires a != b && a != c && a != d && b != c && b != d && c != d
    ensures m.Keys == {a, b, c, d}
  {
    var four := {a, b, c, d};
    assert |four| == 4 && four <= m.Keys && |m.Keys| == 4;
    if x :| x in m.Keys && x !in four { assert |four + {x}| == 5 && four + {x} <= m.Keys; Subset(four + {x}, m.Keys); }
  }

  lemma {:induction false} Subset<T>(a: set<T>, b: set<T>)
    requires a <= b
    ensures |a| <= |b|
  {
    if a != {} {
      var x :| x in a;
      Subset(a - {x}, b - {x});
    }
  }

  lemma FourMembersAre(m: map<Bytes, JsonValue>, script: Bytes, explanation: Bytes, warnings: seq<Bytes>)
    requires |m| == 4
    requires Ascii("status") in m && m[Ascii("status")] == Str(Ascii("proposal"))
    requires Ascii("script") in m && m[Ascii("script")] == Str(script)
    requires Ascii("explanation") in m && m[Ascii("explanation")] == Str(explanation)
    requires Ascii("warnings") in m && m[Ascii("warnings")] == Array(Strs(warnings))
    ensures m == AllMembers(script, explanation, warnings)
  {
    KeysDistinct();
    FourInAll(m, Ascii("status"), Ascii("script"), Ascii("explanation"), Ascii("warnings"));
  }

  lemma ReadIsAll(v: JsonValue, script: Bytes, explanation: Bytes, warnings: seq<Bytes>)
    ensures ReadProposal(v) == Payload(script, explanation, warnings) <==>
      v == Object(AllMembers(script, explanation, warnings))
  {
    if ReadProposal(v) == Payload(script, explanation, warnings) {
      TextsAreOrdered(v.members[Ascii("warnings")].items);
      FourMembersAre(v.members, script, explanation, warnings);
    }
    if v == Object(AllMembers(script, explanation, warnings)) {
      FourKeys(script, explanation, warnings);
      KeysDistinct();
      StrsAreTexts(warnings);
    }
  }

  /** A response is a proposal exactly when the grammar makes it an object of the four members, with
      that script, that explanation and those warnings; it is malformed exactly when the grammar makes
      it no value. */
  lemma ProposalIsExact(response: Bytes, script: Bytes, explanation: Bytes, warnings: seq<Bytes>)
    ensures ParseProposal(response) == Payload(script, explanation, warnings) <==>
      Denotes(response, Object(AllMembers(script, explanation, warnings)))
    ensures ParseProposal(response) == MalformedJson <==> forall v :: !Denotes(response, v)
  {
    ParserIsExact(response, Object(AllMembers(script, explanation, warnings)));
    if Parse(response).Some? {
      ReadIsAll(Parse(response).value, script, explanation, warnings);
      ParserIsExact(response, Parse(response).value);
    }
    forall v ensures Denotes(response, v) ==> Parse(response) == Some(v) { ParserIsExact(response, v); }
  }
}
