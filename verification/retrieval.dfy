/** Retrieval of examples: ranking, and greedy selection within a budget. */
module Retrieval {
  import opened Domain
  import opened Utf8

  datatype Example = Example(id: string, request: Bytes, program: Bytes)

  datatype Settings = Settings(topK: nat, budget: nat, countTokens: bool)

  function ContextBytes(e: Example): nat {
    |e.request| + |e.program|
  }

  /** Four bytes a token, rounded up. */
  function EstimatedTokens(bytes: nat): nat {
    (bytes + 3) / 4
  }

  function Cost(settings: Settings, e: Example): nat {
    if settings.countTokens then EstimatedTokens(ContextBytes(e)) else ContextBytes(e)
  }

  /** A corpus with the score of each example for the instruction at hand, and the relation of near
      duplicates; both are arbitrary here. */
  datatype Corpus = Corpus(examples: seq<Example>, scores: seq<real>, nearDuplicate: (Example, Example) -> bool)

  predicate Scored(c: Corpus) {
    |c.scores| == |c.examples|
  }

  // ----- Ranking -----

  /** Higher scores first, and the order of the manifest between equal scores. */
  predicate Before(scores: seq<real>, i: nat, j: nat)
    requires i < |scores| && j < |scores|
  {
    scores[i] > scores[j] || (scores[i] == scores[j] && i < j)
  }

  predicate Indexes(scores: seq<real>, order: seq<nat>) {
    forall a :: 0 <= a < |order| ==> order[a] < |scores|
  }

  function InsertRanked(scores: seq<real>, i: nat, order: seq<nat>): (r: seq<nat>)
    requires i < |scores| && Indexes(scores, order)
    ensures Indexes(scores, r) && |r| == |order| + 1
  {
    if |order| == 0 then [i]
    else if Before(scores, order[0], i) then [order[0]] + InsertRanked(scores, i, order[1..])
    else [i] + order
  }

  /** The first n examples in rank order, as a stable sort leaves them. */
  function Rank(scores: seq<real>, n: nat): (order: seq<nat>)
    requires n <= |scores|
    ensures Indexes(scores, order) && |order| == n
  {
    if n == 0 then [] else InsertRanked(scores, n - 1, Rank(scores, n - 1))
  }

  predicate Ordered(scores: seq<real>, order: seq<nat>)
    requires Indexes(scores, order)
  {
    forall a, b :: 0 <= a < b < |order| ==> Before(scores, order[a], order[b])
  }

  lemma {:induction false} InsertKeepsOrder(scores: seq<real>, i: nat, order: seq<nat>)
    requires i < |scores| && Indexes(scores, order) && Ordered(scores, order) && i !in order
    ensures Ordered(scores, InsertRanked(scores, i, order))
    ensures forall x :: x in InsertRanked(scores, i, order) <==> x == i || x in order
  {
    if |order| > 0 {
      assert order == [order[0]] + order[1..];
      if Before(scores, order[0], i) {
        InsertKeepsOrder(scores, i, order[1..]);
        var rest := InsertRanked(scores, i, order[1..]);
        forall b | 0 <= b < |rest| ensures Before(scores, order[0], rest[b]) {
          assert rest[b] in rest;
          if rest[b] != i {
            var k :| 0 <= k < |order[1..]| && order[1..][k] == rest[b];
            assert order[k + 1] == rest[b];
          }
        }
      } else {
        assert order[0] in order;
        forall b | 0 <= b < |order| ensures Before(scores, i, order[b]) {
          if b > 0 { assert Before(scores, order[0], order[b]); }
        }
      }
    }
  }

  /** The ranking lists every example once, in order. */
  lemma {:induction false} RankIsOrdered(scores: seq<real>, n: nat)
    requires n <= |scores|
    ensures Ordered(scores, Rank(scores, n))
    ensures forall a, b :: 0 <= a < b < n ==>
      && scores[Rank(scores, n)[a]] >= scores[Rank(scores, n)[b]]
      && (scores[Rank(scores, n)[a]] == scores[Rank(scores, n)[b]] ==> Rank(scores, n)[a] < Rank(scores, n)[b])
    ensures forall x :: x in Rank(scores, n) <==> 0 <= x < n
  {
    if n > 0 {
      RankIsOrdered(scores, n - 1);
      InsertKeepsOrder(scores, n - 1, Rank(scores, n - 1));
    }
  }

  // ----- Greedy selection -----

  /** What was selected and its cost, and what was passed over: near duplicates of a selected
      example, and examples beyond the budget. */
  datatype Selection = Selection(selected: seq<nat>, used: nat, suppressed: seq<nat>, rejected: seq<nat>)

  predicate Duplicates(c: Corpus, selected: seq<nat>, x: nat)
    requires x < |c.examples|
  {
    exists s <- selected :: s < |c.examples| && c.nearDuplicate(c.examples[s], c.examples[x])
  }

  /** What is left of the budget. */
  function Remaining(settings: Settings, used: nat): nat {
    settings.budget - (if used < settings.budget then used else settings.budget)
  }

  function Consider(c: Corpus, settings: Settings, s: Selection, x: nat): Selection
    requires Scored(c) && x < |c.examples|
  {
    if |s.selected| >= settings.topK || c.scores[x] <= 0.0 then s
    else if Duplicates(c, s.selected, x) then s.(suppressed := s.suppressed + [x])
    else if Cost(settings, c.examples[x]) > Remaining(settings, s.used) then s.(rejected := s.rejected + [x])
    else s.(selected := s.selected + [x], used := s.used + Cost(settings, c.examples[x]))
  }

  /** The selection after the first n candidates of an order. */
  function Select(c: Corpus, settings: Settings, order: seq<nat>, n: nat): Selection
    requires Scored(c) && Indexes(c.scores, order) && n <= |order|
  {
    if n == 0 then Selection([], 0, [], []) else Consider(c, settings, Select(c, settings, order, n - 1), order[n - 1])
  }

  datatype Diagnostic =
    | NoDiagnostic | EmptyInstruction | InvalidTopK | EmptyCorpus | NoStructuralEvidence | NoMatchingExample

  /** Ranks the corpus and selects greedily, best candidate first. */
  method Retrieve(c: Corpus, settings: Settings, blank: bool, evidence: bool)
    returns (diagnostic: Diagnostic, s: Selection)
    requires Scored(c)
    ensures s == if diagnostic !in {NoDiagnostic, NoMatchingExample} then Selection([], 0, [], [])
      else Select(c, settings, Rank(c.scores, |c.scores|), |c.scores|)
    ensures diagnostic == EmptyInstruction <==> blank
    ensures diagnostic == InvalidTopK <==> !blank && !(1 <= settings.topK <= 3)
    ensures diagnostic == EmptyCorpus <==> !blank && 1 <= settings.topK <= 3 && c.examples == []
    ensures diagnostic == NoStructuralEvidence <==>
      !blank && 1 <= settings.topK <= 3 && c.examples != [] && !evidence
    ensures !blank && 1 <= settings.topK <= 3 && c.examples != [] && evidence ==>
      diagnostic == if s.selected == [] then NoMatchingExample else NoDiagnostic
  {
    s := Selection([], 0, [], []);
    if blank { return EmptyInstruction, s; }
    if settings.topK < 1 || settings.topK > 3 { return InvalidTopK, s; }
    if c.examples == [] { return EmptyCorpus, s; }
    if !evidence { return NoStructuralEvidence, s; }
    var selected: seq<nat>, used: nat, suppressed: seq<nat>, rejected: seq<nat> := [], 0, [], [];
    var ranked := Rank(c.scores, |c.scores|);
    var i := 0;
    while i < |ranked| && |selected| < settings.topK
      invariant i <= |ranked| && Selection(selected, used, suppressed, rejected) == Select(c, settings, ranked, i)
    {
      var x := ranked[i];
      i := i + 1;
      if c.scores[x] <= 0.0 { continue; }
      var duplicate := false;
      for k := 0 to |selected|
        invariant duplicate == Duplicates(c, selected[..k], x)
      {
        assert selected[..k + 1] == selected[..k] + [selected[k]];
        if selected[k] < |c.examples| && c.nearDuplicate(c.examples[selected[k]], c.examples[x]) { duplicate := true; }
      }
      assert selected[..|selected|] == selected;
      if duplicate {
        suppressed := suppressed + [x];
        continue;
      }
      var cost := Cost(settings, c.examples[x]);
      if cost > Remaining(settings, used) {
        rejected := rejected + [x];
        continue;
      }
      used := used + cost;
      selected := selected + [x];
    }
    FullStaysFull(c, settings, ranked, i, |ranked|);
    s := Selection(selected, used, suppressed, rejected);
    diagnostic := if selected == [] then NoMatchingExample else NoDiagnostic;
  }

  /** A full selection considers nothing more. */
  lemma {:induction false} FullStaysFull(c: Corpus, settings: Settings, order: seq<nat>, m: nat, n: nat)
    requires Scored(c) && Indexes(c.scores, order) && m <= n <= |order|
    requires m < n ==> |Select(c, settings, order, m).selected| >= settings.topK
    ensures Select(c, settings, order, n) == Select(c, settings, order, m)
    decreases n
  {
    if m < n { FullStaysFull(c, settings, order, m, n - 1); }
  }

  // ----- What the selection guarantees -----

  function TotalCost(c: Corpus, settings: Settings, selected: seq<nat>): nat
    requires Indexes(c.scores, selected) && Scored(c)
  {
    if |selected| == 0 then 0
    else TotalCost(c, settings, selected[..|selected| - 1]) + Cost(settings, c.examples[selected[|selected| - 1]])
  }

  /** No example was selected after one it nearly duplicates. */
  predicate NoDuplicates(c: Corpus, selected: seq<nat>)
    requires Indexes(c.scores, selected) && Scored(c)
  {
    forall a, b :: 0 <= a < b < |selected| ==> !c.nearDuplicate(c.examples[selected[a]], c.examples[selected[b]])
  }

  /** Bounded, within budget, free of near duplicates, of positive score, and in rank order. */
  predicate Sound(c: Corpus, settings: Settings, s: Selection) {
    && Scored(c) && Indexes(c.scores, s.selected)
    && |s.selected| <= settings.topK
    && s.used == TotalCost(c, settings, s.selected) <= settings.budget
    && NoDuplicates(c, s.selected)
    && (forall a :: 0 <= a < |s.selected| ==> c.scores[s.selected[a]] > 0.0)
    && Ordered(c.scores, s.selected)
  }

  predicate Listed(s: Selection, x: nat) {
    x in s.selected || x in s.suppressed || x in s.rejected
  }

  /** A candidate is in one list at most; a suppressed one nearly duplicates a selected one, and a
      rejected one does not fit what is left of the budget. */
  predicate Explained(c: Corpus, settings: Settings, s: Selection, x: nat)
    requires Scored(c) && x < |c.examples|
  {
    && !(x in s.selected && x in s.suppressed) && !(x in s.selected && x in s.rejected)
    && !(x in s.suppressed && x in s.rejected)
    && (x in s.suppressed ==> Duplicates(c, s.selected, x))
    && (x in s.rejected ==> Cost(settings, c.examples[x]) > Remaining(settings, s.used))
  }

  lemma ConsiderIsSound(c: Corpus, settings: Settings, s: Selection, x: nat)
    requires Sound(c, settings, s) && x < |c.examples|
    requires forall a :: 0 <= a < |s.selected| ==> Before(c.scores, s.selected[a], x)
    ensures Sound(c, settings, Consider(c, settings, s, x))
  {
    var t := Consider(c, settings, s, x);
    if t.selected != s.selected {
      assert t.selected[..|s.selected|] == s.selected;
      forall a | 0 <= a < |s.selected| ensures !c.nearDuplicate(c.examples[s.selected[a]], c.examples[x]) {
        assert s.selected[a] in s.selected;
      }
    }
  }

  /** Considering another candidate keeps the explanations, and gives the new one its own. */
  lemma ConsiderExplains(c: Corpus, settings: Settings, s: Selection, x: nat, y: nat)
    requires Scored(c) && x < |c.examples| && y < |c.examples| && Explained(c, settings, s, y)
    requires x == y ==> !Listed(s, x)
    ensures Explained(c, settings, Consider(c, settings, s, x), y)
    ensures x != y ==> (Listed(Consider(c, settings, s, x), y) <==> Listed(s, y))
    ensures x == y && |s.selected| < settings.topK ==>
      (Listed(Consider(c, settings, s, x), y) <==> c.scores[x] > 0.0)
  {
    var t := Consider(c, settings, s, x);
    if Duplicates(c, s.selected, y) {
      var d :| d in s.selected && d < |c.examples| && c.nearDuplicate(c.examples[d], c.examples[y]);
      assert d in t.selected;
    }
  }

  lemma {:induction false} SelectedFrom(c: Corpus, settings: Settings, order: seq<nat>, n: nat, a: nat) returns (k: nat)
    requires Scored(c) && Indexes(c.scores, order) && n <= |order| && a < |Select(c, settings, order, n).selected|
    ensures k < n && order[k] == Select(c, settings, order, n).selected[a]
  {
    if a < |Select(c, settings, order, n - 1).selected| {
      k := SelectedFrom(c, settings, order, n - 1, a);
    } else {
      k := n - 1;
    }
  }

  lemma {:induction false} SelectIsSound(c: Corpus, settings: Settings, order: seq<nat>, n: nat)
    requires Scored(c) && Indexes(c.scores, order) && Ordered(c.scores, order) && n <= |order|
    ensures Sound(c, settings, Select(c, settings, order, n))
  {
    if n > 0 {
      SelectIsSound(c, settings, order, n - 1);
      var s, x := Select(c, settings, order, n - 1), order[n - 1];
      forall a | 0 <= a < |s.selected| ensures Before(c.scores, s.selected[a], x) {
        var k := SelectedFrom(c, settings, order, n - 1, a);
      }
      ConsiderIsSound(c, settings, s, x);
    }
  }

  /** What is listed was considered, and has a positive score. */
  lemma {:induction false} ListedFrom(c: Corpus, settings: Settings, order: seq<nat>, n: nat, x: nat)
    requires Scored(c) && Indexes(c.scores, order) && n <= |order| && Listed(Select(c, settings, order, n), x)
    ensures x in order[..n] && x < |c.scores| && c.scores[x] > 0.0
  {
    assert order[..n] == order[..n - 1] + [order[n - 1]];
    if Listed(Select(c, settings, order, n - 1), x) { ListedFrom(c, settings, order, n - 1, x); }
  }

  lemma {:induction false} SelectExplains(c: Corpus, settings: Settings, order: seq<nat>, n: nat, x: nat)
    requires Scored(c) && Indexes(c.scores, order) && Ordered(c.scores, order) && n <= |order| && x < |c.examples|
    ensures Explained(c, settings, Select(c, settings, order, n), x)
    ensures |Select(c, settings, order, n).selected| < settings.topK ==>
      (Listed(Select(c, settings, order, n), x) <==> x in order[..n] && c.scores[x] > 0.0)
  {
    if n > 0 {
      var s := Select(c, settings, order, n - 1);
      SelectExplains(c, settings, order, n - 1, x);
      assert order[..n] == order[..n - 1] + [order[n - 1]];
      if order[n - 1] == x && Listed(s, x) {
        ListedFrom(c, settings, order, n - 1, x);
        assert false;
      }
      ConsiderExplains(c, settings, s, order[n - 1], x);
    }
  }

  /** Greedy retrieval: the selection is sound; nothing is listed twice over; what is suppressed
      nearly duplicates a selected example, and what is rejected cannot fit what is left of the
      budget at the end. When the selection is not full, exactly the candidates of positive score
      are listed, so that each one left out has its reason. */
  lemma GreedyIsMaximal(c: Corpus, settings: Settings)
    requires Scored(c)
    ensures var s := Select(c, settings, Rank(c.scores, |c.scores|), |c.scores|);
      && Sound(c, settings, s)
      && (forall x :: 0 <= x < |c.examples| ==> Explained(c, settings, s, x))
      && (|s.selected| < settings.topK ==>
            forall x :: 0 <= x < |c.examples| ==> (Listed(s, x) <==> c.scores[x] > 0.0))
  {
    var order := Rank(c.scores, |c.scores|);
    RankIsOrdered(c.scores, |c.scores|);
    SelectIsSound(c, settings, order, |order|);
    forall x | 0 <= x < |c.examples|
      ensures Explained(c, settings, Select(c, settings, order, |order|), x)
      ensures |Select(c, settings, order, |order|).selected| < settings.topK ==>
        (Listed(Select(c, settings, order, |order|), x) <==> c.scores[x] > 0.0)
    {
      assert x in order && order[..|order|] == order;
      SelectExplains(c, settings, order, |order|, x);
    }
  }

  // ----- The budget in bytes -----

  /** The bytes of the requests and programs that go into the prompt. */
  function PromptBytes(c: Corpus, selected: seq<nat>): nat
    requires Scored(c) && Indexes(c.scores, selected)
  {
    if |selected| == 0 then 0
    else
      var last := c.examples[selected[|selected| - 1]];
      PromptBytes(c, selected[..|selected| - 1]) + |last.request| + |last.program|
  }

  lemma {:induction false} CostInBytes(c: Corpus, settings: Settings, selected: seq<nat>)
    requires Scored(c) && Indexes(c.scores, selected)
    ensures !settings.countTokens ==> TotalCost(c, settings, selected) == PromptBytes(c, selected)
    ensures settings.countTokens ==>
      PromptBytes(c, selected) <= 4 * TotalCost(c, settings, selected) <= PromptBytes(c, selected) + 3 * |selected|
  {
    if |selected| > 0 { CostInBytes(c, settings, selected[..|selected| - 1]); }
  }

  /** The selected requests and programs fit the budget, counted in bytes or in tokens of four bytes.
      A rejected example would not have fitted beside them; in tokens, each selected example may
      leave up to three bytes of its last token unused. */
  lemma PromptFitsBudget(c: Corpus, settings: Settings)
    requires Scored(c)
    ensures var s := Select(c, settings, Rank(c.scores, |c.scores|), |c.scores|);
      && Indexes(c.scores, s.selected)
      && PromptBytes(c, s.selected) <= (if settings.countTokens then 4 * settings.budget else settings.budget)
      && forall x :: x in s.rejected && x < |c.examples| ==>
           PromptBytes(c, s.selected) + |c.examples[x].request| + |c.examples[x].program|
           > if settings.countTokens then 4 * settings.budget - 3 * |s.selected| else settings.budget
  {
    GreedyIsMaximal(c, settings);
    var s := Select(c, settings, Rank(c.scores, |c.scores|), |c.scores|);
    CostInBytes(c, settings, s.selected);
    forall x | x in s.rejected && x < |c.examples|
      ensures PromptBytes(c, s.selected) + |c.examples[x].request| + |c.examples[x].program|
              > if settings.countTokens then 4 * settings.budget - 3 * |s.selected| else settings.budget
    {
      assert Explained(c, settings, s, x);
    }
  }
}
