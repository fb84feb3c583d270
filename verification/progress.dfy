/** When two candidates of an authoring session fail alike. */
module Progress {
  import opened Domain
  import opened Sorting
  import opened NormalForms
  import opened Agent

  predicate OneLine(s: string) {
    '\n' !in s
  }

  /** Texts around a line break are equal exactly when their parts are. */
  lemma LinesSplit(a: string, s: string, b: string, t: string)
    requires OneLine(a) && OneLine(b)
    ensures a + "\n" + s == b + "\n" + t <==> a == b && s == t
  {
    assert a + "\n" + s == a + ("\n" + s) && b + "\n" + t == b + ("\n" + t);
    if a + "\n" + s == b + "\n" + t { Split(a, b, "\n", s, t); }
  }

  lemma ThreeLines(a: string, b: string, c: string)
    ensures a + "\n" + b + "\n" + c == a + "\n" + (b + "\n" + c)
  {
    assert a + "\n" + b + "\n" + c == a + "\n" + b + ("\n" + c);
    assert a + "\n" + b + ("\n" + c) == a + "\n" + (b + ("\n" + c));
    assert b + ("\n" + c) == b + "\n" + c;
  }

  lemma FourLines(a: string, b: string, c: string, d: string)
    ensures a + "\n" + b + "\n" + c + "\n" + d == a + "\n" + (b + "\n" + (c + "\n" + d))
  {
    ThreeLines(a + "\n" + b, c, d);
    ThreeLines(a, b, c + "\n" + d);
  }

  // ----- Diagnostics -----

  predicate PlainDiagnostics(list: seq<Diagnostic>) {
    forall i :: 0 <= i < |list| ==> OneLine(list[i].code) && OneLine(list[i].message)
  }

  function DiagnosticText(d: Diagnostic): string {
    d.code + "\n" + d.message + "\n" + d.span
  }

  lemma {:induction false} DiagnosticTextsAre(list: seq<Diagnostic>)
    ensures |DiagnosticTexts(list)| == |list|
    ensures forall i :: 0 <= i < |list| ==> DiagnosticTexts(list)[i] == DiagnosticText(list[i])
  {
    if |list| > 0 { DiagnosticTextsAre(list[..|list| - 1]); }
  }

  lemma DiagnosticTextDecides(d: Diagnostic, e: Diagnostic)
    requires OneLine(d.code) && OneLine(d.message) && OneLine(e.code) && OneLine(e.message)
    ensures DiagnosticText(d) == DiagnosticText(e) <==> d == e
  {
    ThreeLines(d.code, d.message, d.span);
    ThreeLines(e.code, e.message, e.span);
    LinesSplit(d.code, d.message + "\n" + d.span, e.code, e.message + "\n" + e.span);
    LinesSplit(d.message, d.span, e.message, e.span);
  }

  lemma DiagnosticsDecided(u: Validation, v: Validation)
    requires PlainDiagnostics(u.diagnostics) && PlainDiagnostics(v.diagnostics)
    ensures DiagnosticSet(u) == DiagnosticSet(v) <==> multiset(u.diagnostics) == multiset(v.diagnostics)
  {
    var a, b := DiagnosticTexts(u.diagnostics), DiagnosticTexts(v.diagnostics);
    DiagnosticTextsAre(u.diagnostics);
    DiagnosticTextsAre(v.diagnostics);
    SortDecides(a, b);
    forall i, j | 0 <= i < |a| && 0 <= j < |b| ensures a[i] == b[j] <==> u.diagnostics[i] == v.diagnostics[j] {
      DiagnosticTextDecides(u.diagnostics[i], v.diagnostics[j]);
    }
    MultisetsCorrespond(a, u.diagnostics, b, v.diagnostics);
  }

  // ----- Violations -----

  /** What a violation is known by. */
  datatype Violation = Violation(requirement: string, code: string, expected: string, actual: string)

  /** The violations of high confidence. */
  function Violations(outcomes: seq<Outcome>): seq<Violation> {
    if |outcomes| == 0 then []
    else
      var o, before := outcomes[|outcomes| - 1], Violations(outcomes[..|outcomes| - 1]);
      if o.status == Violated && o.confidence == High
      then before + [Violation(o.requirement, o.code, o.expected, o.actual)] else before
  }

  predicate PlainViolations(list: seq<Violation>) {
    forall i :: 0 <= i < |list| ==> OneLine(list[i].requirement) && OneLine(list[i].code) && OneLine(list[i].expected)
  }

  function ViolationText(v: Violation): string {
    v.requirement + "\n" + v.code + "\n" + v.expected + "\n" + v.actual
  }

  lemma {:induction false} ViolationTextsAre(outcomes: seq<Outcome>)
    ensures |ViolationTexts(outcomes)| == |Violations(outcomes)|
    ensures forall i :: 0 <= i < |Violations(outcomes)| ==>
      ViolationTexts(outcomes)[i] == ViolationText(Violations(outcomes)[i])
  {
    if |outcomes| > 0 { ViolationTextsAre(outcomes[..|outcomes| - 1]); }
  }

  lemma ViolationTextDecides(v: Violation, w: Violation)
    requires OneLine(v.requirement) && OneLine(v.code) && OneLine(v.expected)
    requires OneLine(w.requirement) && OneLine(w.code) && OneLine(w.expected)
    ensures ViolationText(v) == ViolationText(w) <==> v == w
  {
    FourLines(v.requirement, v.code, v.expected, v.actual);
    FourLines(w.requirement, w.code, w.expected, w.actual);
    LinesSplit(v.requirement, v.code + "\n" + (v.expected + "\n" + v.actual),
               w.requirement, w.code + "\n" + (w.expected + "\n" + w.actual));
    LinesSplit(v.code, v.expected + "\n" + v.actual, w.code, w.expected + "\n" + w.actual);
    LinesSplit(v.expected, v.actual, w.expected, w.actual);
  }

  lemma ViolationsDecided(x: seq<Outcome>, y: seq<Outcome>)
    requires PlainViolations(Violations(x)) && PlainViolations(Violations(y))
    ensures ViolationSet(x) == ViolationSet(y) <==> multiset(Violations(x)) == multiset(Violations(y))
  {
    var a, b := ViolationTexts(x), ViolationTexts(y);
    ViolationTextsAre(x);
    ViolationTextsAre(y);
    SortDecides(a, b);
    forall i, j | 0 <= i < |a| && 0 <= j < |b| ensures a[i] == b[j] <==> Violations(x)[i] == Violations(y)[j] {
      ViolationTextDecides(Violations(x)[i], Violations(y)[j]);
    }
    MultisetsCorrespond(a, Violations(x), b, Violations(y));
  }

  // ----- Failing alike -----

  /** The compiler refuses both with the same diagnostics, or both compile with the same violations of
      high confidence, counted with their repetitions. */
  predicate SameFailures(w: Surroundings, previous: string, script: string) {
    var u, v := w.validate(previous), w.validate(script);
    && u.Some? && v.Some? && u.value.ok == v.value.ok
    && if v.value.ok then multiset(Violations(w.verify(previous))) == multiset(Violations(w.verify(script)))
       else multiset(u.value.diagnostics) == multiset(v.value.diagnostics)
  }

  predicate PlainFailures(w: Surroundings, script: string) {
    && (w.validate(script).Some? ==> PlainDiagnostics(w.validate(script).value.diagnostics))
    && PlainViolations(Violations(w.verify(script)))
  }

  /** What a session takes for a lack of progress: where no code, message or expectation contains a
      line break, the texts it compares are equal exactly when the failures are. */
  lemma FailingAlikeIsExact(w: Surroundings, previous: string, script: string)
    requires PlainFailures(w, previous) && PlainFailures(w, script)
    ensures FailsAlike(w, previous, script) <==> SameFailures(w, previous, script)
  {
    var u, v := w.validate(previous), w.validate(script);
    if u.Some? && v.Some? {
      DiagnosticsDecided(u.value, v.value);
      ViolationsDecided(w.verify(previous), w.verify(script));
    }
  }
}
