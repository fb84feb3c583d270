/** The authoring session: a bounded loop of provider calls, compiler checks and corrections. */
module Agent {
  import opened Domain
  import opened Sorting

  // ----- The session's surroundings -----

  datatype Payload = Payload(script: string, explanation: string)

  /** What a provider call comes to; None stands for a response that is not a proposal. */
  datatype Reply = ProviderThrew | ProviderFailed(cancelled: bool) | Responded(payload: Option<Payload>)

  datatype Diagnostic = Diagnostic(code: string, message: string, span: string)

  /** An invalid result always carries a diagnostic. */
  datatype ValidationData = ValidationData(ok: bool, diagnostics: seq<Diagnostic>)
  type Validation = v: ValidationData | v.ok || v.diagnostics != [] witness ValidationData(true, [])

  datatype Confidence = High | Ambiguous

  datatype Outcome = Outcome(
    requirement: string, status: OutcomeStatus, code: string, expected: string, actual: string, confidence: Confidence)

  datatype Purpose = Generation | CompilerRepair | RequirementCorrection

  /** A request names its purpose and, for a correction, the candidate sent back. */
  datatype Request = Request(purpose: Purpose, candidate: Option<string>)

  datatype Support = Supported | PartiallySupported | NotSupported | Uncertain

  /** Arbitrary behaviour of everything around the session. The provider answers as a function of
      the authoring run and of all the requests made in it, cancellation as a function of how often
      it was asked. */
  datatype Surroundings = Surroundings(
    provider: (nat, seq<Request>) -> Reply,
    stopRequested: nat -> bool,
    validate: string -> Option<Validation>,
    verify: string -> seq<Outcome>)

  predicate HasText(s: string) {
    exists i :: 0 <= i < |s| && s[i] !in " \t\r\n"
  }

  function DiagnosticTexts(diagnostics: seq<Diagnostic>): seq<string> {
    if |diagnostics| == 0 then []
    else
      var d := diagnostics[|diagnostics| - 1];
      DiagnosticTexts(diagnostics[..|diagnostics| - 1]) + [d.code + "\n" + d.message + "\n" + d.span]
  }

  function DiagnosticSet(v: Validation): seq<string> {
    Sort(DiagnosticTexts(v.diagnostics))
  }

  predicate HighViolation(o: Outcome) {
    o.status == Violated && o.confidence == High
  }

  function ViolationTexts(outcomes: seq<Outcome>): seq<string> {
    if |outcomes| == 0 then []
    else
      var o, before := outcomes[|outcomes| - 1], ViolationTexts(outcomes[..|outcomes| - 1]);
      if HighViolation(o) then before + [o.requirement + "\n" + o.code + "\n" + o.expected + "\n" + o.actual]
        else before
  }

  function ViolationSet(outcomes: seq<Outcome>): seq<string> {
    Sort(ViolationTexts(outcomes))
  }

  /** The violation set is empty exactly when no outcome is a violation of high confidence. */
  lemma {:induction false} NoViolations(outcomes: seq<Outcome>)
    ensures ViolationSet(outcomes) == [] <==> forall o <- outcomes :: !HighViolation(o)
  {
    SortPermutes(ViolationTexts(outcomes));
    NoViolationTexts(outcomes);
  }

  lemma {:induction false} NoViolationTexts(outcomes: seq<Outcome>)
    ensures ViolationTexts(outcomes) == [] <==> forall o <- outcomes :: !HighViolation(o)
  {
    if |outcomes| > 0 {
      var n := |outcomes| - 1;
      NoViolationTexts(outcomes[..n]);
      assert outcomes == outcomes[..n] + [outcomes[n]];
    }
  }

  // ----- Prompts -----

  /** None where the builder throws: a repair needs text and an invalid result with diagnostics. */
  function BuildRepair(instruction: string, candidate: string, validation: Validation,
                       original: Option<string>): Option<Request> {
    if HasText(instruction) && HasText(candidate) && !validation.ok && validation.diagnostics != []
       && (original.Some? ==> HasText(original.value))
    then Some(Request(CompilerRepair, Some(candidate))) else None
  }

  /** None where the builder throws: a correction needs text and a violation of high confidence. */
  function BuildCorrection(instruction: string, candidate: string, outcomes: seq<Outcome>,
                           original: Option<string>): Option<Request> {
    if HasText(instruction) && HasText(candidate) && (original.Some? ==> HasText(original.value))
       && (exists o <- outcomes :: HighViolation(o))
    then Some(Request(RequirementCorrection, Some(candidate))) else None
  }

  // ----- The session -----

  datatype State = Idle | Generating | Validating | Repairing | CorrectingRequirements | UnsupportedState
                 | Completed | Failed | Cancelled

  datatype ErrorCode =
    | InvalidRequest | ProviderFailure | ValidationFailure | RepairLimitReached | NoProgress | CancelledError | Internal

  datatype Proposal = Proposal(script: string, validation: Validation, attempts: nat, verification: seq<Outcome>)

  datatype Result = Success(proposal: Proposal) | Failure(code: ErrorCode, last: Option<Proposal>) | Refused

  /** The terminal state that goes with a result. */
  function TerminalState(r: Result): State {
    match r
    case Success(_) => Completed
    case Failure(code, _) => if code == CancelledError then Cancelled else Failed
    case Refused => UnsupportedState
  }

  /** The candidates sent back for correction are pairwise distinct. */
  predicate DistinctCandidates(requests: seq<Request>) {
    forall i, j :: 0 <= i < j < |requests| && requests[i].candidate.Some? && requests[j].candidate.Some? ==>
      requests[i].candidate != requests[j].candidate
  }

  /** Two candidates fail alike: the compiler refuses both with the same set of diagnostics, or both
      compile with the same set of violations. */
  predicate FailsAlike(w: Surroundings, previous: string, script: string) {
    var u, v := w.validate(previous), w.validate(script);
    && u.Some? && v.Some? && u.value.ok == v.value.ok
    && if v.value.ok then ViolationSet(w.verify(previous)) == ViolationSet(w.verify(script))
       else DiagnosticSet(u.value) == DiagnosticSet(v.value)
  }

  /** A candidate given to the last of these requests makes no progress: it was sent back before,
      or fails like the candidate that was sent back last. */
  predicate Stagnates(w: Surroundings, requests: seq<Request>, script: string)
    requires requests != []
  {
    var previous := requests[|requests| - 1].candidate;
    || (exists i :: 0 <= i < |requests| && requests[i].candidate == Some(script))
    || (previous.Some? && FailsAlike(w, previous.value, script))
  }

  /** Each request after the first sends back the candidate the provider gave to the one before it:
      for repair when the compiler refused it, for correction when it compiled with a violation,
      and only if it made progress. */
  predicate SendsBack(w: Surroundings, run: nat, requests: seq<Request>, i: nat)
    requires 0 < i < |requests|
  {
    var reply := w.provider(run, requests[..i]);
    && reply.Responded? && reply.payload.Some? && requests[i].candidate == Some(reply.payload.value.script)
    && var v := w.validate(reply.payload.value.script);
       && v.Some?
       && requests[i].purpose == (if v.value.ok then RequirementCorrection else CompilerRepair)
       && (v.value.ok ==> exists o <- w.verify(reply.payload.value.script) :: HighViolation(o))
       && !Stagnates(w, requests[..i], reply.payload.value.script)
  }

  predicate WellFormedLog(w: Surroundings, run: nat, requests: seq<Request>) {
    && (requests != [] ==> requests[0] == Request(Generation, None))
    && (forall i :: 0 < i < |requests| ==> SendsBack(w, run, requests, i))
    && DistinctCandidates(requests)
  }

  /** A proposal is the provider's last candidate, with its own validation. */
  predicate LastCandidate(w: Surroundings, run: nat, requests: seq<Request>, p: Proposal) {
    && requests != [] && p.attempts == |requests|
    && var reply := w.provider(run, requests);
       && reply.Responded? && reply.payload.Some? && reply.payload.value.script == p.script
       && w.validate(p.script) == Some(p.validation)
       && p.verification == (if p.validation.ok then w.verify(p.script) else [])
  }

  /** The reply is a proposal whose script has text. */
  predicate Usable(reply: Reply) {
    reply.Responded? && reply.payload.Some? && HasText(reply.payload.value.script)
  }

  predicate CancelledReply(reply: Reply) {
    reply.ProviderFailed? && reply.cancelled
  }

  /** Cancellation is looked for before a call, after any answer that is not itself a cancellation,
      and once more before a candidate is validated. */
  function PollsAround(reply: Reply): (n: nat) {
    if reply.ProviderThrew? || CancelledReply(reply) then 1 else if !Usable(reply) then 2 else 3
  }

  /** Some poll in this range answered true. */
  predicate StopSeen(w: Surroundings, from: nat, to: nat) {
    exists i: nat :: i < to && from <= i && w.stopRequested(i)
  }

  /** The proposal carried by a failure: the candidate, if there is one, with its own verdicts. */
  predicate Carries(w: Surroundings, last: Option<Proposal>, candidate: Option<string>, attempts: nat) {
    && (last.Some? <==> candidate.Some?)
    && (last.Some? ==>
          && last.value.script == candidate.value && w.validate(candidate.value) == Some(last.value.validation)
          && last.value.verification == (if last.value.validation.ok then w.verify(candidate.value) else [])
          && last.value.attempts == attempts)
  }

  /** What asking the provider comes to: an error, before or after the candidate was counted, or a
      candidate. */
  datatype Answer = Stopped(code: ErrorCode, counted: bool) | Candidate(script: string)

  /** What the polls of a call and its last reply make of it: a candidate for a usable reply that no
      poll interrupts, and otherwise a cancellation or a provider failure. */
  predicate Answers(w: Surroundings, run: nat, requests: seq<Request>, from: nat, to: nat, answer: Answer) {
    var reply, stop := w.provider(run, requests), StopSeen(w, from, to);
    && from <= to && (forall i: nat | from <= i < to - 1 :: !w.stopRequested(i))
    && (answer.Candidate? <==> Usable(reply) && !stop)
    && (answer.Candidate? ==> answer.script == reply.payload.value.script)
    && (answer.Stopped? ==> answer.code == if stop || CancelledReply(reply) then CancelledError else ProviderFailure)
    && to + 1 <= from + PollsAround(reply) && (!stop ==> to + 1 == from + PollsAround(reply))
    && (answer.Stopped? ==> (answer.counted <==> to == from + 2))
  }

  /** A run that began with this poll is cancelled exactly when a poll answered true, which is then
      the last one, or the provider reported a cancellation; it is a provider failure exactly when
      the last reply was unusable, and a validation failure exactly when the compiler could not judge
      the last candidate. Cancellation is polled three times a call. */
  predicate RunEnds(w: Surroundings, run: nat, requests: seq<Request>, from: nat, to: nat, result: Result) {
    && from < to && (forall i: nat | from <= i < to - 1 :: !w.stopRequested(i))
    && !result.Refused?
    && var stop, cancelled := StopSeen(w, from, to), result.Failure? && result.code == CancelledError;
       if requests == [] then stop && cancelled && result.last.None? && to == from + 1
       else EndsAfter(w, run, requests, from, to, stop, cancelled, result)
  }

  /** The same for a run that made a call. */
  predicate EndsAfter(w: Surroundings, run: nat, requests: seq<Request>, from: nat, to: nat, stop: bool,
                      cancelled: bool, result: Result)
    requires requests != []
  {
    var reply, n := w.provider(run, requests), |requests|;
    && (cancelled <==> stop || CancelledReply(reply))
    && (result.Failure? && result.code == ProviderFailure <==> !stop && !CancelledReply(reply) && !Usable(reply))
    && (result.Failure? && result.code == ValidationFailure <==>
          !stop && Usable(reply) && w.validate(reply.payload.value.script).None?)
    && (result.Failure? && result.code == ValidationFailure ==> result.last.None?)
    && (!stop ==> to == from + 3 * (n - 1) + PollsAround(reply))
    && from + 3 * (n - 1) < to <= from + 3 * n + 1
    && (to == from + 3 * n + 1 ==> Usable(reply))
    && (result.Failure? && (cancelled || result.code == ProviderFailure) ==>
          if to == from + 3 * n + 1 then Carries(w, result.last, Some(reply.payload.value.script), n)
          else Carries(w, result.last, requests[n - 1].candidate, if to == from + 3 * n then n else n - 1))
  }

  /** Between two calls: nothing has stopped the run, and the previous proposal is the candidate of
      the last reply. */
  predicate Between(w: Surroundings, run: nat, requests: seq<Request>, from: nat, to: nat,
                    previous: Option<Proposal>) {
    && to == from + 3 * |requests| && !StopSeen(w, from, to)
    && if requests == [] then previous.None?
       else
         var reply := w.provider(run, requests);
         Usable(reply) && Carries(w, previous, Some(reply.payload.value.script), |requests|)
  }

  function Counted(previous: Option<Proposal>, attempts: nat): Option<Proposal> {
    if previous.Some? then Some(previous.value.(attempts := attempts)) else None
  }

  lemma EndsBeforeCall(w: Surroundings, run: nat, requests: seq<Request>, from: nat, to: nat,
                       previous: Option<Proposal>)
    requires Between(w, run, requests, from, to, previous) && w.stopRequested(to)
    ensures RunEnds(w, run, requests, from, to + 1, Failure(CancelledError, Counted(previous, |requests|)))
  {
    assert StopSeen(w, from, to + 1);
  }

  lemma PollsJoin(w: Surroundings, from: nat, middle: nat, to: nat)
    requires from <= middle <= to && !StopSeen(w, from, middle)
    ensures StopSeen(w, from, to) <==> StopSeen(w, middle, to)
  {
    if StopSeen(w, from, to) {
      var i: nat :| i < to && from <= i && w.stopRequested(i);
      assert middle <= i;
    }
  }

  lemma EndsInCall(w: Surroundings, run: nat, before: seq<Request>, request: Request, from: nat, middle: nat, to: nat,
                   previous: Option<Proposal>, answer: Answer)
    requires Between(w, run, before, from, middle, previous) && !w.stopRequested(middle)
    requires Carries(w, previous, request.candidate, |before|)
    requires Answers(w, run, before + [request], middle + 1, to, answer) && answer.Stopped?
    ensures RunEnds(w, run, before + [request], from, to,
                    Failure(answer.code, Counted(previous, if answer.counted then |before| + 1 else |before|)))
  {
    PollsJoin(w, from, middle + 1, to);
  }

  /** A call that ends in a candidate was not interrupted. */
  lemma CallCompletes(w: Surroundings, run: nat, before: seq<Request>, request: Request, from: nat, middle: nat,
                      to: nat, previous: Option<Proposal>, answer: Answer)
    requires Between(w, run, before, from, middle, previous) && !w.stopRequested(middle)
    requires Answers(w, run, before + [request], middle + 1, to, answer) && answer.Candidate?
    ensures to == from + 3 * |before + [request]| && !StopSeen(w, from, to)
    ensures Usable(w.provider(run, before + [request]))
    ensures answer.script == w.provider(run, before + [request]).payload.value.script
  {
    PollsJoin(w, from, middle + 1, to);
  }

  lemma EndsAfterCall(w: Surroundings, run: nat, requests: seq<Request>, from: nat, to: nat, result: Result)
    requires requests != [] && to == from + 3 * |requests| && !StopSeen(w, from, to)
    requires Usable(w.provider(run, requests))
    requires var judged := w.validate(w.provider(run, requests).payload.value.script);
      if judged.None? then result == Failure(ValidationFailure, None)
      else result.Success? || (result.Failure? && result.code in {NoProgress, RepairLimitReached})
    ensures RunEnds(w, run, requests, from, to, result)
  {
    forall i: nat | from <= i < to - 1 ensures !w.stopRequested(i) {}
  }

  class AgentSession {
    const w: Surroundings
    const maximumRepairAttempts: nat
    var state: State
    var run: nat
    var requests: seq<Request>
    var polls: nat

    constructor (w: Surroundings, maximumRepairAttempts: nat)
      ensures this.w == w && this.maximumRepairAttempts == maximumRepairAttempts
      ensures state == Idle && run == 0 && requests == [] && polls == 0
    {
      this.w := w;
      this.maximumRepairAttempts := maximumRepairAttempts;
      state, run, requests, polls := Idle, 0, [], 0;
    }

    method StopRequested() returns (stop: bool)
      modifies this`polls
      ensures stop == w.stopRequested(old(polls)) && polls == old(polls) + 1
    {
      stop := w.stopRequested(polls);
      polls := polls + 1;
    }

    /** Calls the provider once, and looks for cancellation and unusable answers. */
    method Ask(request: Request) returns (answer: Answer)
      modifies this`requests, this`state, this`polls
      ensures requests == old(requests) + [request]
      ensures answer.Stopped? ==> state == TerminalState(Failure(answer.code, None))
      ensures Answers(w, run, requests, old(polls), polls, answer)
    {
      match request.purpose {
        case Generation => state := Generating;
        case CompilerRepair => state := Repairing;
        case RequirementCorrection => state := CorrectingRequirements;
      }
      requests := requests + [request];
      var reply := w.provider(run, requests);
      if reply.ProviderThrew? {
        state := Failed;
        return Stopped(ProviderFailure, false);
      }
      var stop := false;
      if reply.Responded? || !reply.cancelled {
        stop := StopRequested();
      }
      if stop || (reply.ProviderFailed? && reply.cancelled) {
        state := Cancelled;
        return Stopped(CancelledError, false);
      }
      if reply.ProviderFailed? || reply.payload.None? || !HasText(reply.payload.value.script) {
        state := Failed;
        return Stopped(ProviderFailure, false);
      }
      stop := StopRequested();
      if stop {
        state := Cancelled;
        return Stopped(CancelledError, true);
      }
      answer := Candidate(reply.payload.value.script);
    }

    /** A failure carries the previous candidate, counted up to now. */
    function Fail(code: ErrorCode, previous: Option<Proposal>, attempts: nat): Result {
      Failure(code, Counted(previous, attempts))
    }

    function ProposalFrom(script: string, validation: Validation, attempts: nat): Proposal {
      Proposal(script, validation, attempts, if validation.ok then w.verify(script) else [])
    }

    /** How a run that began with this poll ended. */
    ghost predicate Ends(from: nat, result: Result)
      reads this
    {
      RunEnds(w, run, requests, from, polls, result)
    }

    /** A run that nobody cancels, whose provider always proposes a script and whose compiler always
        judges it, calls the provider and decides: it succeeds, makes no progress, or exhausts its calls. */
    lemma QuietRunDecides(from: nat, result: Result)
      requires Ends(from, result) && Concludes(result)
      requires forall i: nat :: !w.stopRequested(i)
      requires forall log: seq<Request> ::
        Usable(w.provider(run, log)) && w.validate(w.provider(run, log).payload.value.script).Some?
      ensures requests != [] && polls == from + 3 * |requests|
      ensures result.Success? || (result.Failure? && result.code in {NoProgress, RepairLimitReached})
    {
      assert !StopSeen(w, from, polls);
      assert Usable(w.provider(run, requests)) && w.validate(w.provider(run, requests).payload.value.script).Some?;
    }

    /** A new candidate makes progress unless it fails like the previous one: with the same
        diagnostics after a refusal, or with the same violations after a violation. */
    predicate Progresses(previous: Option<Proposal>, current: Proposal) {
      previous.Some? ==>
        if current.validation.ok
        then previous.value.validation.ok ==>
          ViolationSet(current.verification) != ViolationSet(previous.value.verification)
        else !previous.value.validation.ok ==>
          DiagnosticSet(current.validation) != DiagnosticSet(previous.value.validation)
    }

    /** The previous proposal is the candidate that was sent back last, with its own verdicts. */
    predicate Recalls(previous: Option<Proposal>, candidate: Option<string>) {
      && (previous.Some? <==> candidate.Some?)
      && (previous.Some? ==>
            var p := previous.value;
            && p.script == candidate.value && w.validate(p.script) == Some(p.validation)
            && p.verification == (if p.validation.ok then w.verify(p.script) else []))
    }

    predicate Clean(p: Proposal) {
      p.validation.ok && forall o <- p.verification :: !HighViolation(o)
    }

    /** What an authoring run guarantees: it makes at most one call more than the repair limit, its
        log is well formed, and its state agrees with its result. It succeeds with a candidate that
        compiles, violates nothing with high confidence and makes progress; it reports a lack of
        progress for a candidate that makes none, and the limit for one that progresses but still
        fails in the last call. No prompt is refused by its builder. */
    ghost predicate Concludes(result: Result)
      reads this
    {
      && |requests| <= maximumRepairAttempts + 1
      && WellFormedLog(w, run, requests)
      && state == TerminalState(result)
      && (result.Success? ==>
            && LastCandidate(w, run, requests, result.proposal) && Clean(result.proposal)
            && !Stagnates(w, requests, result.proposal.script))
      && (result.Failure? ==> result.code != InvalidRequest && result.code != Internal)
      && (result.Failure? && result.code in {RepairLimitReached, NoProgress} ==>
            && result.last.Some? && LastCandidate(w, run, requests, result.last.value)
            && (result.code == NoProgress <==> Stagnates(w, requests, result.last.value.script)))
      && (result.Failure? && result.code == RepairLimitReached ==>
            |requests| == maximumRepairAttempts + 1 && !Clean(result.last.value))
      && result != Refused
    }

    /** The log so far, the candidates seen in it, and the request to be made next. */
    ghost predicate Ready(request: Request, seen: seq<string>)
      reads this
    {
      && |requests| == |seen| && WellFormedLog(w, run, requests + [request])
      && SentBack(requests + [request], seen)
    }

    /** The candidates sent back so far, in order. */
    predicate SentBack(log: seq<Request>, seen: seq<string>) {
      |log| == |seen| + 1 && forall i :: 0 <= i < |seen| ==> log[i + 1].candidate == Some(seen[i])
    }

    /** Being seen before is having been sent back before. */
    lemma SeenIsSentBack(log: seq<Request>, seen: seq<string>, script: string)
      requires WellFormedLog(w, run, log) && SentBack(log, seen)
      ensures script in seen <==> exists i :: 0 <= i < |log| && log[i].candidate == Some(script)
    {
      if script in seen {
        var i :| 0 <= i < |seen| && seen[i] == script;
        assert log[i + 1].candidate == Some(script);
      }
      forall i | 0 <= i < |log| && log[i].candidate == Some(script) ensures script in seen {
        assert log[i - 1 + 1].candidate == Some(seen[i - 1]);
      }
    }

    /** Failing like the previous proposal is failing like the candidate sent back last; a clean
        candidate never does, because what is sent back is not clean. */
    lemma ProgressIsDecided(previous: Option<Proposal>, p: Proposal)
      requires requests != [] && WellFormedLog(w, run, requests) && LastCandidate(w, run, requests, p)
      requires Recalls(previous, requests[|requests| - 1].candidate)
      ensures Progresses(previous, p) <==>
        !(requests[|requests| - 1].candidate.Some? && FailsAlike(w, requests[|requests| - 1].candidate.value, p.script))
      ensures Clean(p) ==> Progresses(previous, p)
    {
      if previous.Some? {
        assert SendsBack(w, run, requests, |requests| - 1);
        NoViolations(previous.value.verification);
        NoViolations(p.verification);
      }
    }

    /** Sending back a candidate not seen before keeps the log well formed. */
    lemma LogGrows(request: Request, seen: seq<string>)
      requires WellFormedLog(w, run, requests) && SentBack(requests, seen)
      requires request.candidate.Some? && request.candidate.value !in seen
      requires SendsBack(w, run, requests + [request], |requests|)
      ensures Ready(request, seen + [request.candidate.value])
    {
      var after := requests + [request];
      SeenIsSentBack(requests, seen, request.candidate.value);
      forall i | 0 < i < |after| ensures SendsBack(w, run, after, i) {
        if i < |requests| {
          assert SendsBack(w, run, requests, i);
          assert after[..i] == requests[..i];
        }
      }
    }

    lemma PrefixIsWellFormed(before: seq<Request>, request: Request)
      requires WellFormedLog(w, run, before + [request])
      ensures WellFormedLog(w, run, before)
    {
      var after := before + [request];
      forall i | 0 < i < |before| ensures SendsBack(w, run, before, i) {
        assert SendsBack(w, run, after, i);
        assert after[..i] == before[..i];
      }
      forall i, j | 0 <= i < j < |before| && before[i].candidate.Some? && before[j].candidate.Some?
        ensures before[i].candidate != before[j].candidate
      {
        assert after[i] == before[i] && after[j] == before[j];
      }
    }

    /** Judges a validated candidate: finished, stopped, or sent back. */
    method Decide(instruction: string, original: Option<string>, previous: Option<Proposal>, proposal: Proposal,
                  seen: seq<string>)
      returns (result: Option<Result>, next: Request)
      requires HasText(instruction) && (original.Some? ==> HasText(original.value)) && HasText(proposal.script)
      requires WellFormedLog(w, run, requests) && SentBack(requests, seen) && |seen| <= maximumRepairAttempts
      requires LastCandidate(w, run, requests, proposal) && Recalls(previous, requests[|requests| - 1].candidate)
      modifies this`state
      ensures result.Some? ==> Concludes(result.value)
      ensures result.Some? ==>
        result.value.Success? || (result.value.Failure? && result.value.code in {NoProgress, RepairLimitReached})
      ensures result.None? ==> |seen| + 1 <= maximumRepairAttempts && Ready(next, seen + [proposal.script])
      ensures result.None? ==> Recalls(Some(proposal), next.candidate)
    {
      result, next := None, Request(Generation, None);
      var validation := proposal.validation;
      NoViolations(proposal.verification);
      SeenIsSentBack(requests, seen, proposal.script);
      ProgressIsDecided(previous, proposal);
      if proposal.script in seen {
        state := Failed;
        return Some(Failure(NoProgress, Some(proposal))), next;
      }
      if validation.ok && ViolationSet(proposal.verification) == [] {
        state := Completed;
        return Some(Success(proposal)), next;
      }
      if !Progresses(previous, proposal) {
        state := Failed;
        return Some(Failure(NoProgress, Some(proposal))), next;
      }
      if proposal.attempts > maximumRepairAttempts {
        state := Failed;
        return Some(Failure(RepairLimitReached, Some(proposal))), next;
      }
      var built := if validation.ok then BuildCorrection(instruction, proposal.script, proposal.verification, original)
                   else BuildRepair(instruction, proposal.script, validation, original);
      if built.None? {
        state := Failed;
        return Some(Failure(InvalidRequest, None)), next;
      }
      next := built.value;
      assert (requests + [next])[..|requests|] == requests;
      LogGrows(next, seen);
    }

    /** Validates the candidate of an uninterrupted call, and judges it. */
    method Consider(instruction: string, original: Option<string>, previous: Option<Proposal>, script: string,
                    seen: seq<string>, ghost from: nat)
      returns (result: Option<Result>, current: Option<Proposal>, next: Request)
      requires HasText(instruction) && (original.Some? ==> HasText(original.value)) && |seen| <= maximumRepairAttempts
      requires WellFormedLog(w, run, requests) && SentBack(requests, seen)
      requires Recalls(previous, requests[|requests| - 1].candidate)
      requires polls == from + 3 * |requests| && !StopSeen(w, from, polls)
      requires Usable(w.provider(run, requests)) && script == w.provider(run, requests).payload.value.script
      modifies this`state
      ensures result.Some? ==> Concludes(result.value) && Ends(from, result.value)
      ensures result.None? ==> |seen| + 1 <= maximumRepairAttempts && Ready(next, seen + [script])
      ensures result.None? ==> Recalls(current, next.candidate) && Between(w, run, requests, from, polls, current)
    {
      state := Validating;
      current, next := None, Request(Generation, None);
      var validation := w.validate(script);
      if validation.None? {
        state := Failed;
        result := Some(Failure(ValidationFailure, None));
        EndsAfterCall(w, run, requests, from, polls, result.value);
        return;
      }
      var proposal := ProposalFrom(script, validation.value, |seen| + 1);
      result, next := Decide(instruction, original, previous, proposal, seen);
      if result.Some? {
        EndsAfterCall(w, run, requests, from, polls, result.value);
      }
      current := Some(proposal);
    }

    method Run(instruction: string, original: Option<string>) returns (result: Result)
      requires HasText(instruction) && (original.Some? ==> HasText(original.value)) && requests == []
      modifies this
      ensures run == old(run) && Concludes(result) && Ends(old(polls), result)
    {
      var request := Request(Generation, None);
      var previous: Option<Proposal> := None;
      var seen: seq<string> := [];
      while true
        invariant run == old(run) && Ready(request, seen) && |seen| <= maximumRepairAttempts
        invariant Recalls(previous, request.candidate)
        invariant Between(w, run, requests, old(polls), polls, previous)
        decreases maximumRepairAttempts - |seen|
      {
        PrefixIsWellFormed(requests, request);
        ghost var before, asked := requests, polls;
        var stop := StopRequested();
        if stop {
          state := Cancelled;
          EndsBeforeCall(w, run, requests, old(polls), asked, previous);
          return Fail(CancelledError, previous, |seen|);
        }
        var answer := Ask(request);
        if answer.Stopped? {
          EndsInCall(w, run, before, request, old(polls), asked, polls, previous, answer);
          return Fail(answer.code, previous, if answer.counted then |seen| + 1 else |seen|);
        }
        CallCompletes(w, run, before, request, old(polls), asked, polls, previous, answer);
        var decision, current, next := Consider(instruction, original, previous, answer.script, seen, old(polls));
        if decision.Some? { return decision.value; }
        seen, previous, request := seen + [answer.script], current, next;
      }
    }

    /** Builds the opening prompt, weighs the request, and runs. */
    method Author(instruction: string, current: Option<string>, support: Support) returns (result: Result)
      modifies this
      ensures state == TerminalState(result) && run == old(run) + 1
      ensures !HasText(instruction) || (current.Some? && !HasText(current.value)) ==>
        result == Failure(InvalidRequest, None) && requests == [] && polls == old(polls)
      ensures HasText(instruction) && (current.Some? ==> HasText(current.value)) ==>
        if w.stopRequested(old(polls)) then
          result == Failure(CancelledError, None) && requests == [] && polls == old(polls) + 1
        else if support == NotSupported then result == Refused && requests == [] && polls == old(polls) + 1
        else Concludes(result) && Ends(old(polls) + 1, result)
    {
      run, requests := run + 1, [];
      if !HasText(instruction) || (current.Some? && !HasText(current.value)) {
        state := Failed;
        return Failure(InvalidRequest, None);
      }
      var stop := StopRequested();
      if stop {
        state := Cancelled;
        return Failure(CancelledError, None);
      }
      if support == NotSupported {
        state := UnsupportedState;
        return Refused;
      }
      result := Run(instruction, current);
    }
  }
}
