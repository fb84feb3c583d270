/** What the counters of a qualification say, and that the result viewer accepts them. */
module QualificationCounts {
  import opened Domain
  import opened Ir
  import opened Points
  import opened Characterization

  predicate AllPass(samples: seq<Sample>, k: nat)
    requires forall i :: 0 <= i < |samples| ==> k < |samples[i].assertions|
  {
    forall i :: 0 <= i < |samples| ==> samples[i].assertions[k].passed
  }

  /** The counters of one assertion add up, and nothing failed exactly when every sample passed it. */
  lemma {:induction false} AssertionCounts(p: Program, total: nat, samples: seq<Sample>, k: nat)
    requires Shaped(p, samples) && k < |p.assertions|
    ensures var s := CountSamples(p, total, samples).summaries[k];
      && s.id == p.assertions[k].id && s.total == total && s.passed + s.failed == |samples|
      && (s.failed == 0 <==> AllPass(samples, k))
  {
    if |samples| > 0 {
      var before := samples[..|samples| - 1];
      AssertionCounts(p, total, before, k);
      assert AllPass(samples, k) <==> AllPass(before, k) && samples[|samples| - 1].assertions[k].passed;
    }
  }

  /** The counters of points add up, and none failed exactly when no sample did. */
  lemma {:induction false} PointCounts(p: Program, total: nat, samples: seq<Sample>)
    requires Shaped(p, samples)
    ensures var c := CountSamples(p, total, samples);
      && c.passed + c.failed == (if |p.assertions| == 0 then 0 else |samples|)
      && (c.failed == 0 <==> forall i :: 0 <= i < |samples| ==> samples[i].status != Fail)
  {
    if |samples| > 0 {
      var before, last := samples[..|samples| - 1], samples[|samples| - 1];
      PointCounts(p, total, before);
      if last.status != Fail && forall i :: 0 <= i < |before| ==> before[i].status != Fail {
        forall i | 0 <= i < |samples| ensures samples[i].status != Fail {
          if i < |before| { assert samples[i] == before[i]; }
        }
      }
    }
  }

  // ----- The counters are counts -----

  /** The places among the first n where something holds. */
  function Places(n: nat, holds: nat -> bool): set<nat> {
    set i: nat | i < n && holds(i)
  }

  lemma PlacesGrow(n: nat, holds: nat -> bool)
    ensures |Places(n + 1, holds)| == |Places(n, holds)| + (if holds(n) then 1 else 0)
  {
    if holds(n) {
      assert Places(n + 1, holds) == Places(n, holds) + {n};
    } else {
      assert Places(n + 1, holds) == Places(n, holds);
    }
  }

  function Passing(samples: seq<Sample>): nat -> bool {
    (i: nat) => i < |samples| && samples[i].status == Pass
  }

  function PassingAssertion(samples: seq<Sample>, k: nat): nat -> bool {
    (i: nat) => i < |samples| && k < |samples[i].assertions| && samples[i].assertions[k].passed
  }

  lemma {:induction false} PassedIsCount(p: Program, total: nat, samples: seq<Sample>)
    requires Shaped(p, samples)
    ensures CountSamples(p, total, samples).passed == |Places(|samples|, Passing(samples))|
  {
    if |samples| == 0 {
      assert Places(0, Passing(samples)) == {};
    } else {
      var n := |samples| - 1;
      var before := samples[..n];
      PassedIsCount(p, total, before);
      PlacesGrow(n, Passing(samples));
      assert Places(n, Passing(samples)) == Places(n, Passing(before));
    }
  }

  lemma {:induction false} AssertionPassedIsCount(p: Program, total: nat, samples: seq<Sample>, k: nat)
    requires Shaped(p, samples) && k < |p.assertions|
    ensures CountSamples(p, total, samples).summaries[k].passed == |Places(|samples|, PassingAssertion(samples, k))|
  {
    if |samples| == 0 {
      assert Places(0, PassingAssertion(samples, k)) == {};
    } else {
      var n := |samples| - 1;
      var before := samples[..n];
      AssertionPassedIsCount(p, total, before, k);
      PlacesGrow(n, PassingAssertion(samples, k));
      assert Places(n, PassingAssertion(samples, k)) == Places(n, PassingAssertion(before, k));
    }
  }

  /** Conservation: every assertion was judged once per sample, and its passes are the samples that
      passed it; with assertions, the points that pass and those that fail add up to the total, and
      the status is Pass exactly when every sample passes, which is exactly when no assertion has a
      failure. */
  lemma QualificationConserves(p: Program, samples: seq<Sample>)
    requires Shaped(p, samples)
    ensures var q := Qualify(p, |samples|, samples);
      && q.totalPoints == |samples| && |q.assertions| == |p.assertions|
      && q.passedPoints == |Places(|samples|, Passing(samples))|
      && (forall k :: 0 <= k < |p.assertions| ==>
            q.assertions[k].id == p.assertions[k].id &&
            q.assertions[k].passed == |Places(|samples|, PassingAssertion(samples, k))| &&
            q.assertions[k].passed + q.assertions[k].failed == q.assertions[k].total == |samples|)
      && (p.assertions == [] ==> q.status == NotEvaluated && q.passedPoints == q.failedPoints == 0)
      && (p.assertions != [] ==>
            && q.status != NotEvaluated && q.passedPoints + q.failedPoints == q.totalPoints
            && (q.status == Pass <==> forall i :: 0 <= i < |samples| ==> samples[i].status == Pass)
            && (q.status == Pass <==> forall k :: 0 <= k < |p.assertions| ==> q.assertions[k].failed == 0))
  {
    PointCounts(p, |samples|, samples);
    PassedIsCount(p, |samples|, samples);
    var q := Qualify(p, |samples|, samples);
    forall k | 0 <= k < |p.assertions|
      ensures q.assertions[k].id == p.assertions[k].id
      ensures q.assertions[k].passed == |Places(|samples|, PassingAssertion(samples, k))|
      ensures q.assertions[k].passed + q.assertions[k].failed == q.assertions[k].total == |samples|
      ensures q.assertions[k].failed == 0 <==> AllPass(samples, k)
    {
      AssertionCounts(p, |samples|, samples, k);
      AssertionPassedIsCount(p, |samples|, samples, k);
    }
    if p.assertions != [] { SamplesPassTogether(p, samples); }
  }

  lemma SamplesPassTogether(p: Program, samples: seq<Sample>)
    requires Shaped(p, samples) && p.assertions != []
    ensures (forall i :: 0 <= i < |samples| ==> samples[i].status == Pass) <==>
            (forall k :: 0 <= k < |p.assertions| ==> AllPass(samples, k))
    ensures forall i :: 0 <= i < |samples| ==> samples[i].status != NotEvaluated
  {
    if forall k :: 0 <= k < |p.assertions| ==> AllPass(samples, k) {
      forall i | 0 <= i < |samples| ensures samples[i].status == Pass {
        forall k | 0 <= k < |p.assertions| ensures samples[i].assertions[k].passed { assert AllPass(samples, k); }
      }
    }
    if forall i :: 0 <= i < |samples| ==> samples[i].status == Pass {
      forall k | 0 <= k < |p.assertions| ensures AllPass(samples, k) {
        forall i | 0 <= i < |samples| ensures samples[i].assertions[k].passed { assert samples[i].status == Pass; }
      }
    }
  }

  // ----- The result viewer -----

  /** Two points with the same coordinates, observations, derived values and assertions, by name
      and type. */
  predicate SameShape(a: Sample, b: Sample) {
    && |a.coordinates| == |b.coordinates| && |a.observations| == |b.observations|
    && |a.derived| == |b.derived| && |a.assertions| == |b.assertions|
    && (forall i :: 0 <= i < |a.coordinates| ==>
          a.coordinates[i].name == b.coordinates[i].name && a.coordinates[i].value.kind == b.coordinates[i].value.kind)
    && (forall i :: 0 <= i < |a.observations| ==>
          a.observations[i].name == b.observations[i].name
            && a.observations[i].value.kind == b.observations[i].value.kind)
    && (forall i :: 0 <= i < |a.derived| ==>
          a.derived[i].name == b.derived[i].name && a.derived[i].typ == b.derived[i].typ)
    && (forall i :: 0 <= i < |a.assertions| ==> a.assertions[i].id == b.assertions[i].id)
  }

  /** The checks the viewer makes when it loads a result. */
  predicate LoaderAccepts(r: Result) {
    && r.samples != []
    && (forall k :: 0 <= k < |r.qualification.assertions| ==>
          var s := r.qualification.assertions[k];
          s.id != "" && s.passed + s.failed == s.total && s.total == r.qualification.totalPoints)
    && r.qualification.totalPoints == |r.samples|
    && (r.qualification.status != NotEvaluated ==>
          r.qualification.passedPoints + r.qualification.failedPoints == r.qualification.totalPoints)
    && (forall i :: 0 <= i < |r.samples| ==> SameShape(r.samples[i], r.samples[0]))
  }
}
