/**
 What a release decision means, by the observations: which way each family's difference points, what the interval can then be,
 and which verdict follows from what was observed.
 */
module Verdicts {
  import opened Text
  import opened SplitMix
  import opened Bootstrap
  import opened Decision
  import opened Quantiles

  // --------------------------------------------------------- candidate minus baseline

  /** The trials of a configuration in a family that were observed to succeed. */
  ghost function SuccessesOf(ts: seq<Trial>, obs: seq<Observation>, family: string, config: string): set<nat>
  {
    set i: nat | i < |ts| && ts[i].familyID == family && ts[i].configID == config && Succeeds(obs, ts[i])
  }

  lemma SuccessesOfLast(ts: seq<Trial>, obs: seq<Observation>, family: string, config: string)
    requires ts != []
    ensures var n, t := |ts| - 1, ts[|ts| - 1];
      |SuccessesOf(ts, obs, family, config)|
      == |SuccessesOf(ts[..n], obs, family, config)| + (if t.familyID == family && t.configID == config && Succeeds(obs, t) then 1 else 0)
  {
    hide Succeeds;
    var n, t := |ts| - 1, ts[|ts| - 1];
    var counts := t.familyID == family && t.configID == config && Succeeds(obs, t);
    var all, before := SuccessesOf(ts, obs, family, config), SuccessesOf(ts[..n], obs, family, config);
    forall i: nat ensures i in all <==> i in before || (counts && i == n) {
      assert i < n ==> ts[..n][i] == ts[i];
    }
    OneMore(all, before, n, counts);
  }

  /** The scores of a configuration in a family add up to its successes there. */
  lemma {:induction false} ScoresAddUp(ts: seq<Trial>, obs: seq<Observation>, byID: map<string, Observation>, family: string, config: string)
    requires Indexes(byID, obs)
    ensures Sum(Scores(ts, byID, family, config)) == |SuccessesOf(ts, obs, family, config)| as real
    decreases |ts|
  {
    hide Indexes, Succeeds, Success;
    if ts == [] {
      assert SuccessesOf(ts, obs, family, config) == {};
    } else {
      var n, t := |ts| - 1, ts[|ts| - 1];
      ScoresAddUp(ts[..n], obs, byID, family, config);
      TrialPassesIff(obs, byID, config, t);
      SuccessesOfLast(ts, obs, family, config);
      SumIsAdditive(Scores(ts[..n], byID, family, config), if Success(byID, t) then 1.0 else 0.0);
      assert Scores(ts[..n], byID, family, config) + [] == Scores(ts[..n], byID, family, config);
    }
  }

  lemma {:induction false} DifferencesSubtract(a: seq<real>, b: seq<real>)
    requires |a| == |b|
    ensures Differences(a, b) == Sum(b) - Sum(a)
  {
    if a != [] {
      DifferencesSubtract(a[..|a| - 1], b[..|b| - 1]);
    }
  }

  /**
   A cluster stands for one family: its difference, times the trials of a configuration there, is the candidate's successes minus
   the baseline's, and its domain is that of the family's last trial.
   */
  ghost predicate StandsFor(ts: seq<Trial>, obs: seq<Observation>, base: string, candidate: string, c: Cluster)
  {
    && c.difference.Finite?
    && 0 < |TrialsOf(ts, c.family, candidate)| == |TrialsOf(ts, c.family, base)|
    && c.difference.value * |TrialsOf(ts, c.family, candidate)| as real
       == |SuccessesOf(ts, obs, c.family, candidate)| as real - |SuccessesOf(ts, obs, c.family, base)| as real
    && exists i :: 0 <= i < |ts| && ts[i].familyID == c.family && ts[i].domain == c.domain
                   && forall j :: i < j < |ts| ==> ts[j].familyID != c.family
  }

  lemma {:induction false} LastDomainIs(ts: seq<Trial>, family: string) returns (i: nat)
    requires family in FamilySet(ts)
    ensures i < |ts| && ts[i].familyID == family && ts[i].domain == LastDomain(ts, family)
    ensures forall j :: i < j < |ts| ==> ts[j].familyID != family
    decreases |ts|
  {
    var n := |ts| - 1;
    i := n;
    if ts[n].familyID != family {
      var k :| 0 <= k < |ts| && ts[k].familyID == family;
      assert ts[..n][k].familyID == family;
      i := LastDomainIs(ts[..n], family);
      forall j | i < j < |ts| ensures ts[j].familyID != family {
        assert j < n ==> ts[..n][j] == ts[j];
      }
    }
  }

  lemma ClusterStandsFor(ts: seq<Trial>, obs: seq<Observation>, byID: map<string, Observation>, base: string, candidate: string, family: string)
    requires Indexes(byID, obs) && Balanced(ts, byID, base, candidate, family) && family in FamilySet(ts)
    ensures StandsFor(ts, obs, base, candidate, ClusterOf(ts, byID, base, candidate, family))
  {
    hide Scores, Indexes, TrialsOf, SuccessesOf, FamilySet;
    var a, b := Scores(ts, byID, family, base), Scores(ts, byID, family, candidate);
    ScoresAddUp(ts, obs, byID, family, base);
    ScoresAddUp(ts, obs, byID, family, candidate);
    ScoresCount(ts, byID, family, base);
    ScoresCount(ts, byID, family, candidate);
    DifferencesSubtract(a, b);
    var i := LastDomainIs(ts, family);
    assert (Differences(a, b) / |a| as real) * |a| as real == Differences(a, b);
  }

  /** The interval rests on one cluster for each family, each standing for its family. */
  ghost predicate MeasuredBy(plan: Plan, ts: seq<Trial>, obs: seq<Observation>, r: Interval)
    requires |plan.configs| == 2 && IsWord(plan.seed)
  {
    exists cs :: OnePerFamily(plan, ts, obs, cs) && Returns(cs, plan.repeats, plan.seed, r)
  }

  ghost predicate OnePerFamily(plan: Plan, ts: seq<Trial>, obs: seq<Observation>, cs: seq<Cluster>)
    requires |plan.configs| == 2
  {
    && DistinctFamilies(cs) && Families(cs) == FamilySet(ts)
    && forall i :: 0 <= i < |cs| ==> StandsFor(ts, obs, plan.configs[0], plan.configs[1], cs[i])
  }

  lemma IntervalIsMeasured(plan: Plan, ts: seq<Trial>, obs: seq<Observation>, byID: map<string, Observation>, r: Interval)
    requires |plan.configs| == 2 && IsWord(plan.seed) && Indexes(byID, obs)
    requires Valid(ts, byID, plan.configs[0], plan.configs[1]) && IntervalFor(plan, ts, byID, r)
    ensures MeasuredBy(plan, ts, obs, r)
  {
    hide StandsFor, Returns, ClusterOf, Indexes;
    var cs: seq<Cluster> :| ClustersOf(plan, ts, byID, cs) && Returns(cs, plan.repeats, plan.seed, r);
    forall i | 0 <= i < |cs| ensures StandsFor(ts, obs, plan.configs[0], plan.configs[1], cs[i]) {
      ClusterStandsFor(ts, obs, byID, plan.configs[0], plan.configs[1], cs[i].family);
    }
    assert Families(cs) == FamilySet(ts);
    assert OnePerFamily(plan, ts, obs, cs);
  }

  lemma SignOfDifference(d: real, n: nat, won: nat, lost: nat)
    requires n > 0 && d * n as real == won as real - lost as real
    ensures won <= lost ==> d <= 0.0
    ensures won >= lost ==> d >= 0.0
  {
    if d > 0.0 {
      Scaled(0.0, d, n as real);
    } else if d < 0.0 {
      Scaled(d, 0.0, n as real);
    }
  }

  /** Nowhere more successes for the candidate: the interval lies at or below zero. Nowhere fewer: at or above. */
  lemma IntervalFollowsSuccesses(plan: Plan, ts: seq<Trial>, obs: seq<Observation>, r: Interval)
    requires |plan.configs| == 2 && IsWord(plan.seed) && MeasuredBy(plan, ts, obs, r) && r.status.Estimated?
    ensures NowhereMore(ts, obs, plan.configs[1], plan.configs[0]) ==> r.observed <= 0.0 && r.status.lower <= 0.0 && r.status.upper <= 0.0
    ensures NowhereMore(ts, obs, plan.configs[0], plan.configs[1]) ==> 0.0 <= r.observed && 0.0 <= r.status.lower && 0.0 <= r.status.upper
  {
    hide Returns, SuccessesOf, TrialsOf;
    var cs: seq<Cluster> :| OnePerFamily(plan, ts, obs, cs) && Returns(cs, plan.repeats, plan.seed, r);
    var base, candidate := plan.configs[0], plan.configs[1];
    EstimatedInterval(cs, plan.repeats, plan.seed, r);
    forall c | c in cs
      ensures c.difference.Finite? && -1.0 <= c.difference.value <= 1.0
      ensures NowhereMore(ts, obs, candidate, base) ==> c.difference.value <= 0.0
      ensures NowhereMore(ts, obs, base, candidate) ==> 0.0 <= c.difference.value
    {
      var k :| 0 <= k < |cs| && cs[k] == c;
      assert StandsFor(ts, obs, base, candidate, c) && Acceptable(cs[k]);
      assert c.family in Families(cs);
      SignOfDifference(c.difference.value, |TrialsOf(ts, c.family, candidate)|,
                       |SuccessesOf(ts, obs, c.family, candidate)|, |SuccessesOf(ts, obs, c.family, base)|);
    }
    if NowhereMore(ts, obs, candidate, base) {
      IntervalHull(cs, plan.repeats, plan.seed, r, -1.0, 0.0);
    }
    if NowhereMore(ts, obs, base, candidate) {
      IntervalHull(cs, plan.repeats, plan.seed, r, 0.0, 1.0);
    }
  }

  /** In no family does the first configuration have more successes than the second. */
  ghost predicate NowhereMore(ts: seq<Trial>, obs: seq<Observation>, a: string, b: string)
  {
    forall f :: f in FamilySet(ts) ==> |SuccessesOf(ts, obs, f, a)| <= |SuccessesOf(ts, obs, f, b)|
  }

  // ---------------------------------------------------------------------- the verdict

  /** The trial was observed to end as a release demands. */
  ghost predicate Finished(obs: seq<Observation>, t: Trial)
  {
    exists o :: Observes(obs, t.id, o) && o.state == "completed" && o.verified && o.cleanup == "complete"
  }

  /** A candidate trial was observed to have illegal effects, or was required and did not succeed. */
  ghost predicate Harms(obs: seq<Observation>, candidate: string, t: Trial)
  {
    t.configID == candidate
    && ((exists o :: Observes(obs, t.id, o) && o.illegalEffects > 0) || (t.required && !Succeeds(obs, t)))
  }

  ghost predicate AllFinished(ts: seq<Trial>, obs: seq<Observation>)
  {
    forall i :: 0 <= i < |ts| ==> Finished(obs, ts[i])
  }

  ghost predicate NoneHarms(ts: seq<Trial>, obs: seq<Observation>, candidate: string)
  {
    forall i :: 0 <= i < |ts| ==> !Harms(obs, candidate, ts[i])
  }

  /** A domain of the candidate has no floor. */
  ghost predicate Unset(ts: seq<Trial>, floors: map<string, real>, candidate: string)
  {
    exists i :: 0 <= i < |ts| && ts[i].configID == candidate && ts[i].domain !in floors
  }

  /** In a domain of the candidate its successes do not reach the floor. */
  ghost predicate Missed(ts: seq<Trial>, obs: seq<Observation>, floors: map<string, real>, candidate: string)
  {
    exists i :: 0 <= i < |ts| && ts[i].configID == candidate && ts[i].domain in floors
                && !FloorReached(ts, obs, floors, candidate, ts[i].domain)
  }

  /** The interval decides, once nothing else has. */
  predicate ByInterval(interval: Interval, delta: real, v: Verdict, why: Reason)
  {
    match interval.status
    case Estimated(lower, upper) =>
      if lower >= -delta then (v, why) == (Pass, GatesMet)
      else if upper < -delta then (v, why) == (Fail, Inferior)
      else (v, why) == (Inconclusive, CrossesMargin)
    case _ => (v, why) == (Inconclusive, IntervalStatus(interval.status))
  }

  ghost predicate ByObservations(plan: Plan, ts: seq<Trial>, obs: seq<Observation>, interval: Interval, v: Verdict, why: Reason)
    requires |plan.configs| == 2 && plan.delta.Margin? && IsWord(plan.seed)
  {
    var base, candidate := plan.configs[0], plan.configs[1];
    if !AllFinished(ts, obs) || !EvenFamilies(ts, base, candidate) then
      (v, why) == (Invalid, BadEvidence) && interval == Interval(0, plan.seed, |FamilySet(ts)|, 0.0, InvalidInput)
    else
      && MeasuredBy(plan, ts, obs, interval)
      && if !NoneHarms(ts, obs, candidate) || !AllMatched(ts, obs, base, candidate) then (v, why) == (Fail, PolicyOrRequired)
         else if Unset(ts, plan.floors, candidate) || Missed(ts, obs, plan.floors, candidate) then
           || ((v, why) == (Inconclusive, FloorUnset) && Unset(ts, plan.floors, candidate))
           || ((v, why) == (Fail, BelowFloor) && Missed(ts, obs, plan.floors, candidate))
         else ByInterval(interval, plan.delta.value, v, why)
  }

  /** An observation that counts below zero, names no planned trial, or repeats one before it. */
  predicate ImproperAt(ts: seq<Trial>, obs: seq<Observation>, i: int)
    requires 0 <= i < |obs|
  {
    || obs[i].policyFailures < 0 || obs[i].illegalAttempts < 0 || obs[i].illegalEffects < 0
    || (forall k :: 0 <= k < |ts| ==> ts[k].id != obs[i].trialID)
    || exists j :: 0 <= j < i && obs[j].trialID == obs[i].trialID
  }

  ghost predicate Improper(ts: seq<Trial>, obs: seq<Observation>)
  {
    exists i :: 0 <= i < |obs| && ImproperAt(ts, obs, i)
  }

  lemma ProperIff(ts: seq<Trial>, obs: seq<Observation>)
    ensures EvidenceOk(ts, obs) <==> !Improper(ts, obs)
  {
    if !Improper(ts, obs) {
      forall i | 0 <= i < |obs| ensures Decision.Admissible(ts, obs[i]) && forall j :: 0 <= j < i ==> obs[j].trialID != obs[i].trialID {
        assert !ImproperAt(ts, obs, i);
      }
    }
    if EvidenceOk(ts, obs) {
      forall i | 0 <= i < |obs| ensures !ImproperAt(ts, obs, i) {
        assert Decision.Admissible(ts, obs[i]);
      }
    }
  }

  /** The report lists every trial with its observation, or as missing. */
  ghost predicate ListsAll(ts: seq<Trial>, obs: seq<Observation>, listed: seq<Observation>)
  {
    && |listed| == |ts|
    && forall i :: 0 <= i < |ts| ==>
         || Observes(obs, ts[i].id, listed[i])
         || (!(exists o :: Observes(obs, ts[i].id, o)) && listed[i] == Observation(ts[i].id, "missing", false, "", false, 0, 0, 0))
  }

  lemma TrialByObservation(obs: seq<Observation>, byID: map<string, Observation>, candidate: string, t: Trial)
    requires Indexes(byID, obs)
    ensures Finished(obs, t) <==> Scorable(byID, t)
    ensures Harms(obs, candidate, t) <==> Breaks(byID, candidate, t)
  {
    hide Indexes;
    TrialPassesIff(obs, byID, candidate, t);
    forall o ensures Observes(obs, t.id, o) <==> t.id in byID && byID[t.id] == o {
      ObservesIsIndexed(obs, byID, t.id, o);
    }
    if t.id in byID {
      assert Observes(obs, t.id, byID[t.id]);
    }
    hide Succeeds;
  }

  lemma FloorsByObservation(plan: Plan, ts: seq<Trial>, obs: seq<Observation>, byID: map<string, Observation>)
    requires |plan.configs| == 2 && Indexes(byID, obs)
    ensures Unset(ts, plan.floors, plan.configs[1]) <==> SomeFloorUnset(plan, ts)
    ensures Missed(ts, obs, plan.floors, plan.configs[1]) <==> SomeFloorMissed(plan, ts, byID)
  {
    hide FloorTotal, FloorSuccess, RateBelow, FloorReached, Indexes;
    var candidate := plan.configs[1];
    forall i | 0 <= i < |ts| && ts[i].configID == candidate
      ensures FloorTotal(ts, candidate, ts[i].domain) > 0
      ensures FloorReached(ts, obs, plan.floors, candidate, ts[i].domain)
        <==> !FloorIsUnset(ts, plan.floors, candidate, ts[i].domain) && !FloorIsMissed(ts, byID, plan.floors, candidate, ts[i].domain)
    {
      CountsMember(ts, candidate, i);
      FloorReachedIff(plan, ts, obs, byID, ts[i].domain);
    }
    forall d | FloorTotal(ts, candidate, d) > 0 ensures exists i :: 0 <= i < |ts| && ts[i].configID == candidate && ts[i].domain == d {
      var i := CountedMember(ts, candidate, d);
    }
  }

  lemma TrialsByObservation(ts: seq<Trial>, obs: seq<Observation>, byID: map<string, Observation>, candidate: string)
    requires Indexes(byID, obs)
    ensures AllFinished(ts, obs) <==> forall i :: 0 <= i < |ts| ==> Scorable(byID, ts[i])
    ensures NoneHarms(ts, obs, candidate) <==> !(exists i :: 0 <= i < |ts| && Breaks(byID, candidate, ts[i]))
  {
    hide Indexes, Finished, Harms, Scorable, Breaks;
    forall i | 0 <= i < |ts|
      ensures Finished(obs, ts[i]) <==> Scorable(byID, ts[i])
      ensures Harms(obs, candidate, ts[i]) <==> Breaks(byID, candidate, ts[i])
    {
      TrialByObservation(obs, byID, candidate, ts[i]);
    }
  }

  lemma HarmByObservation(ts: seq<Trial>, obs: seq<Observation>, byID: map<string, Observation>, base: string, candidate: string)
    requires EvidenceOk(ts, obs) && Indexes(byID, obs)
    ensures AllFinished(ts, obs) && EvenFamilies(ts, base, candidate) <==> Valid(ts, byID, base, candidate)
    ensures Valid(ts, byID, base, candidate) ==>
      (NoneHarms(ts, obs, candidate) && AllMatched(ts, obs, base, candidate) <==> !HardFail(ts, byID, base, candidate))
  {
    hide EvenFamilies, AllMatched, Decision.Balanced, Breaks, AddsFailures, Indexes, EvidenceOk, AllFinished, NoneHarms;
    TrialsByObservation(ts, obs, byID, candidate);
    EvenIffBalanced(ts, byID, base, candidate);
    if forall i :: 0 <= i < |ts| ==> Scorable(byID, ts[i]) {
      NoAddedFailuresIff(ts, obs, byID, base, candidate);
    }
  }

  lemma ListedByObservation(ts: seq<Trial>, obs: seq<Observation>, byID: map<string, Observation>)
    requires Indexes(byID, obs)
    ensures ListsAll(ts, obs, seq(|ts|, i requires 0 <= i < |ts| => Listed(byID, ts[i])))
  {
    hide Indexes, Observes;
    forall id, o ensures Observes(obs, id, o) <==> id in byID && byID[id] == o {
      ObservesIsIndexed(obs, byID, id, o);
    }
  }

  /** The verdict, its reason, its interval and its list of trials follow from the observations. */
  lemma DecisionByObservations(plan: Plan, ts: seq<Trial>, obs: seq<Observation>, byID: map<string, Observation>, r: Report)
    requires |plan.configs| == 2 && plan.delta.Margin? && IsWord(plan.seed)
    requires EvidenceOk(ts, obs) && Indexes(byID, obs) && Decides(plan, ts, byID, r)
    ensures ByObservations(plan, ts, obs, r.interval, r.verdict, r.reason) && ListsAll(ts, obs, r.trials)
  {
    hide EvidenceOk, Indexes, Valid, HardFail, SomeFloorUnset, SomeFloorMissed, AllFinished, EvenFamilies, NoneHarms, AllMatched, Unset, Missed,
      MeasuredBy, IntervalFor, ListsAll;
    HarmByObservation(ts, obs, byID, plan.configs[0], plan.configs[1]);
    FloorsByObservation(plan, ts, obs, byID);
    ListedByObservation(ts, obs, byID);
    if Valid(ts, byID, plan.configs[0], plan.configs[1]) {
      IntervalIsMeasured(plan, ts, obs, byID, r.interval);
    }
  }
}
