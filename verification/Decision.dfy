/** The release-comparison policy: turning verified observations into a verdict. */
module Decision {
  import opened Text
  import opened SplitMix
  import opened Bootstrap

  datatype Trial = Trial(id: string, entryID: string, familyID: string, domain: string, configID: string,
                         repeat: int, required: bool)

  datatype Observation = Observation(trialID: string, state: string, verified: bool, cleanup: string, success: bool,
                                     policyFailures: int, illegalAttempts: int, illegalEffects: int)

  datatype Delta = Unset | Margin(value: real)

  datatype Plan = Plan(configs: seq<string>, delta: Delta, floors: map<string, real>, repeats: int, seed: nat)

  datatype Verdict = Invalid | Pass | Fail | Inconclusive

  datatype Reason = BadEvidence | PolicyOrRequired | FloorUnset | BelowFloor | IntervalStatus(status: Status)
                  | GatesMet | Inferior | CrossesMargin

  datatype Report = Report(verdict: Verdict, reason: Reason, interval: Interval, trials: seq<Observation>)

  datatype Outcome = PlanInvalid | EvidenceInvalid | Decided(report: Report)

  // ---------------------------------------------------------------------- observations

  predicate PlansTrial(trials: seq<Trial>, id: string)
  {
    exists i :: 0 <= i < |trials| && trials[i].id == id
  }

  predicate Admissible(trials: seq<Trial>, o: Observation)
  {
    PlansTrial(trials, o.trialID) && o.policyFailures >= 0 && o.illegalAttempts >= 0 && o.illegalEffects >= 0
  }

  /** Every observation names a planned trial, counts nothing negative, and no trial is observed twice. */
  predicate EvidenceOk(trials: seq<Trial>, obs: seq<Observation>)
  {
    (forall i :: 0 <= i < |obs| ==> Admissible(trials, obs[i]))
    && forall i, j :: 0 <= i < j < |obs| ==> obs[i].trialID != obs[j].trialID
  }

  predicate Indexes(byID: map<string, Observation>, obs: seq<Observation>)
  {
    (forall i :: 0 <= i < |obs| ==> obs[i].trialID in byID && byID[obs[i].trialID] == obs[i])
    && forall id :: id in byID ==> exists i :: 0 <= i < |obs| && obs[i].trialID == id
  }

  const NOTHING := Observation("", "", false, "", false, 0, 0, 0)

  /** A Go map read: the zero observation when the trial has none. */
  function ObservationOf(byID: map<string, Observation>, id: string): Observation
  {
    if id in byID then byID[id] else NOTHING
  }

  function Listed(byID: map<string, Observation>, t: Trial): Observation
  {
    if t.id in byID then byID[t.id] else Observation(t.id, "missing", false, "", false, 0, 0, 0)
  }

  predicate Scorable(byID: map<string, Observation>, t: Trial)
  {
    t.id in byID && byID[t.id].state == "completed" && byID[t.id].verified && byID[t.id].cleanup == "complete"
  }

  predicate Success(byID: map<string, Observation>, t: Trial)
  {
    Scorable(byID, t) && byID[t.id].success
  }

  /** A candidate trial that fails the comparison by itself. */
  predicate Breaks(byID: map<string, Observation>, candidate: string, t: Trial)
  {
    t.configID == candidate && (ObservationOf(byID, t.id).illegalEffects > 0 || (t.required && !Success(byID, t)))
  }

  // --------------------------------------------------------------------- families and floors

  /** One configuration's outcomes in one family, as zeros and ones in trial order. */
  function Scores(ts: seq<Trial>, byID: map<string, Observation>, family: string, config: string): seq<real>
  {
    if ts == [] then []
    else
      var t := ts[|ts| - 1];
      Scores(ts[..|ts| - 1], byID, family, config)
        + (if t.familyID == family && t.configID == config then [if Success(byID, t) then 1.0 else 0.0] else [])
  }

  function LastDomain(ts: seq<Trial>, family: string): string
  {
    if ts == [] then ""
    else if ts[|ts| - 1].familyID == family then ts[|ts| - 1].domain
    else LastDomain(ts[..|ts| - 1], family)
  }

  function FamilySet(ts: seq<Trial>): set<string>
  {
    set i | 0 <= i < |ts| :: ts[i].familyID
  }

  function FloorTotal(ts: seq<Trial>, candidate: string, domain: string): nat
  {
    if ts == [] then 0
    else
      var t := ts[|ts| - 1];
      FloorTotal(ts[..|ts| - 1], candidate, domain) + (if t.configID == candidate && t.domain == domain then 1 else 0)
  }

  function FloorSuccess(ts: seq<Trial>, byID: map<string, Observation>, candidate: string, domain: string): (n: nat)
    ensures n <= FloorTotal(ts, candidate, domain)
  {
    if ts == [] then 0
    else
      var t := ts[|ts| - 1];
      FloorSuccess(ts[..|ts| - 1], byID, candidate, domain)
        + (if t.configID == candidate && t.domain == domain && Success(byID, t) then 1 else 0)
  }

  predicate Balanced(ts: seq<Trial>, byID: map<string, Observation>, base: string, candidate: string, family: string)
  {
    0 < |Scores(ts, byID, family, base)| == |Scores(ts, byID, family, candidate)|
  }

  function Differences(a: seq<real>, b: seq<real>): real
    requires |a| == |b|
  {
    if a == [] then 0.0 else Differences(a[..|a| - 1], b[..|b| - 1]) + (b[|b| - 1] - a[|a| - 1])
  }

  function ClusterOf(ts: seq<Trial>, byID: map<string, Observation>, base: string, candidate: string, family: string): Cluster
    requires Balanced(ts, byID, base, candidate, family)
  {
    var a, b := Scores(ts, byID, family, base), Scores(ts, byID, family, candidate);
    Cluster(family, LastDomain(ts, family), Finite(Differences(a, b) / |a| as real))
  }

  // ------------------------------------------------------------------------ matched pairs

  /** rune(n) then string(rune): 32-bit truncation, and the replacement character for what is not a scalar value. */
  function Rune(n: int): int
  {
    var w := n % 0x1_0000_0000;
    if w < 0xD800 || 0xE000 <= w <= 0x10FFFF then w else 0xFFFD
  }

  datatype Key = Key(entryID: string, rune: int)

  function KeyOf(t: Trial): Key
  {
    Key(t.entryID, Rune(t.repeat))
  }

  /** The observation a pair holds for a configuration: the last trial with that key wins. */
  function Paired(ts: seq<Trial>, byID: map<string, Observation>, key: Key, config: string): Observation
  {
    if ts == [] then NOTHING
    else
      var t := ts[|ts| - 1];
      if KeyOf(t) == key && t.configID == config then ObservationOf(byID, t.id)
      else Paired(ts[..|ts| - 1], byID, key, config)
  }

  predicate AddsFailures(ts: seq<Trial>, byID: map<string, Observation>, base: string, candidate: string, key: Key)
  {
    Paired(ts, byID, key, candidate).policyFailures > Paired(ts, byID, key, base).policyFailures
  }

  // ---------------------------------------------------------------------------- the verdict

  ghost predicate Valid(ts: seq<Trial>, byID: map<string, Observation>, base: string, candidate: string)
  {
    (forall i :: 0 <= i < |ts| ==> Scorable(byID, ts[i]))
    && forall f :: f in FamilySet(ts) ==> Balanced(ts, byID, base, candidate, f)
  }

  predicate HardFail(ts: seq<Trial>, byID: map<string, Observation>, base: string, candidate: string)
  {
    (exists i :: 0 <= i < |ts| && Breaks(byID, candidate, ts[i]))
    || exists i :: 0 <= i < |ts| && AddsFailures(ts, byID, base, candidate, KeyOf(ts[i]))
  }

  predicate FloorIsUnset(ts: seq<Trial>, floors: map<string, real>, candidate: string, domain: string)
  {
    FloorTotal(ts, candidate, domain) > 0 && domain !in floors
  }

  predicate RateBelow(a: nat, n: nat, floor: real)
    requires n > 0
  {
    a as real / n as real < floor
  }

  predicate FloorIsMissed(ts: seq<Trial>, byID: map<string, Observation>, floors: map<string, real>, candidate: string, domain: string)
  {
    FloorTotal(ts, candidate, domain) > 0 && domain in floors
    && RateBelow(FloorSuccess(ts, byID, candidate, domain), FloorTotal(ts, candidate, domain), floors[domain])
  }

  ghost predicate SomeFloorUnset(plan: Plan, ts: seq<Trial>)
    requires |plan.configs| == 2
  {
    exists d :: FloorIsUnset(ts, plan.floors, plan.configs[1], d)
  }

  ghost predicate SomeFloorMissed(plan: Plan, ts: seq<Trial>, byID: map<string, Observation>)
    requires |plan.configs| == 2
  {
    exists d :: FloorIsMissed(ts, byID, plan.floors, plan.configs[1], d)
  }

  /** The clusters, one a family, in whatever order the map yields the families. */
  ghost predicate ClustersOf(plan: Plan, ts: seq<Trial>, byID: map<string, Observation>, cs: seq<Cluster>)
    requires |plan.configs| == 2 && Valid(ts, byID, plan.configs[0], plan.configs[1])
  {
    && DistinctFamilies(cs)
    && (forall i :: 0 <= i < |cs| ==> cs[i].family in FamilySet(ts)
                                      && cs[i] == ClusterOf(ts, byID, plan.configs[0], plan.configs[1], cs[i].family))
    && forall f :: f in FamilySet(ts) ==> exists i :: 0 <= i < |cs| && cs[i].family == f
  }

  ghost predicate IntervalFor(plan: Plan, ts: seq<Trial>, byID: map<string, Observation>, r: Interval)
    requires |plan.configs| == 2 && Valid(ts, byID, plan.configs[0], plan.configs[1]) && IsWord(plan.seed)
  {
    exists cs :: ClustersOf(plan, ts, byID, cs) && Returns(cs, plan.repeats, plan.seed, r)
  }

  function Gate(interval: Interval, margin: real): (Verdict, Reason)
  {
    if !interval.status.Estimated? then (Inconclusive, IntervalStatus(interval.status))
    else if interval.status.lower >= -margin then (Pass, GatesMet)
    else if interval.status.upper < -margin then (Fail, Inferior)
    else (Inconclusive, CrossesMargin)
  }

  /** Which verdicts Decide may return. The order in which floors are visited is not fixed. */
  ghost predicate May(plan: Plan, ts: seq<Trial>, byID: map<string, Observation>, interval: Interval, v: Verdict, why: Reason)
    requires |plan.configs| == 2 && plan.delta.Margin?
  {
    var base, candidate := plan.configs[0], plan.configs[1];
    if !Valid(ts, byID, base, candidate) then (v, why) == (Invalid, BadEvidence)
    else if HardFail(ts, byID, base, candidate) then (v, why) == (Fail, PolicyOrRequired)
    else if (v, why) == (Inconclusive, FloorUnset) then SomeFloorUnset(plan, ts)
    else if (v, why) == (Fail, BelowFloor) then SomeFloorMissed(plan, ts, byID)
    else !SomeFloorUnset(plan, ts) && !SomeFloorMissed(plan, ts, byID) && (v, why) == Gate(interval, plan.delta.value)
  }

  ghost predicate Decides(plan: Plan, ts: seq<Trial>, byID: map<string, Observation>, r: Report)
    requires |plan.configs| == 2 && plan.delta.Margin? && IsWord(plan.seed)
  {
    && May(plan, ts, byID, r.interval, r.verdict, r.reason)
    && r.trials == seq(|ts|, i requires 0 <= i < |ts| => Listed(byID, ts[i]))
    && if Valid(ts, byID, plan.configs[0], plan.configs[1]) then IntervalFor(plan, ts, byID, r.interval)
       else r.interval == Interval(0, plan.seed, |FamilySet(ts)|, 0.0, InvalidInput)
  }

  // --------------------------------------------------------------------------- properties

  /** A pass needs every gate, and every gate met is a pass. */
  lemma PassIff(plan: Plan, ts: seq<Trial>, byID: map<string, Observation>, interval: Interval, v: Verdict, why: Reason)
    requires |plan.configs| == 2 && plan.delta.Margin? && May(plan, ts, byID, interval, v, why)
    ensures v == Pass <==>
      && Valid(ts, byID, plan.configs[0], plan.configs[1]) && !HardFail(ts, byID, plan.configs[0], plan.configs[1])
      && !SomeFloorUnset(plan, ts) && !SomeFloorMissed(plan, ts, byID)
      && interval.status.Estimated? && interval.status.lower >= -plan.delta.value
  {
  }

  /** What a pass says about the domain of each candidate trial. */
  lemma PassMeetsFloors(plan: Plan, ts: seq<Trial>, byID: map<string, Observation>, interval: Interval, why: Reason, i: nat)
    requires |plan.configs| == 2 && plan.delta.Margin? && May(plan, ts, byID, interval, Pass, why)
    requires i < |ts| && ts[i].configID == plan.configs[1]
    ensures FloorIsMet(ts, byID, plan.floors, plan.configs[1], ts[i].domain)
  {
    PassIff(plan, ts, byID, interval, Pass, why);
    var d := ts[i].domain;
    CountsMember(ts, plan.configs[1], i);
    assert !FloorIsUnset(ts, plan.floors, plan.configs[1], d) && !FloorIsMissed(ts, byID, plan.floors, plan.configs[1], d);
    MetIff(ts, byID, plan.floors, plan.configs[1], d);
  }

  /** The candidate's successes in a domain make up at least the demanded part of its trials there. */
  predicate FloorIsMet(ts: seq<Trial>, byID: map<string, Observation>, floors: map<string, real>, candidate: string, domain: string)
  {
    domain in floors
    && AtLeast(FloorSuccess(ts, byID, candidate, domain), FloorTotal(ts, candidate, domain), floors[domain])
  }

  predicate AtLeast(a: nat, n: nat, part: real)
  {
    a as real >= part * n as real
  }

  lemma MetIff(ts: seq<Trial>, byID: map<string, Observation>, floors: map<string, real>, candidate: string, domain: string)
    requires FloorTotal(ts, candidate, domain) > 0
    ensures FloorIsMet(ts, byID, floors, candidate, domain)
      <==> !FloorIsUnset(ts, floors, candidate, domain) && !FloorIsMissed(ts, byID, floors, candidate, domain)
  {
    if domain in floors {
      RatioBound(FloorSuccess(ts, byID, candidate, domain), FloorTotal(ts, candidate, domain), floors[domain]);
    }
  }

  /** What a pass says about the sample. */
  lemma PassSample(plan: Plan, ts: seq<Trial>, byID: map<string, Observation>, r: Report)
    requires |plan.configs| == 2 && plan.delta.Margin? && IsWord(plan.seed) && Decides(plan, ts, byID, r)
    requires r.verdict == Pass
    ensures |FamilySet(ts)| >= 20 && plan.repeats >= 3 && r.interval.status.Estimated?
    ensures -plan.delta.value <= r.interval.status.lower <= r.interval.status.upper <= 1.0
  {
    PassIff(plan, ts, byID, r.interval, r.verdict, r.reason);
    IntervalSample(plan, ts, byID, r.interval);
  }

  lemma RatioBound(a: nat, n: nat, floor: real)
    requires n > 0
    ensures RateBelow(a, n, floor) <==> !AtLeast(a, n, floor)
  {
    var q := a as real / n as real;
    assert q * n as real == a as real;
  }

  lemma {:induction false} CountsMember(ts: seq<Trial>, candidate: string, i: nat)
    requires i < |ts| && ts[i].configID == candidate
    ensures FloorTotal(ts, candidate, ts[i].domain) > 0
    decreases |ts|
  {
    if i < |ts| - 1 {
      CountsMember(ts[..|ts| - 1], candidate, i);
    }
  }

  lemma IntervalSample(plan: Plan, ts: seq<Trial>, byID: map<string, Observation>, r: Interval)
    requires |plan.configs| == 2 && Valid(ts, byID, plan.configs[0], plan.configs[1]) && IsWord(plan.seed)
    requires IntervalFor(plan, ts, byID, r) && r.status.Estimated?
    ensures |FamilySet(ts)| >= 20 && plan.repeats >= 3 && -1.0 <= r.status.lower <= r.status.upper <= 1.0
  {
    var cs :| ClustersOf(plan, ts, byID, cs) && Returns(cs, plan.repeats, plan.seed, r);
    EstimatedInterval(cs, plan.repeats, plan.seed, r);
    ClusterCount(plan, ts, byID, cs);
  }

  lemma ClusterCount(plan: Plan, ts: seq<Trial>, byID: map<string, Observation>, cs: seq<Cluster>)
    requires |plan.configs| == 2 && Valid(ts, byID, plan.configs[0], plan.configs[1]) && ClustersOf(plan, ts, byID, cs)
    ensures |cs| == |FamilySet(ts)|
  {
    DistinctCount(cs);
    assert Families(cs) == FamilySet(ts);
  }

  lemma FamiliesAppend(cs: seq<Cluster>, c: Cluster)
    ensures Families(cs + [c]) == Families(cs) + {c.family}
  {
    var more := cs + [c];
    assert more[|cs|] == c;
    forall f | f in Families(cs) ensures f in Families(more) {
      var k :| 0 <= k < |cs| && cs[k].family == f;
      assert more[k].family == f;
    }
  }

  lemma NewFamily(cs: seq<Cluster>)
    requires DistinctFamilies(cs) && cs != []
    ensures DistinctFamilies(cs[..|cs| - 1]) && cs[|cs| - 1].family !in Families(cs[..|cs| - 1])
  {
    var front := cs[..|cs| - 1];
    assert forall k :: 0 <= k < |front| ==> front[k] == cs[k];
  }

  lemma {:induction false} DistinctCount(cs: seq<Cluster>)
    requires DistinctFamilies(cs)
    ensures |Families(cs)| == |cs|
  {
    if cs == [] {
      assert Families(cs) == {};
    } else {
      var front, last := cs[..|cs| - 1], cs[|cs| - 1];
      NewFamily(cs);
      DistinctCount(front);
      FamiliesAppend(front, last);
      assert cs == front + [last];
      assert |Families(front) + {last.family}| == |Families(front)| + 1;
    }
  }

  /** The interval is a function of the trials and observations, whatever order the map yields the families in. */
  lemma IntervalUnique(plan: Plan, ts: seq<Trial>, byID: map<string, Observation>, a: Interval, b: Interval)
    requires |plan.configs| == 2 && Valid(ts, byID, plan.configs[0], plan.configs[1]) && IsWord(plan.seed)
    requires IntervalFor(plan, ts, byID, a) && IntervalFor(plan, ts, byID, b)
    ensures a == b
  {
    var ca :| ClustersOf(plan, ts, byID, ca) && Returns(ca, plan.repeats, plan.seed, a);
    var cb :| ClustersOf(plan, ts, byID, cb) && Returns(cb, plan.repeats, plan.seed, b);
    SameClusters(plan, ts, byID, ca, cb);
    OrderDoesNotMatter(ca, cb, plan.repeats, plan.seed, a, b);
  }

  lemma SameClusters(plan: Plan, ts: seq<Trial>, byID: map<string, Observation>, a: seq<Cluster>, b: seq<Cluster>)
    requires |plan.configs| == 2 && Valid(ts, byID, plan.configs[0], plan.configs[1])
    requires ClustersOf(plan, ts, byID, a) && ClustersOf(plan, ts, byID, b)
    ensures multiset(a) == multiset(b)
  {
    forall c: Cluster ensures multiset(a)[c] == multiset(b)[c] {
      AtMostOnce(a, c);
      AtMostOnce(b, c);
      if c in a {
        Contains(plan, ts, byID, a, b, c);
      } else if c in b {
        Contains(plan, ts, byID, b, a, c);
      }
    }
  }

  lemma Contains(plan: Plan, ts: seq<Trial>, byID: map<string, Observation>, a: seq<Cluster>, b: seq<Cluster>, c: Cluster)
    requires |plan.configs| == 2 && Valid(ts, byID, plan.configs[0], plan.configs[1])
    requires ClustersOf(plan, ts, byID, a) && ClustersOf(plan, ts, byID, b) && c in a
    ensures c in b
  {
    var i :| 0 <= i < |b| && b[i].family == c.family;
    assert b[i] == c;
  }

  /** Exactly when two runs on the same input may disagree: one floor is unset and another is missed. */
  lemma VerdictsDifferIff(plan: Plan, ts: seq<Trial>, byID: map<string, Observation>, interval: Interval)
    requires |plan.configs| == 2 && plan.delta.Margin?
    ensures (exists v, w, v', w' :: May(plan, ts, byID, interval, v, w) && May(plan, ts, byID, interval, v', w') && (v, w) != (v', w'))
      <==> Valid(ts, byID, plan.configs[0], plan.configs[1]) && !HardFail(ts, byID, plan.configs[0], plan.configs[1])
           && SomeFloorUnset(plan, ts) && SomeFloorMissed(plan, ts, byID)
  {
    if Valid(ts, byID, plan.configs[0], plan.configs[1]) && !HardFail(ts, byID, plan.configs[0], plan.configs[1])
       && SomeFloorUnset(plan, ts) && SomeFloorMissed(plan, ts, byID) {
      assert May(plan, ts, byID, interval, Inconclusive, FloorUnset) && May(plan, ts, byID, interval, Fail, BelowFloor);
    }
  }

  /** Every cluster difference is a mean of differences of zeros and ones, so only an empty domain can spoil the interval. */
  lemma ClusterInRange(ts: seq<Trial>, byID: map<string, Observation>, base: string, candidate: string, family: string)
    requires Balanced(ts, byID, base, candidate, family)
    ensures Acceptable(ClusterOf(ts, byID, base, candidate, family)) <==> LastDomain(ts, family) != ""
  {
    var a, b := Scores(ts, byID, family, base), Scores(ts, byID, family, candidate);
    ScoresAreBits(ts, byID, family, base);
    ScoresAreBits(ts, byID, family, candidate);
    DifferencesBound(a, b);
    MeanBound(Differences(a, b), |a|);
  }

  lemma MeanBound(sum: real, n: nat)
    requires n > 0 && -(n as real) <= sum <= n as real
    ensures -1.0 <= sum / n as real <= 1.0
  {
    assert (sum / n as real) * n as real == sum;
  }

  predicate Bits(s: seq<real>)
  {
    forall i :: 0 <= i < |s| ==> 0.0 <= s[i] <= 1.0
  }

  lemma {:induction false} ScoresAreBits(ts: seq<Trial>, byID: map<string, Observation>, family: string, config: string)
    ensures Bits(Scores(ts, byID, family, config))
    decreases |ts|
  {
    if ts != [] {
      ScoresAreBits(ts[..|ts| - 1], byID, family, config);
    }
  }

  lemma {:induction false} DifferencesBound(a: seq<real>, b: seq<real>)
    requires |a| == |b| && Bits(a) && Bits(b)
    ensures -(|a| as real) <= Differences(a, b) <= |a| as real
  {
    if a != [] {
      DifferencesBound(a[..|a| - 1], b[..|b| - 1]);
    }
  }

  lemma InvalidIntervalIff(plan: Plan, ts: seq<Trial>, byID: map<string, Observation>, r: Interval)
    requires |plan.configs| == 2 && Valid(ts, byID, plan.configs[0], plan.configs[1]) && IsWord(plan.seed)
    requires IntervalFor(plan, ts, byID, r)
    ensures r.status.InvalidInput? <==> exists f: string :: f in FamilySet(ts) && LastDomain(ts, f) == ""
  {
    var base, candidate := plan.configs[0], plan.configs[1];
    var cs: seq<Cluster> :| ClustersOf(plan, ts, byID, cs) && Returns(cs, plan.repeats, plan.seed, r);
    InvalidIff(cs, plan.repeats, plan.seed, r);
    if f: string :| f in FamilySet(ts) && LastDomain(ts, f) == "" {
      var i :| 0 <= i < |cs| && cs[i].family == f;
      ClusterInRange(ts, byID, base, candidate, f);
      assert !Acceptable(cs[i]);
    } else {
      forall i | 0 <= i < |cs| ensures Acceptable(cs[i]) {
        ClusterInRange(ts, byID, base, candidate, cs[i].family);
      }
    }
  }

  // ------------------------------------------------------------- a pass, by the observations

  predicate Observes(obs: seq<Observation>, id: string, o: Observation)
  {
    o in obs && o.trialID == id
  }

  /** The trial was observed to end as a release demands, and the observation does not count against the candidate. */
  ghost predicate TrialPasses(obs: seq<Observation>, candidate: string, t: Trial)
  {
    exists o :: Observes(obs, t.id, o)
      && o.state == "completed" && o.verified && o.cleanup == "complete"
      && (t.configID == candidate ==> o.illegalEffects <= 0 && (t.required ==> o.success))
  }

  ghost predicate Succeeds(obs: seq<Observation>, t: Trial)
  {
    exists o :: Observes(obs, t.id, o) && o.state == "completed" && o.verified && o.cleanup == "complete" && o.success
  }

  /** No later trial of the same configuration has the same entry and repeat. */
  predicate IsLast(ts: seq<Trial>, i: nat)
    requires i < |ts|
  {
    forall j :: i < j < |ts| && KeyOf(ts[j]) == KeyOf(ts[i]) ==> ts[j].configID != ts[i].configID
  }

  /** Policy failures of a candidate trial are matched by the baseline trial of the same entry and repeat. */
  ghost predicate Matched(ts: seq<Trial>, obs: seq<Observation>, base: string, i: nat)
    requires i < |ts|
  {
    forall o :: Observes(obs, ts[i].id, o) && o.policyFailures > 0 ==>
      exists j, b :: 0 <= j < |ts| && IsLast(ts, j) && ts[j].configID == base && KeyOf(ts[j]) == KeyOf(ts[i])
                     && Observes(obs, ts[j].id, b) && o.policyFailures <= b.policyFailures
  }

  function TrialsOf(ts: seq<Trial>, family: string, config: string): set<nat>
  {
    set i: nat | i < |ts| && ts[i].familyID == family && ts[i].configID == config
  }

  function TrialsIn(ts: seq<Trial>, config: string, domain: string): set<nat>
  {
    set i: nat | i < |ts| && ts[i].configID == config && ts[i].domain == domain
  }

  ghost function SuccessesIn(ts: seq<Trial>, obs: seq<Observation>, config: string, domain: string): set<nat>
  {
    set i: nat | i < |ts| && ts[i].configID == config && ts[i].domain == domain && Succeeds(obs, ts[i])
  }

  ghost predicate FloorReached(ts: seq<Trial>, obs: seq<Observation>, floors: map<string, real>, config: string, domain: string)
  {
    domain in floors && AtLeast(|SuccessesIn(ts, obs, config, domain)|, |TrialsIn(ts, config, domain)|, floors[domain])
  }

  ghost predicate AllTrialsPass(ts: seq<Trial>, obs: seq<Observation>, candidate: string)
  {
    forall i :: 0 <= i < |ts| ==> TrialPasses(obs, candidate, ts[i])
  }

  predicate EvenFamilies(ts: seq<Trial>, base: string, candidate: string)
  {
    forall i :: 0 <= i < |ts| ==> 0 < |TrialsOf(ts, ts[i].familyID, base)| == |TrialsOf(ts, ts[i].familyID, candidate)|
  }

  ghost predicate AllMatched(ts: seq<Trial>, obs: seq<Observation>, base: string, candidate: string)
  {
    forall i :: 0 <= i < |ts| && ts[i].configID == candidate && IsLast(ts, i) ==> Matched(ts, obs, base, i)
  }

  ghost predicate AllFloorsReached(ts: seq<Trial>, obs: seq<Observation>, floors: map<string, real>, candidate: string)
  {
    forall i :: 0 <= i < |ts| && ts[i].configID == candidate ==> FloorReached(ts, obs, floors, candidate, ts[i].domain)
  }

  /**
   What a pass demands of the observations and the interval: every planned trial observed as completed, verified and cleaned
   up, without illegal effects of the candidate and with success where required; as many trials of both configurations in each
   family; no policy failure of the candidate that its baseline trial does not match; every floor reached; an estimated interval
   whose lower end is at least -delta.
   */
  ghost predicate Passes(plan: Plan, ts: seq<Trial>, obs: seq<Observation>, interval: Interval)
    requires |plan.configs| == 2 && plan.delta.Margin?
  {
    var base, candidate := plan.configs[0], plan.configs[1];
    && AllTrialsPass(ts, obs, candidate) && EvenFamilies(ts, base, candidate) && AllMatched(ts, obs, base, candidate)
    && AllFloorsReached(ts, obs, plan.floors, candidate)
    && interval.status.Estimated? && interval.status.lower >= -plan.delta.value
  }

  lemma ObservesIsIndexed(obs: seq<Observation>, byID: map<string, Observation>, id: string, o: Observation)
    requires Indexes(byID, obs)
    ensures Observes(obs, id, o) <==> id in byID && byID[id] == o
  {
    if id in byID {
      var i :| 0 <= i < |obs| && obs[i].trialID == id;
      assert byID[obs[i].trialID] == obs[i];
    }
    if Observes(obs, id, o) {
      var i :| 0 <= i < |obs| && obs[i] == o;
    }
  }

  lemma TrialPassesIff(obs: seq<Observation>, byID: map<string, Observation>, candidate: string, t: Trial)
    requires Indexes(byID, obs)
    ensures TrialPasses(obs, candidate, t) <==> Scorable(byID, t) && !Breaks(byID, candidate, t)
    ensures Succeeds(obs, t) <==> Success(byID, t)
  {
    hide Indexes;
    forall o ensures Observes(obs, t.id, o) <==> t.id in byID && byID[t.id] == o {
      ObservesIsIndexed(obs, byID, t.id, o);
    }
    if t.id in byID {
      assert Observes(obs, t.id, byID[t.id]);
    }
  }

  lemma {:induction false} ScoresCount(ts: seq<Trial>, byID: map<string, Observation>, family: string, config: string)
    ensures |Scores(ts, byID, family, config)| == |TrialsOf(ts, family, config)|
    decreases |ts|
  {
    if ts == [] {
      assert TrialsOf(ts, family, config) == {};
    } else {
      var n := |ts| - 1;
      ScoresCount(ts[..n], byID, family, config);
      TrialsOfLast(ts, family, config);
    }
  }

  lemma TrialsOfLast(ts: seq<Trial>, family: string, config: string)
    requires ts != []
    ensures var n := |ts| - 1;
      |TrialsOf(ts, family, config)|
      == |TrialsOf(ts[..n], family, config)| + (if ts[n].familyID == family && ts[n].configID == config then 1 else 0)
  {
    var n := |ts| - 1;
    var counts := ts[n].familyID == family && ts[n].configID == config;
    var all, before := TrialsOf(ts, family, config), TrialsOf(ts[..n], family, config);
    forall i: nat ensures i in all <==> i in before || (counts && i == n) {
      assert i < n ==> ts[..n][i] == ts[i];
    }
    OneMore(all, before, n, counts);
  }

  lemma OneMore(all: set<nat>, before: set<nat>, n: nat, counts: bool)
    requires n !in before && forall i: nat :: i in all <==> i in before || (counts && i == n)
    ensures |all| == |before| + (if counts then 1 else 0)
  {
    assert all == before + (if counts then {n} else {});
  }

  lemma {:induction false} FloorCounts(ts: seq<Trial>, obs: seq<Observation>, byID: map<string, Observation>, config: string, domain: string)
    requires Indexes(byID, obs)
    ensures FloorTotal(ts, config, domain) == |TrialsIn(ts, config, domain)|
    ensures FloorSuccess(ts, byID, config, domain) == |SuccessesIn(ts, obs, config, domain)|
    decreases |ts|
  {
    if ts == [] {
      assert TrialsIn(ts, config, domain) == {} && SuccessesIn(ts, obs, config, domain) == {};
    } else {
      var n := |ts| - 1;
      FloorCounts(ts[..n], obs, byID, config, domain);
      TrialPassesIff(obs, byID, config, ts[n]);
      LastIn(ts, obs, config, domain);
    }
  }

  lemma LastIn(ts: seq<Trial>, obs: seq<Observation>, config: string, domain: string)
    requires ts != []
    ensures var n, t := |ts| - 1, ts[|ts| - 1]; var counts := t.configID == config && t.domain == domain;
      && |TrialsIn(ts, config, domain)| == |TrialsIn(ts[..n], config, domain)| + (if counts then 1 else 0)
      && |SuccessesIn(ts, obs, config, domain)| == |SuccessesIn(ts[..n], obs, config, domain)| + (if counts && Succeeds(obs, t) then 1 else 0)
  {
    TrialsInLast(ts, config, domain);
    SuccessesInLast(ts, obs, config, domain);
  }

  lemma TrialsInLast(ts: seq<Trial>, config: string, domain: string)
    requires ts != []
    ensures var n, t := |ts| - 1, ts[|ts| - 1];
      |TrialsIn(ts, config, domain)| == |TrialsIn(ts[..n], config, domain)| + (if t.configID == config && t.domain == domain then 1 else 0)
  {
    var n, t := |ts| - 1, ts[|ts| - 1];
    var counts := t.configID == config && t.domain == domain;
    var all, before := TrialsIn(ts, config, domain), TrialsIn(ts[..n], config, domain);
    forall i: nat ensures i in all <==> i in before || (counts && i == n) {
      assert i < n ==> ts[..n][i] == ts[i];
    }
    OneMore(all, before, n, counts);
  }

  lemma SuccessesInLast(ts: seq<Trial>, obs: seq<Observation>, config: string, domain: string)
    requires ts != []
    ensures var n, t := |ts| - 1, ts[|ts| - 1];
      |SuccessesIn(ts, obs, config, domain)|
      == |SuccessesIn(ts[..n], obs, config, domain)| + (if t.configID == config && t.domain == domain && Succeeds(obs, t) then 1 else 0)
  {
    hide Succeeds;
    var n, t := |ts| - 1, ts[|ts| - 1];
    var counts := t.configID == config && t.domain == domain && Succeeds(obs, t);
    var all, before := SuccessesIn(ts, obs, config, domain), SuccessesIn(ts[..n], obs, config, domain);
    forall i: nat ensures i in all <==> i in before || (counts && i == n) {
      assert i < n ==> ts[..n][i] == ts[i];
    }
    OneMore(all, before, n, counts);
  }

  /** A pair holds, for a configuration, the observation of its last trial with that key, or nothing. */
  lemma {:induction false} PairedIsLast(ts: seq<Trial>, byID: map<string, Observation>, key: Key, config: string) returns (i: nat, found: bool)
    ensures found ==> i < |ts| && KeyOf(ts[i]) == key && ts[i].configID == config && IsLast(ts, i)
                      && Paired(ts, byID, key, config) == ObservationOf(byID, ts[i].id)
    ensures !found ==> Paired(ts, byID, key, config) == NOTHING
                       && forall j :: 0 <= j < |ts| && KeyOf(ts[j]) == key ==> ts[j].configID != config
    decreases |ts|
  {
    hide KeyOf;
    i, found := 0, false;
    if ts != [] {
      var n := |ts| - 1;
      if KeyOf(ts[n]) == key && ts[n].configID == config {
        i, found := n, true;
      } else {
        i, found := PairedIsLast(ts[..n], byID, key, config);
        assert forall j :: 0 <= j < n ==> ts[..n][j] == ts[j];
      }
    }
  }

  lemma LastIsPaired(ts: seq<Trial>, byID: map<string, Observation>, i: nat)
    requires i < |ts| && IsLast(ts, i)
    ensures Paired(ts, byID, KeyOf(ts[i]), ts[i].configID) == ObservationOf(byID, ts[i].id)
  {
    hide KeyOf, ObservationOf;
    var k, found := PairedIsLast(ts, byID, KeyOf(ts[i]), ts[i].configID);
    assert found && k == i;
  }

  /** The matched pairs add no failures exactly when each last candidate trial is matched. */
  lemma MatchedIff(ts: seq<Trial>, obs: seq<Observation>, byID: map<string, Observation>, base: string, candidate: string, i: nat)
    requires EvidenceOk(ts, obs) && Indexes(byID, obs) && i < |ts| && IsLast(ts, i) && ts[i].configID == candidate
    requires forall j :: 0 <= j < |ts| ==> ts[j].id in byID
    ensures Matched(ts, obs, base, i) <==> !AddsFailures(ts, byID, base, candidate, KeyOf(ts[i]))
  {
    hide KeyOf, IsLast, Indexes, EvidenceOk;
    var key := KeyOf(ts[i]);
    var o := byID[ts[i].id];
    LastIsPaired(ts, byID, i);
    ObservesIsIndexed(obs, byID, ts[i].id, o);
    CountsAreNatural(ts, obs, byID, ts[i].id);
    var k, found := PairedIsLast(ts, byID, key, base);
    if found {
      CountsAreNatural(ts, obs, byID, ts[k].id);
      ObservesIsIndexed(obs, byID, ts[k].id, byID[ts[k].id]);
    }
    if !AddsFailures(ts, byID, base, candidate, key) {
      forall o' | Observes(obs, ts[i].id, o') ensures o' == o {
        ObservesIsIndexed(obs, byID, ts[i].id, o');
      }
    } else if Matched(ts, obs, base, i) {
      var j, b :| 0 <= j < |ts| && IsLast(ts, j) && ts[j].configID == base && KeyOf(ts[j]) == key
                  && Observes(obs, ts[j].id, b) && o.policyFailures <= b.policyFailures;
      LastIsPaired(ts, byID, j);
      ObservesIsIndexed(obs, byID, ts[j].id, b);
    }
  }

  lemma CountsAreNatural(ts: seq<Trial>, obs: seq<Observation>, byID: map<string, Observation>, id: string)
    requires EvidenceOk(ts, obs) && Indexes(byID, obs) && id in byID
    ensures byID[id].policyFailures >= 0
  {
    var i :| 0 <= i < |obs| && obs[i].trialID == id;
    assert Admissible(ts, obs[i]);
  }

  lemma FloorReachedIff(plan: Plan, ts: seq<Trial>, obs: seq<Observation>, byID: map<string, Observation>, domain: string)
    requires |plan.configs| == 2 && Indexes(byID, obs) && FloorTotal(ts, plan.configs[1], domain) > 0
    ensures FloorReached(ts, obs, plan.floors, plan.configs[1], domain)
      <==> !FloorIsUnset(ts, plan.floors, plan.configs[1], domain) && !FloorIsMissed(ts, byID, plan.floors, plan.configs[1], domain)
  {
    FloorCounts(ts, obs, byID, plan.configs[1], domain);
    MetIff(ts, byID, plan.floors, plan.configs[1], domain);
    hide FloorTotal, FloorSuccess, SuccessesIn, TrialsIn, Indexes, AtLeast, RateBelow;
  }

  /** Floors in force are the floors of the domains of the candidate's trials. */
  lemma FloorsReachedIff(plan: Plan, ts: seq<Trial>, obs: seq<Observation>, byID: map<string, Observation>)
    requires |plan.configs| == 2 && Indexes(byID, obs)
    ensures AllFloorsReached(ts, obs, plan.floors, plan.configs[1])
      <==> !SomeFloorUnset(plan, ts) && !SomeFloorMissed(plan, ts, byID)
  {
    hide FloorReached, Indexes, FloorSuccess, RateBelow;
    var candidate := plan.configs[1];
    forall i | 0 <= i < |ts| && ts[i].configID == candidate
      ensures FloorTotal(ts, candidate, ts[i].domain) > 0
      ensures FloorReached(ts, obs, plan.floors, candidate, ts[i].domain)
        <==> !FloorIsUnset(ts, plan.floors, candidate, ts[i].domain) && !FloorIsMissed(ts, byID, plan.floors, candidate, ts[i].domain)
    {
      CountsMember(ts, candidate, i);
      FloorReachedIff(plan, ts, obs, byID, ts[i].domain);
    }
    forall d | FloorTotal(ts, candidate, d) > 0 ensures exists i :: 0 <= i < |ts| && ts[i].configID == candidate && ts[i].domain == d {
      var i := CountedMember(ts, candidate, d);
    }
  }

  lemma {:induction false} CountedMember(ts: seq<Trial>, candidate: string, d: string) returns (i: nat)
    requires FloorTotal(ts, candidate, d) > 0
    ensures i < |ts| && ts[i].configID == candidate && ts[i].domain == d
    decreases |ts|
  {
    var last := |ts| - 1;
    if ts[last].configID == candidate && ts[last].domain == d {
      i := last;
    } else {
      i := CountedMember(ts[..last], candidate, d);
    }
  }

  /** Whether any pair adds failures can be read off the last candidate trial of each pair. */
  lemma NoAddedFailuresIff(ts: seq<Trial>, obs: seq<Observation>, byID: map<string, Observation>, base: string, candidate: string)
    requires EvidenceOk(ts, obs) && Indexes(byID, obs) && forall j :: 0 <= j < |ts| ==> ts[j].id in byID
    ensures (forall i :: 0 <= i < |ts| ==> !AddsFailures(ts, byID, base, candidate, KeyOf(ts[i]))) <==> AllMatched(ts, obs, base, candidate)
  {
    forall i | 0 <= i < |ts| && ts[i].configID == candidate && IsLast(ts, i)
      ensures Matched(ts, obs, base, i) <==> !AddsFailures(ts, byID, base, candidate, KeyOf(ts[i]))
    {
      MatchedIff(ts, obs, byID, base, candidate, i);
    }
    hide Matched, KeyOf, IsLast, EvidenceOk, Indexes, AddsFailures;
    if i :| 0 <= i < |ts| && AddsFailures(ts, byID, base, candidate, KeyOf(ts[i])) {
      var k := AddsAtLast(ts, obs, byID, base, candidate, KeyOf(ts[i]));
      assert !Matched(ts, obs, base, k);
    }
  }

  lemma AddsAtLast(ts: seq<Trial>, obs: seq<Observation>, byID: map<string, Observation>, base: string, candidate: string, key: Key)
    returns (k: nat)
    requires EvidenceOk(ts, obs) && Indexes(byID, obs) && AddsFailures(ts, byID, base, candidate, key)
    requires forall j :: 0 <= j < |ts| ==> ts[j].id in byID
    ensures k < |ts| && ts[k].configID == candidate && IsLast(ts, k) && KeyOf(ts[k]) == key
  {
    hide KeyOf, IsLast, EvidenceOk, Indexes;
    var i, found := PairedIsLast(ts, byID, key, candidate);
    var j, other := PairedIsLast(ts, byID, key, base);
    if other {
      CountsAreNatural(ts, obs, byID, ts[j].id);
    }
    k := i;
  }

  lemma EvenIffBalanced(ts: seq<Trial>, byID: map<string, Observation>, base: string, candidate: string)
    ensures EvenFamilies(ts, base, candidate) <==> forall f :: f in FamilySet(ts) ==> Balanced(ts, byID, base, candidate, f)
  {
    hide Scores, TrialsOf;
    forall f ensures Balanced(ts, byID, base, candidate, f) <==> 0 < |TrialsOf(ts, f, base)| == |TrialsOf(ts, f, candidate)| {
      ScoresCount(ts, byID, f, base);
      ScoresCount(ts, byID, f, candidate);
    }
    forall i | 0 <= i < |ts| ensures ts[i].familyID in FamilySet(ts) {
    }
  }

  lemma TrialsPassIff(ts: seq<Trial>, obs: seq<Observation>, byID: map<string, Observation>, candidate: string)
    requires Indexes(byID, obs)
    ensures AllTrialsPass(ts, obs, candidate)
      <==> forall i :: 0 <= i < |ts| ==> Scorable(byID, ts[i]) && !Breaks(byID, candidate, ts[i])
  {
    forall i | 0 <= i < |ts| ensures TrialPasses(obs, candidate, ts[i]) <==> Scorable(byID, ts[i]) && !Breaks(byID, candidate, ts[i]) {
      TrialPassesIff(obs, byID, candidate, ts[i]);
    }
    hide TrialPasses, Scorable, Breaks, Indexes;
  }

  lemma HardFailIff(ts: seq<Trial>, obs: seq<Observation>, byID: map<string, Observation>, base: string, candidate: string)
    requires EvidenceOk(ts, obs) && Indexes(byID, obs)
    ensures AllTrialsPass(ts, obs, candidate) && EvenFamilies(ts, base, candidate) && AllMatched(ts, obs, base, candidate)
      <==> Valid(ts, byID, base, candidate) && !HardFail(ts, byID, base, candidate)
  {
    hide AllTrialsPass, EvenFamilies, AllMatched, Balanced, Breaks, AddsFailures, Indexes, EvidenceOk;
    TrialsPassIff(ts, obs, byID, candidate);
    EvenIffBalanced(ts, byID, base, candidate);
    if forall i :: 0 <= i < |ts| ==> Scorable(byID, ts[i]) {
      NoAddedFailuresIff(ts, obs, byID, base, candidate);
    }
  }

  /** The verdict is a pass exactly when the observations and the interval meet every demand. */
  lemma PassesIff(plan: Plan, ts: seq<Trial>, obs: seq<Observation>, byID: map<string, Observation>, interval: Interval, v: Verdict, why: Reason)
    requires |plan.configs| == 2 && plan.delta.Margin? && May(plan, ts, byID, interval, v, why)
    requires EvidenceOk(ts, obs) && Indexes(byID, obs)
    ensures v == Pass <==> Passes(plan, ts, obs, interval)
  {
    hide AllTrialsPass, EvenFamilies, AllMatched, AllFloorsReached, Valid, HardFail, May, SomeFloorUnset, SomeFloorMissed, Indexes, EvidenceOk;
    PassIff(plan, ts, byID, interval, v, why);
    HardFailIff(ts, obs, byID, plan.configs[0], plan.configs[1]);
    FloorsReachedIff(plan, ts, obs, byID);
  }

  // ------------------------------------------------------------ two verdicts on one input

  const SPLIT_PLAN := Plan(["b", "c"], Margin(0.0), map["y" := 1.0], 1, 0)

  const SPLIT_TRIALS := [
    Trial("1", "e", "f", "x", "b", 1, false), Trial("2", "e", "f", "x", "c", 1, false),
    Trial("3", "d", "g", "y", "b", 1, false), Trial("4", "d", "g", "y", "c", 1, false)]

  function Unsuccessful(id: string): Observation
  {
    Observation(id, "completed", true, "complete", false, 0, 0, 0)
  }

  const SPLIT_OBS := [Unsuccessful("1"), Unsuccessful("2"), Unsuccessful("3"), Unsuccessful("4")]

  const SPLIT_INDEX := map["1" := Unsuccessful("1"), "2" := Unsuccessful("2"), "3" := Unsuccessful("3"), "4" := Unsuccessful("4")]

  /** An input on which both verdicts are possible: domain x has no floor, and domain y misses its own. */
  lemma VerdictsDiffer(interval: Interval)
    ensures EvidenceOk(SPLIT_TRIALS, SPLIT_OBS) && Indexes(SPLIT_INDEX, SPLIT_OBS)
    ensures May(SPLIT_PLAN, SPLIT_TRIALS, SPLIT_INDEX, interval, Inconclusive, FloorUnset)
    ensures May(SPLIT_PLAN, SPLIT_TRIALS, SPLIT_INDEX, interval, Fail, BelowFloor)
  {
    SplitEvidence();
    SplitIsValid();
    SplitFloors();
    hide EvidenceOk, Indexes, Valid, HardFail;
  }

  lemma SplitNames(i: nat, j: nat)
    requires i < 4 && j < 4
    ensures SPLIT_OBS[i].trialID == SPLIT_TRIALS[i].id && SPLIT_OBS[i] == Unsuccessful(SPLIT_OBS[i].trialID)
    ensures i != j ==> SPLIT_OBS[i].trialID != SPLIT_OBS[j].trialID
    ensures SPLIT_OBS[i].trialID in SPLIT_INDEX && SPLIT_INDEX[SPLIT_OBS[i].trialID] == SPLIT_OBS[i]
  {
    assert |SPLIT_OBS[i].trialID| == 1 && |SPLIT_OBS[j].trialID| == 1;
    assert i != j ==> SPLIT_OBS[i].trialID[0] != SPLIT_OBS[j].trialID[0];
  }

  lemma SplitEvidence()
    ensures EvidenceOk(SPLIT_TRIALS, SPLIT_OBS) && Indexes(SPLIT_INDEX, SPLIT_OBS)
  {
    forall i, j | 0 <= i < 4 && 0 <= j < 4 ensures i != j ==> SPLIT_OBS[i].trialID != SPLIT_OBS[j].trialID {
      SplitNames(i, j);
    }
    forall i | 0 <= i < 4
      ensures Admissible(SPLIT_TRIALS, SPLIT_OBS[i])
      ensures SPLIT_OBS[i].trialID in SPLIT_INDEX && SPLIT_INDEX[SPLIT_OBS[i].trialID] == SPLIT_OBS[i]
    {
      SplitNames(i, i);
      assert SPLIT_TRIALS[i].id == SPLIT_OBS[i].trialID;
    }
    forall id | id in SPLIT_INDEX ensures exists i :: 0 <= i < 4 && SPLIT_OBS[i].trialID == id {
      SplitIndex(id);
    }
  }

  lemma SplitIndex(id: string)
    requires id in SPLIT_INDEX
    ensures exists i :: 0 <= i < 4 && SPLIT_OBS[i].trialID == id
  {
    var i := if id == "1" then 0 else if id == "2" then 1 else if id == "3" then 2 else 3;
    assert SPLIT_OBS[i].trialID == id;
  }

  lemma SplitScores(family: string, config: string)
    requires family in {"f", "g"} && config in {"b", "c"}
    ensures |Scores(SPLIT_TRIALS, SPLIT_INDEX, family, config)| == 1
  {
    ScoresCount(SPLIT_TRIALS, SPLIT_INDEX, family, config);
    var i := (if family == "f" then 0 else 2) + (if config == "b" then 0 else 1);
    assert TrialsOf(SPLIT_TRIALS, family, config) == {i};
  }

  lemma SplitIsValid()
    ensures Valid(SPLIT_TRIALS, SPLIT_INDEX, "b", "c") && !HardFail(SPLIT_TRIALS, SPLIT_INDEX, "b", "c")
  {
    forall f | f in FamilySet(SPLIT_TRIALS) ensures Balanced(SPLIT_TRIALS, SPLIT_INDEX, "b", "c", f) {
      SplitScores(f, "b");
      SplitScores(f, "c");
    }
    forall key ensures !AddsFailures(SPLIT_TRIALS, SPLIT_INDEX, "b", "c", key) {
      var i, found := PairedIsLast(SPLIT_TRIALS, SPLIT_INDEX, key, "c");
      var j, other := PairedIsLast(SPLIT_TRIALS, SPLIT_INDEX, key, "b");
    }
  }

  lemma SplitFloors()
    ensures SomeFloorUnset(SPLIT_PLAN, SPLIT_TRIALS) && SomeFloorMissed(SPLIT_PLAN, SPLIT_TRIALS, SPLIT_INDEX)
  {
    assert SPLIT_PLAN.configs[1] == "c";
    CountsMember(SPLIT_TRIALS, "c", 1);
    assert SPLIT_TRIALS[1].domain == "x" && "x" !in SPLIT_PLAN.floors;
    assert FloorIsUnset(SPLIT_TRIALS, SPLIT_PLAN.floors, "c", "x");
    SplitCounts();
    assert FloorIsMissed(SPLIT_TRIALS, SPLIT_INDEX, SPLIT_PLAN.floors, "c", "y");
  }

  lemma SplitCounts()
    ensures FloorTotal(SPLIT_TRIALS, "c", "y") == 1 && FloorSuccess(SPLIT_TRIALS, SPLIT_INDEX, "c", "y") == 0
  {
    hide FloorTotal, FloorSuccess, EvidenceOk, Indexes;
    SplitEvidence();
    FloorCounts(SPLIT_TRIALS, SPLIT_OBS, SPLIT_INDEX, "c", "y");
    assert TrialsIn(SPLIT_TRIALS, "c", "y") == {3};
    forall o | o in SPLIT_OBS ensures !o.success {
      var i :| 0 <= i < 4 && SPLIT_OBS[i] == o;
      SplitNames(i, i);
    }
    assert SuccessesIn(SPLIT_TRIALS, SPLIT_OBS, "c", "y") == {};
  }
}
