/** The statements of Decide: one pass over the observations, two over the trials, and walks over maps. */
module Deciding {
  import opened Text
  import opened SplitMix
  import opened Bootstrap
  import opened Decision
  import opened Verdicts

  // ------------------------------------------------------------------- loop summaries

  function Row(family: map<string, map<string, seq<real>>>, f: string, c: string): seq<real>
  {
    if f in family && c in family[f] then family[f][c] else []
  }

  ghost predicate FamiliesTallied(family: map<string, map<string, seq<real>>>, ts: seq<Trial>, byID: map<string, Observation>)
  {
    family.Keys == FamilySet(ts) && forall f, c :: Row(family, f, c) == Scores(ts, byID, f, c)
  }

  function Domain(domains: map<string, string>, f: string): string
  {
    if f in domains then domains[f] else ""
  }

  ghost predicate DomainsTallied(domains: map<string, string>, ts: seq<Trial>)
  {
    forall f :: Domain(domains, f) == LastDomain(ts, f)
  }

  function Count(counts: map<string, nat>, d: string): nat
  {
    if d in counts then counts[d] else 0
  }

  ghost predicate FloorsTallied(total: map<string, nat>, success: map<string, nat>, ts: seq<Trial>,
                                byID: map<string, Observation>, candidate: string)
  {
    && (forall d :: d in total ==> total[d] > 0)
    && (forall d :: Count(total, d) == FloorTotal(ts, candidate, d))
    && forall d :: Count(success, d) == FloorSuccess(ts, byID, candidate, d)
  }

  function PairOf(pairs: map<Key, map<string, Observation>>, k: Key, c: string): Observation
  {
    if k in pairs && c in pairs[k] then pairs[k][c] else NOTHING
  }

  function KeySet(ts: seq<Trial>): set<Key>
  {
    set i | 0 <= i < |ts| :: KeyOf(ts[i])
  }

  ghost predicate PairsTallied(pairs: map<Key, map<string, Observation>>, ts: seq<Trial>, byID: map<string, Observation>)
  {
    pairs.Keys == KeySet(ts) && forall k, c :: PairOf(pairs, k, c) == Paired(ts, byID, k, c)
  }

  // -------------------------------------------------------------------- one step of each

  /** Replacing one row leaves the others. */
  lemma RowUpdate(family: map<string, map<string, seq<real>>>, f0: string, c0: string, row: seq<real>, f: string, c: string)
    ensures var rows := if f0 in family then family[f0] else map[];
      Row(family[f0 := rows[c0 := row]], f, c) == if f == f0 && c == c0 then row else Row(family, f, c)
  {
  }

  lemma FamiliesStep(family: map<string, map<string, seq<real>>>, ts: seq<Trial>, byID: map<string, Observation>, t: Trial)
    requires FamiliesTallied(family, ts, byID)
    ensures var v := if Success(byID, t) then 1.0 else 0.0;
      var rows := if t.familyID in family then family[t.familyID] else map[];
      FamiliesTallied(family[t.familyID := rows[t.configID := Row(family, t.familyID, t.configID) + [v]]], ts + [t], byID)
  {
    var rows := if t.familyID in family then family[t.familyID] else map[];
    var v := if Success(byID, t) then 1.0 else 0.0;
    var row := Row(family, t.familyID, t.configID) + [v];
    var next := family[t.familyID := rows[t.configID := row]];
    forall f, c ensures Row(next, f, c) == Scores(ts + [t], byID, f, c) {
      RowUpdate(family, t.familyID, t.configID, row, f, c);
      ScoresStep(ts, byID, t, f, c);
      assert Row(family, f, c) == Scores(ts, byID, f, c);
    }
    FamilySetAppend(ts, t);
  }

  lemma ScoresStep(ts: seq<Trial>, byID: map<string, Observation>, t: Trial, f: string, c: string)
    ensures Scores(ts + [t], byID, f, c) == Scores(ts, byID, f, c)
      + (if t.familyID == f && t.configID == c then [if Success(byID, t) then 1.0 else 0.0] else [])
  {
    var more := ts + [t];
    assert more[..|ts|] == ts && more[|ts|] == t;
  }

  lemma FamilySetAppend(ts: seq<Trial>, t: Trial)
    ensures FamilySet(ts + [t]) == FamilySet(ts) + {t.familyID}
  {
    var more := ts + [t];
    assert more[|ts|] == t;
    forall f | f in FamilySet(ts) ensures f in FamilySet(more) {
      var i :| 0 <= i < |ts| && ts[i].familyID == f;
      assert more[i].familyID == f;
    }
  }

  lemma DomainsStep(domains: map<string, string>, ts: seq<Trial>, t: Trial)
    requires DomainsTallied(domains, ts)
    ensures DomainsTallied(domains[t.familyID := t.domain], ts + [t])
  {
    var more := ts + [t];
    assert more[..|ts|] == ts && more[|ts|] == t;
    forall f ensures Domain(domains[t.familyID := t.domain], f) == LastDomain(more, f) {
      assert Domain(domains, f) == LastDomain(ts, f);
    }
  }

  lemma FloorsStep(total: map<string, nat>, success: map<string, nat>, ts: seq<Trial>, byID: map<string, Observation>,
                   candidate: string, t: Trial)
    requires FloorsTallied(total, success, ts, byID, candidate)
    ensures var total' := if t.configID == candidate then total[t.domain := Count(total, t.domain) + 1] else total;
      var success' := if t.configID == candidate && Success(byID, t) then success[t.domain := Count(success, t.domain) + 1] else success;
      FloorsTallied(total', success', ts + [t], byID, candidate)
  {
    var total' := if t.configID == candidate then total[t.domain := Count(total, t.domain) + 1] else total;
    var success' := if t.configID == candidate && Success(byID, t) then success[t.domain := Count(success, t.domain) + 1] else success;
    var more := ts + [t];
    assert more[..|ts|] == ts && more[|ts|] == t;
    forall d ensures Count(total', d) == FloorTotal(more, candidate, d) {
      assert Count(total, d) == FloorTotal(ts, candidate, d);
    }
    forall d ensures Count(success', d) == FloorSuccess(more, byID, candidate, d) {
      assert Count(success, d) == FloorSuccess(ts, byID, candidate, d);
    }
  }

  lemma PairsStep(pairs: map<Key, map<string, Observation>>, ts: seq<Trial>, byID: map<string, Observation>, t: Trial)
    requires PairsTallied(pairs, ts, byID)
    ensures var k := KeyOf(t);
      var pair := if k in pairs then pairs[k] else map[];
      PairsTallied(pairs[k := pair[t.configID := ObservationOf(byID, t.id)]], ts + [t], byID)
  {
    var key := KeyOf(t);
    var pair := if key in pairs then pairs[key] else map[];
    var next := pairs[key := pair[t.configID := ObservationOf(byID, t.id)]];
    var more := ts + [t];
    assert more[..|ts|] == ts && more[|ts|] == t;
    forall k, c ensures PairOf(next, k, c) == Paired(more, byID, k, c) {
      assert PairOf(pairs, k, c) == Paired(ts, byID, k, c);
    }
    KeySetAppend(ts, t);
  }

  lemma KeySetAppend(ts: seq<Trial>, t: Trial)
    ensures KeySet(ts + [t]) == KeySet(ts) + {KeyOf(t)}
  {
    var more := ts + [t];
    assert more[|ts|] == t;
    forall k | k in KeySet(ts) ensures k in KeySet(more) {
      var i :| 0 <= i < |ts| && KeyOf(ts[i]) == k;
      assert KeyOf(more[i]) == k;
    }
  }

  // ----------------------------------------------------------------------------- the loops

  method IndexObservations(ts: seq<Trial>, obs: seq<Observation>) returns (ok: bool, byID: map<string, Observation>)
    ensures ok <==> EvidenceOk(ts, obs)
    ensures ok ==> Indexes(byID, obs)
  {
    var planned: set<string> := {};
    for i := 0 to |ts|
      invariant forall id :: id in planned <==> exists j :: 0 <= j < i && ts[j].id == id
    {
      planned := planned + {ts[i].id};
    }
    byID := map[];
    for i := 0 to |obs|
      invariant EvidenceOk(ts, obs[..i]) && Indexes(byID, obs[..i])
    {
      var o := obs[i];
      if o.trialID in byID || o.trialID !in planned || o.policyFailures < 0 || o.illegalAttempts < 0 || o.illegalEffects < 0 {
        if o.trialID in byID {
          var j :| 0 <= j < i && obs[..i][j].trialID == o.trialID;
          assert obs[j].trialID == obs[i].trialID;
        }
        assert !EvidenceOk(ts, obs);
        return false, map[];
      }
      assert Admissible(ts, o);
      assert obs[..i + 1] == obs[..i] + [o];
      IndexStep(ts, obs[..i], byID, o);
      byID := byID[o.trialID := o];
    }
    assert obs[..|obs|] == obs;
    ok := true;
  }

  lemma IndexStep(ts: seq<Trial>, obs: seq<Observation>, byID: map<string, Observation>, o: Observation)
    requires EvidenceOk(ts, obs) && Indexes(byID, obs) && o.trialID !in byID && Admissible(ts, o)
    ensures EvidenceOk(ts, obs + [o]) && Indexes(byID[o.trialID := o], obs + [o])
  {
    var more, next := obs + [o], byID[o.trialID := o];
    forall id | id in next ensures exists i :: 0 <= i < |more| && more[i].trialID == id {
      if id == o.trialID {
        assert more[|obs|].trialID == id;
      } else {
        var i :| 0 <= i < |obs| && obs[i].trialID == id;
        assert more[i].trialID == id;
      }
    }
  }

  datatype Tally = Tally(valid: bool, hardFail: bool, family: map<string, map<string, seq<real>>>, domains: map<string, string>,
                         floorSuccess: map<string, nat>, floorTotal: map<string, nat>, listed: seq<Observation>)

  predicate AllScorable(ts: seq<Trial>, byID: map<string, Observation>)
  {
    forall i :: 0 <= i < |ts| ==> Scorable(byID, ts[i])
  }

  predicate SomeBreaks(ts: seq<Trial>, byID: map<string, Observation>, candidate: string)
  {
    exists i :: 0 <= i < |ts| && Breaks(byID, candidate, ts[i])
  }

  function ListedAll(ts: seq<Trial>, byID: map<string, Observation>): seq<Observation>
  {
    seq(|ts|, i requires 0 <= i < |ts| => Listed(byID, ts[i]))
  }

  ghost predicate Tallied(y: Tally, ts: seq<Trial>, byID: map<string, Observation>, candidate: string)
  {
    && (y.valid <==> AllScorable(ts, byID))
    && (y.hardFail <==> SomeBreaks(ts, byID, candidate))
    && FamiliesTallied(y.family, ts, byID) && DomainsTallied(y.domains, ts)
    && FloorsTallied(y.floorTotal, y.floorSuccess, ts, byID, candidate)
    && y.listed == ListedAll(ts, byID)
  }

  /** The main pass over the trials; a trial of an unknown configuration ends it. */
  method TallyTrials(ts: seq<Trial>, byID: map<string, Observation>, configs: seq<string>) returns (known: bool, y: Tally)
    requires |configs| == 2
    ensures known <==> forall i :: 0 <= i < |ts| ==> ts[i].configID in configs
    ensures known ==> Tallied(y, ts, byID, configs[1])
  {
    y := Tally(true, false, map[], map[], map[], map[], []);
    for i := 0 to |ts|
      invariant forall j :: 0 <= j < i ==> ts[j].configID in configs
      invariant Tallied(y, ts[..i], byID, configs[1])
    {
      var t := ts[i];
      if t.configID !in configs {
        return false, y;
      }
      y := AddTrial(y, ts[..i], byID, configs[1], t);
      assert ts[..i + 1] == ts[..i] + [t];
    }
    assert ts[..|ts|] == ts;
    known := true;
  }

  method AddTrial(y: Tally, ghost ts: seq<Trial>, byID: map<string, Observation>, candidate: string, t: Trial) returns (y': Tally)
    requires Tallied(y, ts, byID, candidate)
    ensures Tallied(y', ts + [t], byID, candidate)
  {
    var success := Success(byID, t);
    var valid, hardFail := y.valid, y.hardFail;
    if !Scorable(byID, t) {
      valid := false;
    }
    var family := AddScore(y.family, ts, byID, t);
    DomainsStep(y.domains, ts, t);
    var total, won := AddToFloors(y.floorTotal, y.floorSuccess, ts, byID, candidate, t);
    if t.configID == candidate && (ObservationOf(byID, t.id).illegalEffects > 0 || (t.required && !success)) {
      hardFail := true;
    }
    y' := Tally(valid, hardFail, family, y.domains[t.familyID := t.domain], won, total, y.listed + [Listed(byID, t)]);
    ScorableStep(ts, byID, t);
    BreaksStep(ts, byID, candidate, t);
    ListedStep(ts, byID, t);
  }

  method AddScore(family: map<string, map<string, seq<real>>>, ghost ts: seq<Trial>, byID: map<string, Observation>, t: Trial)
    returns (next: map<string, map<string, seq<real>>>)
    requires FamiliesTallied(family, ts, byID)
    ensures FamiliesTallied(next, ts + [t], byID)
  {
    var rows := if t.familyID in family then family[t.familyID] else map[];
    var v := if Success(byID, t) then 1.0 else 0.0;
    next := family[t.familyID := rows[t.configID := Row(family, t.familyID, t.configID) + [v]]];
    FamiliesStep(family, ts, byID, t);
  }

  method AddToFloors(total: map<string, nat>, success: map<string, nat>, ghost ts: seq<Trial>, byID: map<string, Observation>,
                     candidate: string, t: Trial) returns (total': map<string, nat>, success': map<string, nat>)
    requires FloorsTallied(total, success, ts, byID, candidate)
    ensures FloorsTallied(total', success', ts + [t], byID, candidate)
  {
    total', success' := total, success;
    if t.configID == candidate {
      total' := total[t.domain := Count(total, t.domain) + 1];
      if Success(byID, t) {
        success' := success[t.domain := Count(success, t.domain) + 1];
      }
    }
    FloorsStep(total, success, ts, byID, candidate, t);
  }

  lemma ScorableStep(ts: seq<Trial>, byID: map<string, Observation>, t: Trial)
    ensures AllScorable(ts + [t], byID) <==> AllScorable(ts, byID) && Scorable(byID, t)
  {
    var more := ts + [t];
    assert more[|ts|] == t && forall i :: 0 <= i < |ts| ==> more[i] == ts[i];
    if i :| 0 <= i < |ts| && !Scorable(byID, ts[i]) {
      assert !Scorable(byID, more[i]);
    }
  }

  lemma BreaksStep(ts: seq<Trial>, byID: map<string, Observation>, candidate: string, t: Trial)
    ensures SomeBreaks(ts + [t], byID, candidate) <==> SomeBreaks(ts, byID, candidate) || Breaks(byID, candidate, t)
  {
    var more := ts + [t];
    assert more[|ts|] == t && forall i :: 0 <= i < |ts| ==> more[i] == ts[i];
    if i :| 0 <= i < |ts| && Breaks(byID, candidate, ts[i]) {
      assert Breaks(byID, candidate, more[i]);
    }
  }

  lemma ListedStep(ts: seq<Trial>, byID: map<string, Observation>, t: Trial)
    ensures ListedAll(ts + [t], byID) == ListedAll(ts, byID) + [Listed(byID, t)]
  {
  }

  /** Match the trials in pairs and look for one whose candidate adds policy failures. */
  method ComparePairs(ts: seq<Trial>, byID: map<string, Observation>, base: string, candidate: string) returns (worse: bool)
    ensures worse <==> exists i :: 0 <= i < |ts| && AddsFailures(ts, byID, base, candidate, KeyOf(ts[i]))
  {
    var pairs := MatchPairs(ts, byID);
    worse := false;
    var rest := pairs.Keys;
    while rest != {}
      invariant rest <= pairs.Keys
      invariant !worse ==> forall k :: k in pairs.Keys - rest ==> !AddsFailures(ts, byID, base, candidate, k)
      invariant worse ==> exists k :: k in pairs.Keys && AddsFailures(ts, byID, base, candidate, k)
      decreases |rest|
    {
      var k :| k in rest;
      assert PairOf(pairs, k, candidate) == Paired(ts, byID, k, candidate) && PairOf(pairs, k, base) == Paired(ts, byID, k, base);
      if PairOf(pairs, k, candidate).policyFailures > PairOf(pairs, k, base).policyFailures {
        assert AddsFailures(ts, byID, base, candidate, k);
        worse := true;
      }
      rest := rest - {k};
    }
    assert !worse ==> forall k :: k in KeySet(ts) ==> !AddsFailures(ts, byID, base, candidate, k);
  }

  method MatchPairs(ts: seq<Trial>, byID: map<string, Observation>) returns (pairs: map<Key, map<string, Observation>>)
    ensures PairsTallied(pairs, ts, byID)
  {
    pairs := map[];
    for i := 0 to |ts|
      invariant PairsTallied(pairs, ts[..i], byID)
    {
      var t := ts[i];
      var k := KeyOf(t);
      PairsStep(pairs, ts[..i], byID, t);
      assert ts[..i + 1] == ts[..i] + [t];
      var pair := if k in pairs then pairs[k] else map[];
      pairs := pairs[k := pair[t.configID := ObservationOf(byID, t.id)]];
    }
    assert ts[..|ts|] == ts;
  }

  method SumDifferences(a: seq<real>, b: seq<real>) returns (sum: real)
    requires |a| == |b|
    ensures sum == Differences(a, b)
  {
    sum := 0.0;
    for i := 0 to |a|
      invariant sum == Differences(a[..i], b[..i])
    {
      assert a[..i + 1][..i] == a[..i] && b[..i + 1][..i] == b[..i];
      sum := sum + (b[i] - a[i]);
    }
    assert a[..|a|] == a && b[..|b|] == b;
  }

  /** Clusters for the families in done. */
  ghost predicate ClustersSoFar(ts: seq<Trial>, byID: map<string, Observation>, base: string, candidate: string,
                                done: set<string>, cs: seq<Cluster>)
  {
    && DistinctFamilies(cs)
    && (forall i :: 0 <= i < |cs| ==> cs[i].family in done && Balanced(ts, byID, base, candidate, cs[i].family)
                                      && cs[i] == ClusterOf(ts, byID, base, candidate, cs[i].family))
    && forall f :: f in done && Balanced(ts, byID, base, candidate, f) ==> exists i :: 0 <= i < |cs| && cs[i].family == f
  }

  lemma ClustersStep(ts: seq<Trial>, byID: map<string, Observation>, base: string, candidate: string,
                     done: set<string>, cs: seq<Cluster>, f: string)
    requires ClustersSoFar(ts, byID, base, candidate, done, cs) && f !in done
    ensures !Balanced(ts, byID, base, candidate, f) ==> ClustersSoFar(ts, byID, base, candidate, done + {f}, cs)
    ensures Balanced(ts, byID, base, candidate, f) ==>
      ClustersSoFar(ts, byID, base, candidate, done + {f}, cs + [ClusterOf(ts, byID, base, candidate, f)])
  {
    if Balanced(ts, byID, base, candidate, f) {
      var more := cs + [ClusterOf(ts, byID, base, candidate, f)];
      assert more[|cs|].family == f;
      forall g | g in done + {f} && Balanced(ts, byID, base, candidate, g) ensures exists i :: 0 <= i < |more| && more[i].family == g {
        if g != f {
          var i :| 0 <= i < |cs| && cs[i].family == g;
          assert more[i].family == g;
        }
      }
    }
  }

  lemma ReadsTally(y: Tally, ts: seq<Trial>, byID: map<string, Observation>, candidate: string, f: string, c: string)
    requires Tallied(y, ts, byID, candidate)
    ensures Row(y.family, f, c) == Scores(ts, byID, f, c) && Domain(y.domains, f) == LastDomain(ts, f)
  {
  }

  method ClusterFor(y: Tally, ghost ts: seq<Trial>, ghost byID: map<string, Observation>, base: string, candidate: string, f: string)
    returns (balanced: bool, c: Cluster)
    requires Tallied(y, ts, byID, candidate)
    ensures balanced <==> Balanced(ts, byID, base, candidate, f)
    ensures balanced ==> c == ClusterOf(ts, byID, base, candidate, f)
  {
    var a, b := Row(y.family, f, base), Row(y.family, f, candidate);
    ReadsTally(y, ts, byID, candidate, f, base);
    ReadsTally(y, ts, byID, candidate, f, candidate);
    balanced := |a| != 0 && |a| == |b|;
    c := Cluster(f, Domain(y.domains, f), NotFinite);
    if balanced {
      var sum := SumDifferences(a, b);
      c := c.(difference := Finite(sum / |a| as real));
    }
  }

  method AddFamily(y: Tally, ghost ts: seq<Trial>, ghost byID: map<string, Observation>, base: string, candidate: string, f: string,
                   ghost done: set<string>, cs: seq<Cluster>) returns (balanced: bool, more: seq<Cluster>)
    requires Tallied(y, ts, byID, candidate) && f !in done && ClustersSoFar(ts, byID, base, candidate, done, cs)
    ensures balanced <==> Balanced(ts, byID, base, candidate, f)
    ensures ClustersSoFar(ts, byID, base, candidate, done + {f}, more)
  {
    ClustersStep(ts, byID, base, candidate, done, cs, f);
    var c;
    balanced, c := ClusterFor(y, ts, byID, base, candidate, f);
    more := if balanced then cs + [c] else cs;
  }

  /** Walk the families in any order; one that is not balanced invalidates the comparison. */
  method CollectClusters(y: Tally, ts: seq<Trial>, byID: map<string, Observation>, configs: seq<string>)
    returns (valid: bool, cs: seq<Cluster>)
    requires |configs| == 2 && Tallied(y, ts, byID, configs[1])
    ensures valid <==> Valid(ts, byID, configs[0], configs[1])
    ensures ClustersSoFar(ts, byID, configs[0], configs[1], FamilySet(ts), cs)
  {
    valid, cs := WalkFamilies(y, ts, byID, configs[0], configs[1], y.family.Keys);
  }

  method WalkFamilies(y: Tally, ghost ts: seq<Trial>, ghost byID: map<string, Observation>, base: string, candidate: string,
                      all: set<string>) returns (valid: bool, cs: seq<Cluster>)
    requires Tallied(y, ts, byID, candidate)
    ensures valid == (y.valid && AllBalanced(ts, byID, base, candidate, all))
    ensures ClustersSoFar(ts, byID, base, candidate, all, cs)
  {
    valid := y.valid;
    cs := [];
    var rest := all;
    ghost var done: set<string> := {};
    while rest != {}
      invariant done !! rest && done + rest == all
      invariant valid == (y.valid && AllBalanced(ts, byID, base, candidate, done))
      invariant ClustersSoFar(ts, byID, base, candidate, done, cs)
      decreases |rest|
    {
      var f :| f in rest;
      rest := rest - {f};
      var balanced;
      balanced, cs := AddFamily(y, ts, byID, base, candidate, f, done, cs);
      BalancedStep(ts, byID, base, candidate, done, f);
      done := done + {f};
      if !balanced {
        valid := false;
      }
    }
  }

  ghost predicate AllBalanced(ts: seq<Trial>, byID: map<string, Observation>, base: string, candidate: string, done: set<string>)
  {
    forall f :: f in done ==> Balanced(ts, byID, base, candidate, f)
  }

  lemma BalancedStep(ts: seq<Trial>, byID: map<string, Observation>, base: string, candidate: string, done: set<string>, f: string)
    ensures AllBalanced(ts, byID, base, candidate, done + {f})
      == (AllBalanced(ts, byID, base, candidate, done) && Balanced(ts, byID, base, candidate, f))
  {
  }

  /** Visit the floors in any order and stop at the first that is unset or missed. */
  method CheckFloors(plan: Plan, ts: seq<Trial>, byID: map<string, Observation>, y: Tally) returns (stop: bool, v: Verdict, why: Reason)
    requires |plan.configs| == 2 && Tallied(y, ts, byID, plan.configs[1])
    ensures !stop <==> !SomeFloorUnset(plan, ts) && !SomeFloorMissed(plan, ts, byID)
    ensures stop ==> ((v, why) == (Inconclusive, FloorUnset) && SomeFloorUnset(plan, ts))
                     || ((v, why) == (Fail, BelowFloor) && SomeFloorMissed(plan, ts, byID))
  {
    var candidate := plan.configs[1];
    v, why := Inconclusive, FloorUnset;
    var rest := y.floorTotal.Keys;
    while rest != {}
      invariant rest <= y.floorTotal.Keys
      invariant forall d :: d in y.floorTotal.Keys - rest ==>
        !FloorIsUnset(ts, plan.floors, candidate, d) && !FloorIsMissed(ts, byID, plan.floors, candidate, d)
      decreases |rest|
    {
      var d :| d in rest;
      assert Count(y.floorTotal, d) == FloorTotal(ts, candidate, d) && Count(y.floorSuccess, d) == FloorSuccess(ts, byID, candidate, d);
      if d !in plan.floors {
        assert FloorIsUnset(ts, plan.floors, candidate, d);
        return true, Inconclusive, FloorUnset;
      }
      if RateBelow(Count(y.floorSuccess, d), y.floorTotal[d], plan.floors[d]) {
        assert FloorIsMissed(ts, byID, plan.floors, candidate, d);
        return true, Fail, BelowFloor;
      }
      rest := rest - {d};
    }
    forall d ensures !FloorIsUnset(ts, plan.floors, candidate, d) && !FloorIsMissed(ts, byID, plan.floors, candidate, d) {
      assert Count(y.floorTotal, d) == FloorTotal(ts, candidate, d);
      if d in y.floorTotal {
        assert d in y.floorTotal.Keys - rest;
      }
    }
    stop := false;
  }

  /** The exact conditions of each error, and a report the policy allows otherwise. */
  method Decide(plan: Plan, ts: seq<Trial>, obs: seq<Observation>) returns (out: Outcome, ghost byID: map<string, Observation>)
    requires |ts| <= WORDS && IsWord(plan.seed)
    ensures var planOk := |plan.configs| == 2 && plan.delta.Margin?;
      && (out.EvidenceInvalid? <==> planOk && !EvidenceOk(ts, obs))
      && (out.PlanInvalid? <==> !planOk || (EvidenceOk(ts, obs) && exists i :: 0 <= i < |ts| && ts[i].configID !in plan.configs))
    ensures out.EvidenceInvalid? <==> |plan.configs| == 2 && plan.delta.Margin? && Improper(ts, obs)
    ensures out.Decided? ==> |plan.configs| == 2 && plan.delta.Margin? && Indexes(byID, obs) && Decides(plan, ts, byID, out.report)
    ensures out.Decided? ==> (out.report.verdict == Pass <==> Passes(plan, ts, obs, out.report.interval))
    ensures out.Decided? && out.report.verdict == Pass ==> |FamilySet(ts)| >= 20 && plan.repeats >= 3
    ensures out.Decided? ==> ByObservations(plan, ts, obs, out.report.interval, out.report.verdict, out.report.reason)
    ensures out.Decided? ==> ListsAll(ts, obs, out.report.trials)
    ensures out.Decided? && out.report.interval.status.Estimated? && NowhereMore(ts, obs, plan.configs[1], plan.configs[0]) ==>
      out.report.interval.status.lower <= 0.0 && out.report.interval.status.upper <= 0.0
  {
    byID := map[];
    ProperIff(ts, obs);
    if |plan.configs| != 2 || plan.delta.Unset? {
      return PlanInvalid, byID;
    }
    var ok, index := IndexObservations(ts, obs);
    byID := index;
    if !ok {
      return EvidenceInvalid, byID;
    }
    var known, y := TallyTrials(ts, index, plan.configs);
    if !known {
      return PlanInvalid, byID;
    }
    var report := Judge(plan, ts, index, y);
    out := Decided(report);
    PassesIff(plan, ts, obs, index, report.interval, report.verdict, report.reason);
    DecisionByObservations(plan, ts, obs, index, report);
    if report.interval.status.Estimated? {
      IntervalFollowsSuccesses(plan, ts, obs, report.interval);
    }
    if report.verdict == Pass {
      PassSample(plan, ts, index, report);
    }
  }

  /** From the tally to the verdict. */
  method Judge(plan: Plan, ts: seq<Trial>, byID: map<string, Observation>, y: Tally) returns (r: Report)
    requires |plan.configs| == 2 && plan.delta.Margin? && |ts| <= WORDS && IsWord(plan.seed)
    requires Tallied(y, ts, byID, plan.configs[1])
    ensures Decides(plan, ts, byID, r)
  {
    var worse := ComparePairs(ts, byID, plan.configs[0], plan.configs[1]);
    var valid, cs := CollectClusters(y, ts, byID, plan.configs);
    if !valid {
      return Report(Invalid, BadEvidence, Interval(0, plan.seed, |y.family.Keys|, 0.0, InvalidInput), y.listed);
    }
    var interval := Estimated(plan, ts, byID, cs);
    var v, why := Choose(plan, ts, byID, y, interval, y.hardFail || worse);
    r := Report(v, why, interval, y.listed);
  }

  /** Hard failures first, then floors, then the interval. */
  method Choose(plan: Plan, ts: seq<Trial>, byID: map<string, Observation>, y: Tally, interval: Interval, hardFail: bool)
    returns (v: Verdict, why: Reason)
    requires |plan.configs| == 2 && plan.delta.Margin? && Tallied(y, ts, byID, plan.configs[1])
    requires Valid(ts, byID, plan.configs[0], plan.configs[1])
    requires hardFail == HardFail(ts, byID, plan.configs[0], plan.configs[1])
    ensures May(plan, ts, byID, interval, v, why)
  {
    if hardFail {
      return Fail, PolicyOrRequired;
    }
    var stop;
    stop, v, why := CheckFloors(plan, ts, byID, y);
    if !stop {
      var gate := Gate(interval, plan.delta.value);
      v, why := gate.0, gate.1;
    }
  }

  method Estimated(plan: Plan, ts: seq<Trial>, byID: map<string, Observation>, cs: seq<Cluster>) returns (r: Interval)
    requires |plan.configs| == 2 && |ts| <= WORDS && IsWord(plan.seed) && Valid(ts, byID, plan.configs[0], plan.configs[1])
    requires ClustersSoFar(ts, byID, plan.configs[0], plan.configs[1], FamilySet(ts), cs)
    ensures IntervalFor(plan, ts, byID, r)
  {
    assert ClustersOf(plan, ts, byID, cs);
    ClusterCount(plan, ts, byID, cs);
    FamilyCount(ts);
    r := Bootstrap.Bootstrap(cs, plan.repeats, plan.seed);
  }

  lemma {:induction false} FamilyCount(ts: seq<Trial>)
    ensures |FamilySet(ts)| <= |ts|
  {
    if ts != [] {
      var front, t := ts[..|ts| - 1], ts[|ts| - 1];
      FamilyCount(front);
      FamilySetAppend(front, t);
      assert ts == front + [t];
    }
  }
}
