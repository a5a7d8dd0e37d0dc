/** What a valid policy and each line of the preview say, in terms of the policy's own entries. */
module RetentionMeaning {
  import opened Reachability
  import opened Retention

  // ------------------------------------------------------------------------------ the policy

  function Ids(policy: seq<Intent>): seq<string>
  {
    seq(|policy|, k requires 0 <= k < |policy| => policy[k].id)
  }

  /** Kept or reviewed, with at most sixteen references to registered entries, none of them twice. */
  predicate EntryStated(registry: seq<string>, e: Intent)
  {
    && (e.intent == Keep || e.intent == Review) && |e.references| <= 16
    && forall i :: 0 <= i < |e.references| ==>
         e.references[i] in registry && forall j :: 0 <= j < i ==> e.references[j] != e.references[i]
  }

  lemma {:induction false} CountDistinct(s: seq<string>, x: string)
    requires Distinct(s)
    ensures multiset(s)[x] == if x in s then 1 else 0
    decreases |s|
  {
    if s != [] {
      var n := |s| - 1;
      CountDistinct(s[..n], x);
      assert s == s[..n] + [s[n]];
    }
  }

  lemma {:induction false} DistinctSize(s: seq<string>)
    requires Distinct(s)
    ensures |set x | x in s| == |s|
    decreases |s|
  {
    if s != [] {
      var n := |s| - 1;
      DistinctSize(s[..n]);
      assert (set x | x in s) == (set x | x in s[..n]) + {s[n]};
    }
  }

  lemma DistinctByCount(s: seq<string>, registry: seq<string>)
    requires Distinct(registry) && multiset(s) == multiset(registry)
    ensures Distinct(s) && forall i :: 0 <= i < |s| ==> s[i] in registry
  {
    forall i | 0 <= i < |s| ensures s[i] in registry {
      assert s[i] in multiset(s);
    }
    forall i, j | 0 <= i < j < |s| ensures s[i] != s[j] {
      if s[i] == s[j] {
        assert s == s[..i] + [s[i]] + s[i + 1..j] + [s[j]] + s[j + 1..];
        assert multiset(s)[s[i]] >= 2;
        CountDistinct(registry, s[i]);
      }
    }
  }

  lemma CountByDistinct(s: seq<string>, registry: seq<string>)
    requires Distinct(registry) && Distinct(s) && |s| == |registry| && forall i :: 0 <= i < |s| ==> s[i] in registry
    ensures multiset(s) == multiset(registry)
  {
    var a, b := set x | x in s, set x | x in registry;
    DistinctSize(s);
    DistinctSize(registry);
    assert a <= b;
    assert b == a + (b - a) && |b| == |a| + |b - a|;
    assert a == b;
    forall x ensures multiset(s)[x] == multiset(registry)[x] {
      CountDistinct(s, x);
      CountDistinct(registry, x);
      assert x in s <==> x in a;
      assert x in registry <==> x in b;
    }
  }

  /** A policy is accepted exactly when it states each registered entry once, and nothing else, within the limits. */
  lemma PolicyIff(registry: seq<string>, policy: seq<Intent>)
    requires Distinct(registry)
    ensures PolicyOk(registry, policy)
      <==> multiset(Ids(policy)) == multiset(registry) && forall k :: 0 <= k < |policy| ==> EntryStated(registry, policy[k])
  {
    var ids := Ids(policy);
    if PolicyOk(registry, policy) {
      forall k | 0 <= k < |policy| ensures EntryStated(registry, policy[k]) && ids[k] in registry {
        assert IntentOk(registry, policy[k]);
      }
      CountByDistinct(ids, registry);
    }
    if multiset(ids) == multiset(registry) && forall k :: 0 <= k < |policy| ==> EntryStated(registry, policy[k]) {
      DistinctByCount(ids, registry);
      assert |ids| == |multiset(ids)| == |registry|;
      forall k | 0 <= k < |policy| ensures IntentOk(registry, policy[k]) {
        assert EntryStated(registry, policy[k]) && ids[k] in registry;
      }
      forall i, j | 0 <= i < j < |policy| ensures policy[i].id != policy[j].id {
        assert ids[i] != ids[j];
      }
    }
  }

  // ------------------------------------------------------------------------- what an entry says

  /** The k-th statement of the policy is about entry i. */
  predicate About(x: Input, i: int, k: int)
  {
    0 <= i < |x.registry| && 0 <= k < |x.policy| && x.policy[k].id == x.registry[i]
  }

  ghost predicate AskedToKeep(x: Input, i: int)
  {
    exists k :: About(x, i, k) && x.policy[k].intent == Keep
  }

  ghost predicate CalledActive(x: Input, i: int)
  {
    exists k :: About(x, i, k) && x.policy[k].active
  }

  ghost predicate Cites(x: Input, i: int, j: int)
  {
    0 <= j < |x.registry| && exists k :: About(x, i, k) && x.registry[j] in x.policy[k].references
  }

  /** The inventory could not establish what the entry is, or how large. */
  predicate Unseen(x: Input, i: int)
    requires 0 <= i < |x.inventory|
  {
    !(x.inventory[i].observed && x.inventory[i].metadataPresent && x.inventory[i].sizeComplete)
  }

  ghost predicate Trail(x: Input, p: seq<nat>)
  {
    |p| >= 2 && forall t :: 0 <= t < |p| - 1 ==> Cites(x, p[t], p[t + 1])
  }

  /** References lead from entry i to entry j, in one step or more. */
  ghost predicate LeadsTo(x: Input, i: int, j: int)
  {
    exists p :: Trail(x, p) && p[0] == i && p[|p| - 1] == j
  }

  ghost predicate Holds(x: Input, i: int)
    requires 0 <= i < |x.registry| == |x.inventory|
  {
    Unseen(x, i) || CalledActive(x, i) || AskedToKeep(x, i)
  }

  /** Held back by itself, or named along a trail from an entry that is. */
  ghost predicate Guarded(x: Input, i: int)
    requires 0 <= i < |x.registry| == |x.inventory|
  {
    exists s: int {:trigger Holds(x, s)} :: 0 <= s < |x.registry| && Holds(x, s) && (s == i || LeadsTo(x, s, i))
  }

  /** Another protected entry leads here. */
  ghost predicate Leans(x: Input, j: int, i: int)
    requires 0 <= i < |x.registry| == |x.inventory|
  {
    0 <= j < |x.registry| && j != i && Guarded(x, j) && LeadsTo(x, j, i)
  }

  lemma {:induction false} IntentOfEntry(policy: seq<Intent>, k: nat)
    requires k < |policy| && forall i, j :: 0 <= i < j < |policy| ==> policy[i].id != policy[j].id
    ensures IntentOf(policy, policy[k].id) == policy[k]
    decreases |policy|
  {
    if k < |policy| - 1 {
      IntentOfEntry(policy[..|policy| - 1], k);
    }
  }

  /** Every entry has its statement, and only one. */
  lemma StatedOnce(x: Input, i: nat) returns (k: nat)
    requires Admissible(x) && i < |x.registry|
    ensures About(x, i, k) && IntentOf(x.policy, x.registry[i]) == x.policy[k]
    ensures forall other :: About(x, i, other) ==> other == k
  {
    PolicyIff(x.registry, x.policy);
    var ids := Ids(x.policy);
    assert x.registry[i] in multiset(x.registry);
    assert x.registry[i] in ids;
    k :| 0 <= k < |ids| && ids[k] == x.registry[i];
    IntentOfEntry(x.policy, k);
    assert forall a, b :: 0 <= a < b < |x.policy| ==> x.policy[a].id != x.policy[b].id;
  }

  lemma SaysIff(x: Input, i: nat)
    requires Admissible(x) && i < |x.registry|
    ensures var e := IntentOf(x.policy, x.registry[i]);
      && (e.intent.Keep? <==> AskedToKeep(x, i)) && (e.active <==> CalledActive(x, i))
      && (Initial(x, i) <==> Holds(x, i)) && (IsUnknown(x.inventory[i]) <==> Unseen(x, i))
      && forall j: nat :: j < |x.registry| ==> (Refers(x, i, j) <==> Cites(x, i, j))
  {
    var k := StatedOnce(x, i);
  }

  lemma LeadsIff(x: Input, i: nat, j: nat)
    requires Admissible(x)
    ensures Reach(x, i, j) <==> LeadsTo(x, i, j)
  {
    if Reach(x, i, j) {
      var p :| Walk(References(x), p) && Joins(p, i, j);
      forall t | 0 <= t < |p| - 1 ensures Cites(x, p[t], p[t + 1]) {
        assert (p[t], p[t + 1]) in References(x);
        SaysIff(x, p[t]);
      }
      assert Trail(x, p);
    }
    if LeadsTo(x, i, j) {
      var p :| Trail(x, p) && p[0] == i && p[|p| - 1] == j;
      forall t | 0 <= t < |p| - 1 ensures (p[t], p[t + 1]) in References(x) {
        assert Cites(x, p[t], p[t + 1]);
        SaysIff(x, p[t]);
      }
      assert Walk(References(x), p) && Joins(p, i, j);
    }
  }

  lemma GuardedIff(x: Input, i: nat)
    requires Admissible(x) && i < |x.registry| == |x.inventory|
    ensures IsProtected(x, i) <==> Guarded(x, i)
  {
    hide Reach, LeadsTo, Admissible, Initial, Holds;
    forall s: nat | s < |x.registry| ensures (Reach(x, s, i) <==> LeadsTo(x, s, i)) && (Initial(x, s) <==> Holds(x, s)) {
      LeadsIff(x, s, i);
      SaysIff(x, s);
    }
    if IsProtected(x, i) {
      var s: nat :| s < |x.registry| && Initial(x, s) && (s == i || Reach(x, s, i));
      assert Holds(x, s);
    }
    if Guarded(x, i) {
      var s: int :| 0 <= s < |x.registry| && Holds(x, s) && (s == i || LeadsTo(x, s, i));
      assert Initial(x, s);
    }
  }

  // ----------------------------------------------------------------------------------- the rows

  function Rank(r: Reason): nat
  {
    match r
    case KeepRequested => 0
    case ActiveDeclared => 1
    case ObservationUnknown => 2
    case ReferencedByProtected => 3
    case NotProtectedInRegistry => 4
  }

  predicate InOrder(reasons: seq<Reason>)
  {
    forall a, b :: 0 <= a < b < |reasons| ==> Rank(reasons[a]) < Rank(reasons[b])
  }

  /** The names of the protected entries that lead to i, in registry order. */
  ghost predicate NamesLeaning(x: Input, i: int, names: seq<string>, positions: seq<int>)
    requires 0 <= i < |x.registry| == |x.inventory|
  {
    && |names| == |positions|
    && (forall a, b :: 0 <= a < b < |positions| ==> positions[a] < positions[b])
    && (forall a :: 0 <= a < |positions| ==> Leans(x, positions[a], i) && names[a] == x.registry[positions[a]])
    && forall j :: Leans(x, j, i) ==> j in positions
  }

  /** What the line about entry i says. */
  ghost predicate RowMeans(x: Input, i: int, row: Row)
    requires 0 <= i < |x.registry| == |x.inventory|
  {
    && row.id == x.registry[i]
    && (row.status == Unknown <==> Unseen(x, i))
    && (row.status == Protected <==> !Unseen(x, i) && Guarded(x, i))
    && (row.status == ReviewCandidate <==> !Guarded(x, i))
    && InOrder(row.reasons)
    && (KeepRequested in row.reasons <==> AskedToKeep(x, i))
    && (ActiveDeclared in row.reasons <==> CalledActive(x, i))
    && (ObservationUnknown in row.reasons <==> Unseen(x, i))
    && (ReferencedByProtected in row.reasons <==> exists j :: Leans(x, j, i))
    && (NotProtectedInRegistry in row.reasons <==> !Guarded(x, i))
    && exists positions :: NamesLeaning(x, i, row.referencedBy, positions)
  }

  function Maybe(c: bool, r: Reason): seq<Reason>
  {
    if c then [r] else []
  }

  predicate Below(reasons: seq<Reason>, bound: nat)
  {
    InOrder(reasons) && forall a :: 0 <= a < |reasons| ==> Rank(reasons[a]) < bound
  }

  lemma OneMore(reasons: seq<Reason>, c: bool, r: Reason)
    requires Below(reasons, Rank(r))
    ensures Below(reasons + Maybe(c, r), Rank(r) + 1)
    ensures r in reasons + Maybe(c, r) <==> c
    ensures forall other :: other != r ==> (other in reasons + Maybe(c, r) <==> other in reasons)
  {
  }

  lemma ReasonsMean(intent: Intent, unknown: bool, referenced: bool, guarded: bool)
    ensures var reasons := ReasonsFor(intent, unknown, referenced, guarded);
      && InOrder(reasons)
      && (KeepRequested in reasons <==> intent.intent.Keep?) && (ActiveDeclared in reasons <==> intent.active)
      && (ObservationUnknown in reasons <==> unknown) && (ReferencedByProtected in reasons <==> referenced)
      && (NotProtectedInRegistry in reasons <==> !guarded)
  {
    hide Maybe, InOrder, Below, ReasonsFor;
    NoReasons();
    var kept := [] + Maybe(intent.intent.Keep?, KeepRequested);
    var active := kept + Maybe(intent.active, ActiveDeclared);
    var seen := active + Maybe(unknown, ObservationUnknown);
    var leaned := seen + Maybe(referenced, ReferencedByProtected);
    OneMore([], intent.intent.Keep?, KeepRequested);
    OneMore(kept, intent.active, ActiveDeclared);
    OneMore(active, unknown, ObservationUnknown);
    OneMore(seen, referenced, ReferencedByProtected);
    OneMore(leaned, !guarded, NotProtectedInRegistry);
    InBlocks(intent, unknown, referenced, guarded);
    BelowIsInOrder(leaned + Maybe(!guarded, NotProtectedInRegistry), 5);
  }

  lemma NoReasons()
    ensures Below([], 0) && Rank(KeepRequested) == 0
  {
  }

  lemma BelowIsInOrder(reasons: seq<Reason>, bound: nat)
    requires Below(reasons, bound)
    ensures InOrder(reasons)
  {
  }

  lemma InBlocks(intent: Intent, unknown: bool, referenced: bool, guarded: bool)
    ensures ReasonsFor(intent, unknown, referenced, guarded)
      == [] + Maybe(intent.intent.Keep?, KeepRequested) + Maybe(intent.active, ActiveDeclared) + Maybe(unknown, ObservationUnknown)
         + Maybe(referenced, ReferencedByProtected) + Maybe(!guarded, NotProtectedInRegistry)
  {
  }

  lemma {:induction false} ReferrersLean(x: Input, i: nat, n: nat) returns (positions: seq<int>)
    requires Admissible(x) && i < |x.registry| == |x.inventory| && n <= |x.registry|
    ensures |Referrers(x, i, n)| == |positions|
    ensures forall a, b :: 0 <= a < b < |positions| ==> positions[a] < positions[b]
    ensures forall a :: 0 <= a < |positions| ==>
      positions[a] < n && Leans(x, positions[a], i) && Referrers(x, i, n)[a] == x.registry[positions[a]]
    ensures forall j :: j < n && Leans(x, j, i) ==> j in positions
    decreases n
  {
    hide IsProtected, Guarded, LeadsTo, Reach, Admissible;
    positions := [];
    if n > 0 {
      positions := ReferrersLean(x, i, n - 1);
      GuardedIff(x, n - 1);
      LeadsIff(x, n - 1, i);
      if Leans(x, n - 1, i) {
        positions := positions + [n - 1];
      }
    }
  }

  /** Each line of the preview says what the policy and the inventory say. */
  lemma RowMeaning(x: Input, i: nat)
    requires Admissible(x) && i < |x.registry| == |x.inventory|
    ensures RowMeans(x, i, RowOf(x, i))
  {
    hide Guarded, IsProtected, LeadsTo, AskedToKeep, CalledActive, Admissible, ReasonsFor, Referrers, Leans, InOrder;
    SaysIff(x, i);
    GuardedIff(x, i);
    UnseenIsGuarded(x, i);
    var n := |x.registry|;
    var leading := Referrers(x, i, n);
    ReasonsMean(IntentOf(x.policy, x.registry[i]), IsUnknown(x.inventory[i]), |leading| > 0, IsProtected(x, i));
    var positions := ReferrersLean(x, i, n);
    LeansInside(x, i);
    assert NamesLeaning(x, i, leading, positions);
    if |leading| > 0 {
      assert Leans(x, positions[0], i);
    }
    if j :| Leans(x, j, i) {
      assert j in positions;
    }
  }

  lemma LeansInside(x: Input, i: nat)
    requires i < |x.registry| == |x.inventory|
    ensures forall j :: Leans(x, j, i) ==> 0 <= j < |x.registry|
  {
    hide Guarded, LeadsTo;
  }

  lemma UnseenIsGuarded(x: Input, i: nat)
    requires i < |x.registry| == |x.inventory|
    ensures Unseen(x, i) ==> Guarded(x, i)
  {
    if Unseen(x, i) {
      assert Holds(x, i);
    }
  }

  // --------------------------------------------------------------------------------- the groups

  ghost predicate Together(groups: seq<seq<string>>, a: string, b: string)
  {
    exists g :: 0 <= g < |groups| && a in groups[g] && b in groups[g]
  }

  /** Two registered entries are named in one group exactly when they are the same or lead to each other. */
  ghost predicate GroupsMean(x: Input, groups: seq<seq<string>>)
  {
    forall i: nat, j: nat :: i < |x.registry| && j < |x.registry| ==>
      (Together(groups, x.registry[i], x.registry[j]) <==> i == j || (LeadsTo(x, i, j) && LeadsTo(x, j, i)))
  }
}
