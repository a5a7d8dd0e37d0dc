/** The retention preview: which registered suites are protected, why, and how they depend on each other. */
module Retention {
  import opened Reachability

  datatype Wish = Keep | Review | Other(text: string)

  datatype Intent = Intent(id: string, intent: Wish, active: bool, references: seq<string>)

  datatype Observation = Observation(observed: bool, metadataPresent: bool, sizeComplete: bool)

  datatype RowStatus = ReviewCandidate | Protected | Unknown

  datatype Reason = KeepRequested | ActiveDeclared | ObservationUnknown | ReferencedByProtected | NotProtectedInRegistry

  datatype Row = Row(id: string, status: RowStatus, reasons: seq<Reason>, referencedBy: seq<string>)

  const MAX_REFERENCES := 16

  predicate Distinct(ids: seq<string>)
  {
    forall i, j :: 0 <= i < j < |ids| ==> ids[i] != ids[j]
  }

  // ----------------------------------------------------------------------------- the policy

  predicate IntentOk(registry: seq<string>, e: Intent)
  {
    e.id in registry && !e.intent.Other? && |e.references| <= MAX_REFERENCES
    && (forall k :: 0 <= k < |e.references| ==> e.references[k] in registry) && Distinct(e.references)
  }

  predicate PolicyOk(registry: seq<string>, policy: seq<Intent>)
  {
    |policy| == |registry| && (forall k :: 0 <= k < |policy| ==> IntentOk(registry, policy[k]))
    && forall i, j :: 0 <= i < j < |policy| ==> policy[i].id != policy[j].id
  }

  method CheckReferences(ids: set<string>, ghost registry: seq<string>, references: seq<string>) returns (ok: bool)
    requires forall id :: id in ids <==> id in registry
    ensures ok <==> (forall k :: 0 <= k < |references| ==> references[k] in registry) && Distinct(references)
  {
    var refs: set<string> := {};
    for k := 0 to |references|
      invariant forall i :: 0 <= i < k ==> references[i] in registry && references[i] in refs
      invariant forall id :: id in refs ==> exists i :: 0 <= i < k && references[i] == id
      invariant Distinct(references[..k])
    {
      if references[k] !in ids || references[k] in refs {
        return false;
      }
      refs := refs + {references[k]};
      assert references[..k + 1] == references[..k] + [references[k]];
    }
    assert references[..|references|] == references;
    ok := true;
  }

  method CheckPolicy(registry: seq<string>, policy: seq<Intent>) returns (ok: bool)
    ensures ok <==> PolicyOk(registry, policy)
  {
    if |policy| != |registry| {
      return false;
    }
    var ids: set<string> := {};
    for i := 0 to |registry|
      invariant forall id :: id in ids <==> id in registry[..i]
    {
      ids := ids + {registry[i]};
      assert registry[..i + 1] == registry[..i] + [registry[i]];
    }
    assert registry[..|registry|] == registry;
    var seen: set<string> := {};
    for k := 0 to |policy|
      invariant forall i :: 0 <= i < k ==> IntentOk(registry, policy[i]) && policy[i].id in seen
      invariant forall id :: id in seen ==> exists i :: 0 <= i < k && policy[i].id == id
      invariant forall i, j :: 0 <= i < j < k ==> policy[i].id != policy[j].id
    {
      var e := policy[k];
      if e.id !in ids || e.id in seen || e.intent.Other? || |e.references| > MAX_REFERENCES {
        return false;
      }
      var refsOk := CheckReferences(ids, registry, e.references);
      if !refsOk {
        assert !IntentOk(registry, e);
        return false;
      }
      seen := seen + {e.id};
    }
    ok := true;
  }

  // ------------------------------------------------------------------------------- the meaning

  const NO_INTENT := Intent("", Other(""), false, [])

  /** What the policy says of an entry; a missing one reads as Go's zero value. */
  function IntentOf(policy: seq<Intent>, id: string): Intent
  {
    if policy == [] then NO_INTENT
    else if policy[|policy| - 1].id == id then policy[|policy| - 1]
    else IntentOf(policy[..|policy| - 1], id)
  }

  predicate IsUnknown(o: Observation)
  {
    !o.observed || !o.metadataPresent || !o.sizeComplete
  }

  datatype Input = Input(registry: seq<string>, policy: seq<Intent>, inventory: seq<Observation>)

  /** A registry names each entry once, the policy is valid for it, and the inventory has one row an entry. */
  ghost predicate Admissible(x: Input)
  {
    Distinct(x.registry) && PolicyOk(x.registry, x.policy) && |x.inventory| == |x.registry|
  }

  /** Entry i references entry j. */
  predicate Refers(x: Input, i: nat, j: nat)
    requires i < |x.registry| && j < |x.registry|
  {
    x.registry[j] in IntentOf(x.policy, x.registry[i]).references
  }

  ghost function References(x: Input): Edges
  {
    set i: nat, j: nat | i < |x.registry| && j < |x.registry| && Refers(x, i, j) :: (i, j)
  }

  ghost predicate Reach(x: Input, i: nat, j: nat)
  {
    Reaches(References(x), i, j)
  }

  predicate Initial(x: Input, i: nat)
    requires i < |x.registry| == |x.inventory|
  {
    var intent := IntentOf(x.policy, x.registry[i]);
    IsUnknown(x.inventory[i]) || intent.active || intent.intent.Keep?
  }

  /** Protected by itself, or through a chain of references from one that is. */
  ghost predicate IsProtected(x: Input, i: nat)
    requires i < |x.registry| == |x.inventory|
  {
    exists s: nat :: s < |x.registry| && Initial(x, s) && (s == i || Reach(x, s, i))
  }

  lemma InitialIsProtected(x: Input, i: nat)
    requires i < |x.registry| == |x.inventory|
    ensures Initial(x, i) ==> IsProtected(x, i)
  {
  }

  /** Protection is closed under references: whatever references a review candidate is one too. */
  lemma ProtectionSpreads(x: Input, i: nat, j: nat)
    requires i < |x.registry| == |x.inventory| && j < |x.registry| && IsProtected(x, i) && Reach(x, i, j)
    ensures IsProtected(x, j)
  {
    var s: nat :| s < |x.registry| && Initial(x, s) && (s == i || Reach(x, s, i));
    if s != i {
      ReachesTransitive(References(x), s, i, j);
    }
    assert Initial(x, s) && Reach(x, s, j);
  }

  lemma DirectReach(x: Input, i: nat, j: nat)
    requires i < |x.registry| && j < |x.registry| && Refers(x, i, j)
    ensures Reach(x, i, j)
  {
    var p := [i, j];
    assert Walk(References(x), p) && Joins(p, i, j);
  }

  // ----------------------------------------------------------------------------------- the rows

  /** The names, in registry order, of the other protected entries among the first n that lead to i. */
  ghost function Referrers(x: Input, i: nat, n: nat): (names: seq<string>)
    requires i < |x.registry| == |x.inventory| && n <= |x.registry|
  {
    if n == 0 then []
    else
      Referrers(x, i, n - 1)
        + (if n - 1 != i && IsProtected(x, n - 1) && Reach(x, n - 1, i) then [x.registry[n - 1]] else [])
  }

  function ReasonsFor(intent: Intent, unknown: bool, referenced: bool, guarded: bool): seq<Reason>
  {
    (if intent.intent.Keep? then [KeepRequested] else [])
    + (if intent.active then [ActiveDeclared] else [])
    + (if unknown then [ObservationUnknown] else [])
    + (if referenced then [ReferencedByProtected] else [])
    + (if guarded then [] else [NotProtectedInRegistry])
  }

  ghost function RowOf(x: Input, i: nat): Row
    requires i < |x.registry| == |x.inventory|
  {
    var intent := IntentOf(x.policy, x.registry[i]);
    var leading := Referrers(x, i, |x.registry|);
    var unknown := IsUnknown(x.inventory[i]);
    Row(x.registry[i],
        if unknown then Unknown else if IsProtected(x, i) then Protected else ReviewCandidate,
        ReasonsFor(intent, unknown, |leading| > 0, IsProtected(x, i)),
        leading)
  }

  lemma {:induction false} ReferrersMember(x: Input, i: nat, n: nat, j: nat)
    requires i < |x.registry| == |x.inventory| && n <= |x.registry| && Distinct(x.registry) && j < |x.registry|
    ensures x.registry[j] in Referrers(x, i, n) <==> j < n && j != i && IsProtected(x, j) && Reach(x, j, i)
    decreases n
  {
    if n > 0 {
      ReferrersMember(x, i, n - 1, j);
    }
  }

  lemma {:induction false} ReferrersAreEntries(x: Input, i: nat, n: nat) returns (j: nat)
    requires i < |x.registry| == |x.inventory| && n <= |x.registry| && |Referrers(x, i, n)| > 0
    ensures j < n && x.registry[j] in Referrers(x, i, n)
    decreases n
  {
    if |Referrers(x, i, n - 1)| > 0 {
      j := ReferrersAreEntries(x, i, n - 1);
    } else {
      j := n - 1;
    }
  }

  /** A row is a review candidate exactly when nothing protects it: neither itself nor any protected entry that leads to it. */
  lemma CandidateIff(x: Input, i: nat)
    requires i < |x.registry| && Admissible(x)
    ensures RowOf(x, i).status.ReviewCandidate? <==> RowOf(x, i).reasons == [NotProtectedInRegistry]
    ensures RowOf(x, i).status.ReviewCandidate? <==> !Initial(x, i) && |RowOf(x, i).referencedBy| == 0
  {
    var n := |x.registry|;
    if |Referrers(x, i, n)| > 0 {
      var j := ReferrersAreEntries(x, i, n);
      ReferrersMember(x, i, n, j);
      ProtectionSpreads(x, j, i);
    }
    if IsProtected(x, i) && !Initial(x, i) {
      var s: nat :| s < n && Initial(x, s) && (s == i || Reach(x, s, i));
      assert IsProtected(x, s);
      ReferrersMember(x, i, n, s);
    }
    if Initial(x, i) {
      assert IsProtected(x, i);
    }
    if IsProtected(x, i) {
      assert NotProtectedInRegistry !in RowOf(x, i).reasons;
    } else {
      assert [] + [] + [] + [] + [NotProtectedInRegistry] == [NotProtectedInRegistry];
    }
  }

  lemma ReasonMembers(intent: Intent, unknown: bool, referenced: bool, guarded: bool)
    ensures var reasons := ReasonsFor(intent, unknown, referenced, guarded);
      && (NotProtectedInRegistry in reasons <==> !guarded)
      && (ObservationUnknown in reasons <==> unknown)
      && (reasons == [] ==> guarded && !unknown && !referenced && !intent.intent.Keep? && !intent.active)
  {
  }

  /** Every row that is not a candidate gives a reason that protects it. */
  lemma EveryRowIsExplained(x: Input, i: nat)
    requires i < |x.registry| && Admissible(x) && !RowOf(x, i).status.ReviewCandidate?
    ensures NotProtectedInRegistry !in RowOf(x, i).reasons && RowOf(x, i).reasons != []
    ensures RowOf(x, i).status.Unknown? <==> ObservationUnknown in RowOf(x, i).reasons
  {
    CandidateIff(x, i);
    InitialIsProtected(x, i);
    var intent, leading, unknown := IntentOf(x.policy, x.registry[i]), Referrers(x, i, |x.registry|), IsUnknown(x.inventory[i]);
    ReasonMembers(intent, unknown, |leading| > 0, IsProtected(x, i));
    hide ReasonsFor, Referrers, IsProtected;
  }

  /** Whatever references a review candidate, directly or not, is itself a review candidate. */
  lemma CandidatesAreReferencedByCandidates(x: Input, i: nat, j: nat)
    requires Admissible(x) && i < |x.registry| && j < |x.registry| && (Refers(x, i, j) || Reach(x, i, j))
    requires RowOf(x, j).status.ReviewCandidate?
    ensures RowOf(x, i).status.ReviewCandidate?
  {
    if Refers(x, i, j) {
      DirectReach(x, i, j);
    }
    InitialIsProtected(x, i);
    if IsProtected(x, i) {
      ProtectionSpreads(x, i, j);
    }
  }

  // ----------------------------------------------------------------------- dependency groups

  ghost predicate Mutual(x: Input, i: nat, j: nat)
  {
    Reach(x, i, j) && Reach(x, j, i)
  }

  /** Entry j belongs to the group that i opens. */
  ghost predicate Joined(x: Input, i: nat, j: nat)
  {
    i == j || (i < j && Mutual(x, i, j))
  }

  /** Entry j is in a group opened before entry i. */
  ghost predicate Grouped(x: Input, i: nat, j: nat)
  {
    exists l: nat :: l < i && Joined(x, l, j)
  }

  ghost function GroupOf(x: Input, i: nat, n: nat): seq<nat>
  {
    if n == 0 then [] else GroupOf(x, i, n - 1) + (if Joined(x, i, n - 1) then [n - 1] else [])
  }

  /** The groups opened by the first i entries, as positions. */
  ghost function Groups(x: Input, i: nat): seq<seq<nat>>
    requires i <= |x.registry|
  {
    if i == 0 then []
    else Groups(x, i - 1) + (if Grouped(x, i - 1, i - 1) then [] else [GroupOf(x, i - 1, |x.registry|)])
  }

  lemma {:induction false} GroupMember(x: Input, i: nat, n: nat, j: nat)
    ensures j in GroupOf(x, i, n) <==> j < n && Joined(x, i, j)
    decreases n
  {
    if n > 0 {
      GroupMember(x, i, n - 1, j);
    }
  }

  lemma JoinedTrans(x: Input, l: nat, i: nat, j: nat)
    requires Joined(x, l, i) && Joined(x, i, j)
    ensures Joined(x, l, j)
  {
    if l != i && i != j {
      ReachesTransitive(References(x), l, i, j);
      ReachesTransitive(References(x), j, i, l);
    }
  }

  lemma JoinedTogether(x: Input, l: nat, i: nat, j: nat)
    requires Joined(x, l, i) && Joined(x, l, j) && i != j
    ensures Mutual(x, i, j)
  {
    if l != i && l != j {
      ReachesTransitive(References(x), i, l, j);
      ReachesTransitive(References(x), j, l, i);
    }
  }

  /** Every entry is in the group of the first entry it is joined to, which opens one. */
  lemma {:induction false} HasLeader(x: Input, i: nat) returns (l: nat)
    ensures l <= i && Joined(x, l, i) && !Grouped(x, l, l)
    decreases i
  {
    l := i;
    if Grouped(x, i, i) {
      var k: nat :| k < i && Joined(x, k, i);
      l := HasLeader(x, k);
      JoinedTrans(x, l, k, i);
    }
  }

  lemma {:induction false} LeaderHasGroup(x: Input, i: nat, l: nat) returns (g: nat)
    requires l < i <= |x.registry| && !Grouped(x, l, l)
    ensures g < |Groups(x, i)| && Groups(x, i)[g] == GroupOf(x, l, |x.registry|)
    decreases i
  {
    if l == i - 1 {
      g := |Groups(x, i)| - 1;
    } else {
      g := LeaderHasGroup(x, i - 1, l);
    }
  }

  lemma {:induction false} GroupHasLeader(x: Input, i: nat, g: nat) returns (l: nat)
    requires i <= |x.registry| && g < |Groups(x, i)|
    ensures l < i && !Grouped(x, l, l) && Groups(x, i)[g] == GroupOf(x, l, |x.registry|)
    decreases i
  {
    if g < |Groups(x, i - 1)| {
      l := GroupHasLeader(x, i - 1, g);
    } else {
      l := i - 1;
    }
  }

  /** Two entries share a group exactly when they are the same or lead to each other. */
  lemma SameGroupIff(x: Input, i: nat, j: nat)
    requires i < |x.registry| && j < |x.registry|
    ensures (exists g :: 0 <= g < |Groups(x, |x.registry|)| && i in Groups(x, |x.registry|)[g] && j in Groups(x, |x.registry|)[g])
      <==> i == j || Mutual(x, i, j)
  {
    var n := |x.registry|;
    if g: nat :| g < |Groups(x, n)| && i in Groups(x, n)[g] && j in Groups(x, n)[g] {
      var l := GroupHasLeader(x, n, g);
      GroupMember(x, l, n, i);
      GroupMember(x, l, n, j);
      if i != j {
        JoinedTogether(x, l, i, j);
      }
    }
    if i == j || Mutual(x, i, j) {
      var a, b := if i <= j then i else j, if i <= j then j else i;
      assert Joined(x, a, b);
      var l := HasLeader(x, a);
      JoinedTrans(x, l, a, b);
      var g := LeaderHasGroup(x, n, l);
      GroupMember(x, l, n, a);
      GroupMember(x, l, n, b);
      assert i in Groups(x, n)[g] && j in Groups(x, n)[g];
    }
  }

  /** No entry is in two groups, and groups are listed by their first entries. */
  lemma {:induction false} GroupsOrdered(x: Input, i: nat, g: nat, h: nat)
    requires i <= |x.registry| && g < h < |Groups(x, i)|
    ensures var a, b := Groups(x, i)[g], Groups(x, i)[h];
      && a != [] && b != [] && a[0] < b[0]
      && forall k :: k in a ==> k !in b
    decreases i
  {
    hide Joined, GroupOf;
    if h < |Groups(x, i - 1)| {
      GroupsOrdered(x, i - 1, g, h);
    } else {
      var n := |x.registry|;
      var l := GroupHasLeader(x, i - 1, g);
      GroupStartsAt(x, l, n);
      GroupStartsAt(x, i - 1, n);
      forall k | k in GroupOf(x, l, n) ensures k !in GroupOf(x, i - 1, n) {
        GroupMember(x, l, n, k);
        GroupMember(x, i - 1, n, k);
        if Joined(x, i - 1, k) {
          JoinedBack(x, l, i - 1, k);
        }
      }
    }
  }

  lemma JoinedBack(x: Input, l: nat, i: nat, k: nat)
    requires l < i && Joined(x, l, k) && Joined(x, i, k)
    ensures Grouped(x, i, i)
  {
    if k != i {
      ReachesTransitive(References(x), l, k, i);
      ReachesTransitive(References(x), i, k, l);
    }
    assert Joined(x, l, i);
  }

  /** A group lists its members in registry order, starting with the entry that opened it. */
  lemma {:induction false} GroupStartsAt(x: Input, l: nat, n: nat)
    ensures l < n ==> GroupOf(x, l, n) != [] && GroupOf(x, l, n)[0] == l
    ensures n <= l ==> GroupOf(x, l, n) == []
    ensures forall a, b :: 0 <= a < b < |GroupOf(x, l, n)| ==> GroupOf(x, l, n)[a] < GroupOf(x, l, n)[b] < n
    ensures forall a :: 0 <= a < |GroupOf(x, l, n)| ==> GroupOf(x, l, n)[a] < n
    decreases n
  {
    if n > 0 {
      GroupStartsAt(x, l, n - 1);
    }
  }
}
