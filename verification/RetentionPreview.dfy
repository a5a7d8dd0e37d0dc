/** The statements of the preview, on a reachability matrix and flag arrays. */
module RetentionPreview {
  import opened Reachability
  import opened Retention
  import opened RetentionMeaning

  function Lookup(intents: map<string, Intent>, id: string): Intent
  {
    if id in intents then intents[id] else NO_INTENT
  }

  method IndexPolicy(policy: seq<Intent>) returns (intents: map<string, Intent>)
    ensures forall id :: Lookup(intents, id) == IntentOf(policy, id)
  {
    intents := map[];
    for k := 0 to |policy|
      invariant forall id :: Lookup(intents, id) == IntentOf(policy[..k], id)
    {
      ghost var before := intents;
      intents := intents[policy[k].id := policy[k]];
      assert policy[..k + 1][..k] == policy[..k];
      forall id ensures Lookup(intents, id) == IntentOf(policy[..k + 1], id) {
        assert Lookup(before, id) == IntentOf(policy[..k], id);
      }
    }
    assert policy[..|policy|] == policy;
  }

  method IndexRegistry(registry: seq<string>) returns (indices: map<string, nat>)
    requires Distinct(registry)
    ensures forall id :: id in registry <==> id in indices
    ensures forall id :: id in indices ==> indices[id] < |registry| && registry[indices[id]] == id
  {
    indices := map[];
    for i := 0 to |registry|
      invariant forall j :: 0 <= j < i ==> registry[j] in indices
      invariant forall id :: id in indices ==> indices[id] < i && registry[indices[id]] == id
    {
      indices := indices[registry[i] := i];
    }
  }

  lemma ReferencesKnown(x: Input, i: nat)
    requires Admissible(x) && i < |x.registry|
    ensures forall k :: 0 <= k < |IntentOf(x.policy, x.registry[i]).references| ==>
      IntentOf(x.policy, x.registry[i]).references[k] in x.registry
  {
    IntentIsListed(x.policy, x.registry[i]);
    var e := IntentOf(x.policy, x.registry[i]);
    if e != NO_INTENT {
      var k :| 0 <= k < |x.policy| && x.policy[k] == e;
      assert IntentOk(x.registry, x.policy[k]);
    }
  }

  lemma {:induction false} IntentIsListed(policy: seq<Intent>, id: string)
    ensures IntentOf(policy, id) == NO_INTENT || IntentOf(policy, id) in policy
    decreases |policy|
  {
    if policy != [] {
      IntentIsListed(policy[..|policy| - 1], id);
    }
  }

  /** Enter the direct references of one entry in its row. */
  method MarkRow(x: Input, i: nat, references: seq<string>, indices: map<string, nat>, reach: array2<bool>)
    requires Admissible(x) && i < |x.registry| && Square(reach, |x.registry|)
    requires references == IntentOf(x.policy, x.registry[i]).references
    requires forall k :: 0 <= k < |references| ==> references[k] in indices
    requires forall id :: id in indices ==> indices[id] < |x.registry| && x.registry[indices[id]] == id
    requires forall b :: 0 <= b < |x.registry| ==> !reach[i, b]
    modifies reach
    ensures forall b :: 0 <= b < |x.registry| ==> (reach[i, b] <==> Refers(x, i, b))
    ensures forall a, b :: 0 <= a < |x.registry| && 0 <= b < |x.registry| && a != i ==> reach[a, b] == old(reach[a, b])
  {
    for k := 0 to |references|
      invariant forall b :: 0 <= b < |x.registry| ==> (reach[i, b] <==> x.registry[b] in references[..k])
      invariant forall a, b :: 0 <= a < |x.registry| && 0 <= b < |x.registry| && a != i ==> reach[a, b] == old(reach[a, b])
    {
      reach[i, indices[references[k]]] := true;
      assert references[..k + 1] == references[..k] + [references[k]];
    }
    assert references[..|references|] == references;
  }

  ghost predicate Closed(x: Input, reach: array2<bool>)
    reads reach
  {
    Square(reach, |x.registry|)
    && forall a, b :: 0 <= a < |x.registry| && 0 <= b < |x.registry| ==> (reach[a, b] <==> Reach(x, a, b))
  }

  ghost predicate Settled(x: Input, guarded: array<bool>)
    requires |x.registry| == |x.inventory|
    reads guarded
  {
    guarded.Length == |x.registry| && forall i :: 0 <= i < |x.registry| ==> (guarded[i] <==> IsProtected(x, i))
  }

  method FillReach(x: Input, intents: map<string, Intent>, reach: array2<bool>)
    requires Admissible(x) && Square(reach, |x.registry|)
    requires forall id :: Lookup(intents, id) == IntentOf(x.policy, id)
    requires forall a, b :: 0 <= a < |x.registry| && 0 <= b < |x.registry| ==> !reach[a, b]
    modifies reach
    ensures Closed(x, reach)
  {
    var n := |x.registry|;
    var indices := IndexRegistry(x.registry);
    for i := 0 to n
      invariant forall a, b :: 0 <= a < i && 0 <= b < n ==> (reach[a, b] <==> Refers(x, a, b))
      invariant forall a, b :: i <= a < n && 0 <= b < n ==> !reach[a, b]
    {
      ReferencesKnown(x, i);
      var references := Lookup(intents, x.registry[i]).references;
      MarkRow(x, i, references, indices, reach);
    }
    Close(reach, n, References(x));
  }

  /** Passes over the protected entries; one already reaches everything, since reach is transitive. */
  method Spread(x: Input, reach: array2<bool>, guarded: array<bool>)
    requires Admissible(x) && Closed(x, reach) && guarded.Length == |x.registry|
    requires forall i :: 0 <= i < |x.registry| ==> (guarded[i] <==> Initial(x, i))
    modifies guarded
    ensures Settled(x, guarded)
  {
    var n := |x.registry|;
    for pass := 0 to n
      invariant Safe(x, guarded) && (pass > 0 ==> Settled(x, guarded))
    {
      for i := 0 to n
        invariant Safe(x, guarded)
        invariant forall s, j :: 0 <= s < i && 0 <= j < n && Initial(x, s) && Reach(x, s, j) ==> guarded[j]
      {
        if guarded[i] {
          SpreadRow(x, reach, guarded, i);
        }
      }
      forall j | 0 <= j < n ensures guarded[j] <==> IsProtected(x, j) {
        if IsProtected(x, j) {
          var s: nat :| s < n && Initial(x, s) && (s == j || Reach(x, s, j));
        }
      }
    }
  }

  /** Everything protected at the start is marked, and everything marked is protected. */
  ghost predicate Safe(x: Input, guarded: array<bool>)
    requires |x.registry| == |x.inventory|
    reads guarded
  {
    guarded.Length == |x.registry|
    && (forall i :: 0 <= i < |x.registry| && Initial(x, i) ==> guarded[i])
    && forall i :: 0 <= i < |x.registry| && guarded[i] ==> IsProtected(x, i)
  }

  method SpreadRow(x: Input, reach: array2<bool>, guarded: array<bool>, i: nat)
    requires Admissible(x) && Closed(x, reach) && i < |x.registry| && Safe(x, guarded) && guarded[i]
    modifies guarded
    ensures Safe(x, guarded)
    ensures forall j :: 0 <= j < |x.registry| ==> guarded[j] == (old(guarded[j]) || Reach(x, i, j))
  {
    for j := 0 to |x.registry|
      invariant Safe(x, guarded)
      invariant forall k :: 0 <= k < j ==> guarded[k] == (old(guarded[k]) || Reach(x, i, k))
      invariant forall k :: j <= k < |x.registry| ==> guarded[k] == old(guarded[k])
    {
      if reach[i, j] {
        ProtectionSpreads(x, i, j);
        guarded[j] := true;
      }
    }
  }

  method MakeRow(x: Input, intents: map<string, Intent>, reach: array2<bool>, guarded: array<bool>, unknown: array<bool>, i: nat)
    returns (row: Row)
    requires Admissible(x) && Closed(x, reach) && Settled(x, guarded) && i < |x.registry|
    requires forall id :: Lookup(intents, id) == IntentOf(x.policy, id)
    requires unknown.Length == |x.registry| && unknown[i] == IsUnknown(x.inventory[i])
    ensures row == RowOf(x, i)
  {
    var intent := Lookup(intents, x.registry[i]);
    var status := ReviewCandidate;
    var referencedBy := ListReferrers(x, reach, guarded, i);
    var reasons := ListReasons(intent, unknown[i], |referencedBy| > 0, guarded[i]);
    if guarded[i] {
      status := Protected;
    }
    if unknown[i] {
      status := Unknown;
    }
    row := Row(x.registry[i], status, reasons, referencedBy);
  }

  method ListReferrers(x: Input, reach: array2<bool>, guarded: array<bool>, i: nat) returns (names: seq<string>)
    requires Admissible(x) && Closed(x, reach) && Settled(x, guarded) && i < |x.registry|
    ensures names == Referrers(x, i, |x.registry|)
  {
    names := [];
    for j := 0 to |x.registry|
      invariant names == Referrers(x, i, j)
    {
      if j != i && guarded[j] && reach[j, i] {
        names := names + [x.registry[j]];
      }
    }
  }

  method ListReasons(intent: Intent, unknown: bool, referenced: bool, guarded: bool) returns (reasons: seq<Reason>)
    ensures reasons == ReasonsFor(intent, unknown, referenced, guarded)
  {
    reasons := [];
    if intent.intent.Keep? {
      reasons := reasons + [KeepRequested];
    }
    if intent.active {
      reasons := reasons + [ActiveDeclared];
    }
    if unknown {
      reasons := reasons + [ObservationUnknown];
    }
    if referenced {
      reasons := reasons + [ReferencedByProtected];
    }
    if !guarded {
      reasons := reasons + [NotProtectedInRegistry];
    }
  }

  /** The names of these positions. */
  ghost predicate Names(x: Input, positions: seq<nat>, names: seq<string>)
  {
    |names| == |positions|
    && forall k :: 0 <= k < |positions| ==> positions[k] < |x.registry| && names[k] == x.registry[positions[k]]
  }

  ghost predicate Marked(x: Input, grouped: set<nat>, i: nat)
  {
    forall j: nat :: j < |x.registry| ==> (j in grouped <==> Grouped(x, i, j))
  }

  ghost function Members(positions: seq<nat>): set<nat>
  {
    set k | k in positions
  }

  lemma MembersAppend(positions: seq<nat>, j: nat)
    ensures Members(positions + [j]) == Members(positions) + {j}
  {
  }

  lemma NamesAppend(x: Input, positions: seq<nat>, names: seq<string>, j: nat)
    requires Names(x, positions, names) && j < |x.registry|
    ensures Names(x, positions + [j], names + [x.registry[j]])
  {
  }

  lemma GroupAtOpening(x: Input, i: nat)
    ensures GroupOf(x, i, i + 1) == [i] && Members(GroupOf(x, i, i + 1)) == {i}
  {
    GroupStartsAt(x, i, i);
  }

  lemma GroupedMembers(x: Input, i: nat, before: set<nat>)
    ensures forall j: nat :: j < |x.registry| ==>
      (j in before + Members(GroupOf(x, i, |x.registry|)) <==> j in before || Joined(x, i, j))
  {
    forall j: nat | j < |x.registry|
      ensures j in before + Members(GroupOf(x, i, |x.registry|)) <==> j in before || Joined(x, i, j)
    {
      GroupMember(x, i, |x.registry|, j);
    }
  }

  method JoinEntry(x: Input, reach: array2<bool>, i: nat, j: nat, ghost before: set<nat>, group: seq<string>, grouped: set<nat>)
    returns (group': seq<string>, grouped': set<nat>)
    requires Closed(x, reach) && i < j < |x.registry|
    requires Names(x, GroupOf(x, i, j), group) && grouped == before + Members(GroupOf(x, i, j))
    ensures Names(x, GroupOf(x, i, j + 1), group') && grouped' == before + Members(GroupOf(x, i, j + 1))
  {
    group', grouped' := group, grouped;
    if reach[i, j] && reach[j, i] {
      NamesAppend(x, GroupOf(x, i, j), group, j);
      MembersAppend(GroupOf(x, i, j), j);
      group' := group + [x.registry[j]];
      grouped' := grouped + {j};
    } else {
      assert GroupOf(x, i, j + 1) == GroupOf(x, i, j);
    }
  }

  /** Open a group at entry i and mark its members. */
  method OpenGroup(x: Input, reach: array2<bool>, i: nat, before: set<nat>) returns (group: seq<string>, grouped: set<nat>)
    requires Closed(x, reach) && i < |x.registry|
    ensures Names(x, GroupOf(x, i, |x.registry|), group)
    ensures forall j: nat :: j < |x.registry| ==> (j in grouped <==> j in before || Joined(x, i, j))
  {
    group := [x.registry[i]];
    grouped := before + {i};
    GroupAtOpening(x, i);
    for j := i + 1 to |x.registry|
      invariant Names(x, GroupOf(x, i, j), group)
      invariant grouped == before + Members(GroupOf(x, i, j))
    {
      group, grouped := JoinEntry(x, reach, i, j, before, group, grouped);
    }
    GroupedMembers(x, i, before);
  }

  lemma MarkStep(x: Input, before: set<nat>, i: nat, grouped: set<nat>)
    requires i < |x.registry| && Marked(x, before, i)
    requires if i in before then grouped == before
             else forall j: nat :: j < |x.registry| ==> (j in grouped <==> j in before || Joined(x, i, j))
    ensures Marked(x, grouped, i + 1)
  {
    forall j: nat | j < |x.registry| ensures j in grouped <==> Grouped(x, i + 1, j) {
      if i in before && Grouped(x, i + 1, j) && !Grouped(x, i, j) {
        var l: nat :| l < i && Joined(x, l, i);
        JoinedTrans(x, l, i, j);
        assert false;
      }
      if j in grouped && i !in before && !Grouped(x, i, j) {
        assert Joined(x, i, j);
      }
      if Grouped(x, i, j) {
        var l: nat :| l < i && Joined(x, l, j);
      }
    }
  }

  ghost predicate GroupsNamed(x: Input, positions: seq<seq<nat>>, groups: seq<seq<string>>)
  {
    |groups| == |positions| && forall g :: 0 <= g < |groups| ==> Names(x, positions[g], groups[g])
  }

  method NewMatrix(n: nat) returns (reach: array2<bool>)
    ensures fresh(reach) && Square(reach, n) && forall a, b :: 0 <= a < n && 0 <= b < n ==> !reach[a, b]
  {
    reach := new bool[n, n]((a, b) => false);
  }

  /** Which entries are unknown, and which are protected by themselves. */
  method Flags(x: Input, intents: map<string, Intent>) returns (guarded: array<bool>, unknown: array<bool>)
    requires Admissible(x) && forall id :: Lookup(intents, id) == IntentOf(x.policy, id)
    ensures fresh(guarded) && fresh(unknown) && guarded != unknown
    ensures guarded.Length == unknown.Length == |x.registry|
    ensures forall j :: 0 <= j < |x.registry| ==> unknown[j] == IsUnknown(x.inventory[j]) && guarded[j] == Initial(x, j)
  {
    var n := |x.registry|;
    guarded, unknown := new bool[n], new bool[n];
    for i := 0 to n
      invariant forall j :: 0 <= j < i ==> unknown[j] == IsUnknown(x.inventory[j]) && guarded[j] == Initial(x, j)
    {
      var intent := Lookup(intents, x.registry[i]);
      unknown[i] := IsUnknown(x.inventory[i]);
      guarded[i] := unknown[i] || intent.active || intent.intent.Keep?;
    }
  }

  /** The whole preview. */
  method Preview(x: Input) returns (rows: seq<Row>, groups: seq<seq<string>>)
    requires Admissible(x)
    ensures |rows| == |x.registry| && forall i :: 0 <= i < |rows| ==> rows[i] == RowOf(x, i)
    ensures GroupsNamed(x, Groups(x, |x.registry|), groups)
    ensures (forall i :: 0 <= i < |rows| ==> RowMeans(x, i, rows[i])) && GroupsMean(x, groups)
  {
    var n := |x.registry|;
    var intents := IndexPolicy(x.policy);
    var reach := NewMatrix(n);
    FillReach(x, intents, reach);
    var guarded, unknown := Flags(x, intents);
    Spread(x, reach, guarded);
    rows, groups := Report(x, intents, reach, guarded, unknown);
    forall i | 0 <= i < n ensures RowMeans(x, i, rows[i]) {
      RowMeaning(x, i);
    }
    GroupsMeaning(x, groups);
  }

  /** The named groups hold what the positions hold. */
  lemma GroupsMeaning(x: Input, groups: seq<seq<string>>)
    requires Admissible(x) && GroupsNamed(x, Groups(x, |x.registry|), groups)
    ensures GroupsMean(x, groups)
  {
    hide Groups, Admissible, LeadsTo, Reach;
    forall i: nat, j: nat | i < |x.registry| && j < |x.registry|
      ensures Together(groups, x.registry[i], x.registry[j]) <==> i == j || (LeadsTo(x, i, j) && LeadsTo(x, j, i)) {
      SameGroupIff(x, i, j);
      LeadsIff(x, i, j);
      LeadsIff(x, j, i);
      TogetherIff(x, groups, i, j);
    }
  }

  lemma NamedIn(x: Input, positions: seq<nat>, names: seq<string>, i: nat)
    requires Distinct(x.registry) && Names(x, positions, names) && i < |x.registry|
    ensures x.registry[i] in names <==> i in positions
  {
    if x.registry[i] in names {
      var k :| 0 <= k < |names| && names[k] == x.registry[i];
      assert positions[k] == i;
    }
    if i in positions {
      var k :| 0 <= k < |positions| && positions[k] == i;
      assert names[k] == x.registry[i];
    }
  }

  lemma TogetherIff(x: Input, groups: seq<seq<string>>, i: nat, j: nat)
    requires Admissible(x) && GroupsNamed(x, Groups(x, |x.registry|), groups) && i < |x.registry| && j < |x.registry|
    ensures var positions := Groups(x, |x.registry|);
      Together(groups, x.registry[i], x.registry[j]) <==> exists g :: 0 <= g < |positions| && i in positions[g] && j in positions[g]
  {
    hide Groups, Names, Distinct;
    var positions := Groups(x, |x.registry|);
    forall g | 0 <= g < |groups|
      ensures x.registry[i] in groups[g] <==> i in positions[g]
      ensures x.registry[j] in groups[g] <==> j in positions[g] {
      NamedIn(x, positions[g], groups[g], i);
      NamedIn(x, positions[g], groups[g], j);
    }
  }

  method Report(x: Input, intents: map<string, Intent>, reach: array2<bool>, guarded: array<bool>, unknown: array<bool>)
    returns (rows: seq<Row>, groups: seq<seq<string>>)
    requires Admissible(x) && Closed(x, reach) && Settled(x, guarded)
    requires forall id :: Lookup(intents, id) == IntentOf(x.policy, id)
    requires unknown.Length == |x.registry| && forall i :: 0 <= i < |x.registry| ==> unknown[i] == IsUnknown(x.inventory[i])
    ensures |rows| == |x.registry| && forall i :: 0 <= i < |rows| ==> rows[i] == RowOf(x, i)
    ensures GroupsNamed(x, Groups(x, |x.registry|), groups)
  {
    var n := |x.registry|;
    var grouped: set<nat> := {};
    rows, groups := [], [];
    for i := 0 to n
      invariant |rows| == i && forall j :: 0 <= j < i ==> rows[j] == RowOf(x, j)
      invariant Marked(x, grouped, i) && GroupsNamed(x, Groups(x, i), groups)
    {
      var row := MakeRow(x, intents, reach, guarded, unknown, i);
      rows := rows + [row];
      ghost var before := grouped;
      if i !in grouped {
        var group;
        group, grouped := OpenGroup(x, reach, i, grouped);
        groups := groups + [group];
      }
      MarkStep(x, before, i, grouped);
    }
  }
}
