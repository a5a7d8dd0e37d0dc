/** Transitive closure of a reference graph, computed in place. */
module Reachability {
  type Edges = set<(nat, nat)>

  /** A walk along references, with at least one step. */
  ghost predicate Walk(edges: Edges, p: seq<nat>)
  {
    |p| >= 2 && forall x :: 0 <= x < |p| - 1 ==> (p[x], p[x + 1]) in edges
  }

  ghost predicate Joins(p: seq<nat>, i: nat, j: nat)
  {
    |p| >= 2 && p[0] == i && p[|p| - 1] == j
  }

  /** One or more references lead from i to j. */
  ghost predicate Reaches(edges: Edges, i: nat, j: nat)
  {
    exists p :: Walk(edges, p) && Joins(p, i, j)
  }

  ghost predicate Inside(p: seq<nat>, k: nat)
  {
    forall x :: 0 < x < |p| - 1 ==> p[x] < k
  }

  /** As Reaches, with every intermediate node below k. */
  ghost predicate Via(edges: Edges, k: nat, i: nat, j: nat)
  {
    exists p :: Walk(edges, p) && Joins(p, i, j) && Inside(p, k)
  }

  ghost predicate Within(edges: Edges, n: nat)
  {
    forall e :: e in edges ==> e.0 < n && e.1 < n
  }

  lemma JoinWalks(edges: Edges, p: seq<nat>, q: seq<nat>)
    requires Walk(edges, p) && Walk(edges, q) && p[|p| - 1] == q[0]
    ensures Walk(edges, p + q[1..])
  {
    var r := p + q[1..];
    forall x | 0 <= x < |r| - 1 ensures (r[x], r[x + 1]) in edges {
      if x >= |p| - 1 {
        assert r[x] == q[x - (|p| - 1)] && r[x + 1] == q[x + 1 - (|p| - 1)];
      }
    }
  }

  lemma ReachesTransitive(edges: Edges, a: nat, b: nat, c: nat)
    requires Reaches(edges, a, b) && Reaches(edges, b, c)
    ensures Reaches(edges, a, c)
  {
    var p :| Walk(edges, p) && Joins(p, a, b);
    var q :| Walk(edges, q) && Joins(q, b, c);
    JoinWalks(edges, p, q);
    assert Joins(p + q[1..], a, c);
  }

  lemma ViaJoin(edges: Edges, k: nat, i: nat, j: nat)
    requires Via(edges, k + 1, i, k) && Via(edges, k + 1, k, j)
    ensures Via(edges, k + 1, i, j)
  {
    var p :| Walk(edges, p) && Joins(p, i, k) && Inside(p, k + 1);
    var q :| Walk(edges, q) && Joins(q, k, j) && Inside(q, k + 1);
    JoinWalks(edges, p, q);
    var r := p + q[1..];
    forall x | 0 < x < |r| - 1 ensures r[x] < k + 1 {
      if x >= |p| {
        assert r[x] == q[x - (|p| - 1)];
      }
    }
    assert Joins(r, i, j);
  }

  lemma ViaWeaken(edges: Edges, k: nat, i: nat, j: nat)
    requires Via(edges, k, i, j)
    ensures Via(edges, k + 1, i, j)
  {
    var p :| Walk(edges, p) && Joins(p, i, j) && Inside(p, k);
    assert Inside(p, k + 1);
  }

  /** The part of a walk up to the first interior visit to k. */
  lemma {:induction false} FirstVisit(p: seq<nat>, k: nat, from: nat) returns (f: nat)
    requires 1 <= from <= |p| - 1 && Inside(p, k + 1) && forall x :: 0 < x < from ==> p[x] < k
    ensures from <= f <= |p| - 1 && (forall x :: 0 < x < f ==> p[x] < k) && (f < |p| - 1 ==> p[f] == k)
    decreases |p| - from
  {
    if from == |p| - 1 || p[from] == k {
      f := from;
    } else {
      f := FirstVisit(p, k, from + 1);
    }
  }

  lemma {:induction false} LastVisit(p: seq<nat>, k: nat, from: nat) returns (l: nat)
    requires 0 < from < |p| - 1 && p[from] == k && Inside(p, k + 1)
    ensures from <= l < |p| - 1 && p[l] == k && forall x :: l < x < |p| - 1 ==> p[x] < k
    decreases |p| - from
  {
    l := from;
    if next :| from < next < |p| - 1 && p[next] == k {
      l := LastVisit(p, k, next);
    }
  }

  /** A walk through nodes up to k either avoids k or splits into two that avoid it. */
  lemma ViaSplit(edges: Edges, k: nat, i: nat, j: nat)
    requires Via(edges, k + 1, i, j)
    ensures Via(edges, k, i, j) || (Via(edges, k, i, k) && Via(edges, k, k, j))
  {
    var p :| Walk(edges, p) && Joins(p, i, j) && Inside(p, k + 1);
    var f := FirstVisit(p, k, 1);
    if f == |p| - 1 {
      assert Inside(p, k);
    } else {
      var l := LastVisit(p, k, f);
      var head, tail := p[..f + 1], p[l..];
      assert Walk(edges, head) && Joins(head, i, k) && Inside(head, k);
      assert Walk(edges, tail) && Joins(tail, k, j) && Inside(tail, k);
    }
  }

  lemma ViaNoneIsEdge(edges: Edges, i: nat, j: nat)
    ensures Via(edges, 0, i, j) <==> (i, j) in edges
  {
    if (i, j) in edges {
      var p := [i, j];
      assert Walk(edges, p) && Joins(p, i, j) && Inside(p, 0);
    }
    if Via(edges, 0, i, j) {
      var p :| Walk(edges, p) && Joins(p, i, j) && Inside(p, 0);
      assert (p[0], p[1]) in edges;
      if |p| > 2 {
        assert false;
      }
    }
  }

  lemma ViaAllIsReaches(edges: Edges, n: nat, i: nat, j: nat)
    requires Within(edges, n)
    ensures Via(edges, n, i, j) <==> Reaches(edges, i, j)
  {
    if p :| Walk(edges, p) && Joins(p, i, j) {
      forall x | 0 < x < |p| - 1 ensures p[x] < n {
        assert (p[x], p[x + 1]) in edges;
      }
      assert Inside(p, n);
    }
  }

  // --------------------------------------------------------------------------- the loops

  ghost predicate Square(reach: array2<bool>, n: nat)
  {
    reach.Length0 == n && reach.Length1 == n
  }

  /** One entry: what it may hold between stage k and stage k + 1. */
  ghost predicate Between(reach: array2<bool>, edges: Edges, k: nat, i: nat, j: nat)
    requires i < reach.Length0 && j < reach.Length1
    reads reach
  {
    (Via(edges, k, i, j) ==> reach[i, j]) && (reach[i, j] ==> Via(edges, k + 1, i, j))
  }

  ghost predicate Done(reach: array2<bool>, edges: Edges, k: nat, i: nat, j: nat)
    requires i < reach.Length0 && j < reach.Length1
    reads reach
  {
    reach[i, j] <==> Via(edges, k, i, j)
  }

  ghost predicate Advanced(reach: array2<bool>, edges: Edges, k: nat, i: nat, j: nat)
    requires i < reach.Length0 && j < reach.Length1
    reads reach
  {
    Done(reach, edges, k + 1, i, j)
  }

  lemma DoneIsBetween(reach: array2<bool>, edges: Edges, k: nat, i: nat, j: nat)
    requires i < reach.Length0 && j < reach.Length1 && Done(reach, edges, k, i, j)
    ensures Between(reach, edges, k, i, j)
  {
    if Via(edges, k, i, j) {
      ViaWeaken(edges, k, i, j);
    }
  }

  lemma AdvancedIsBetween(reach: array2<bool>, edges: Edges, k: nat, i: nat, j: nat)
    requires i < reach.Length0 && j < reach.Length1 && Advanced(reach, edges, k, i, j)
    ensures Between(reach, edges, k, i, j)
  {
    if Via(edges, k, i, j) {
      ViaWeaken(edges, k, i, j);
    }
  }

  lemma Advance(edges: Edges, k: nat, i: nat, j: nat, ij: bool, ik: bool, kj: bool)
    requires (Via(edges, k, i, j) ==> ij) && (ij ==> Via(edges, k + 1, i, j))
    requires (Via(edges, k, i, k) ==> ik) && (ik ==> Via(edges, k + 1, i, k))
    requires (Via(edges, k, k, j) ==> kj) && (kj ==> Via(edges, k + 1, k, j))
    ensures (ij || (ik && kj)) <==> Via(edges, k + 1, i, j)
  {
    if ik && kj {
      ViaJoin(edges, k, i, j);
    }
    if Via(edges, k + 1, i, j) {
      ViaSplit(edges, k, i, j);
    }
  }

  /** One row of one stage, in place: entries already advanced only help. */
  method AdvanceRow(reach: array2<bool>, n: nat, k: nat, i: nat, ghost edges: Edges)
    requires Square(reach, n) && k < n && i < n
    requires forall a, b :: 0 <= a < n && 0 <= b < n ==> Between(reach, edges, k, a, b)
    modifies reach
    ensures forall a, b :: 0 <= a < n && 0 <= b < n ==> Between(reach, edges, k, a, b)
    ensures forall b :: 0 <= b < n ==> Advanced(reach, edges, k, i, b)
    ensures forall a, b :: 0 <= a < n && 0 <= b < n && a != i ==> reach[a, b] == old(reach[a, b])
  {
    for j := 0 to n
      invariant forall a, b :: 0 <= a < n && 0 <= b < n ==> Between(reach, edges, k, a, b)
      invariant forall b :: 0 <= b < j ==> Advanced(reach, edges, k, i, b)
      invariant forall a, b :: 0 <= a < n && 0 <= b < n && a != i ==> reach[a, b] == old(reach[a, b])
    {
      label Before:
      assert Between(reach, edges, k, i, j) && Between(reach, edges, k, i, k) && Between(reach, edges, k, k, j);
      Advance(edges, k, i, j, reach[i, j], reach[i, k], reach[k, j]);
      reach[i, j] := reach[i, j] || (reach[i, k] && reach[k, j]);
      assert Advanced(reach, edges, k, i, j);
      AdvancedIsBetween(reach, edges, k, i, j);
      forall a, b | 0 <= a < n && 0 <= b < n ensures Between(reach, edges, k, a, b) {
        if (a, b) != (i, j) {
          assert old@Before(Between(reach, edges, k, a, b));
        }
      }
      forall b | 0 <= b < j + 1 ensures Advanced(reach, edges, k, i, b) {
        if b < j {
          assert old@Before(Advanced(reach, edges, k, i, b));
        }
      }
    }
  }

  method AdvanceStage(reach: array2<bool>, n: nat, k: nat, ghost edges: Edges)
    requires Square(reach, n) && k < n
    requires forall a, b :: 0 <= a < n && 0 <= b < n ==> Done(reach, edges, k, a, b)
    modifies reach
    ensures forall a, b :: 0 <= a < n && 0 <= b < n ==> Advanced(reach, edges, k, a, b)
  {
    forall a, b | 0 <= a < n && 0 <= b < n ensures Between(reach, edges, k, a, b) {
      DoneIsBetween(reach, edges, k, a, b);
    }
    for i := 0 to n
      invariant forall a, b :: 0 <= a < n && 0 <= b < n ==> Between(reach, edges, k, a, b)
      invariant forall a, b :: 0 <= a < i && 0 <= b < n ==> Advanced(reach, edges, k, a, b)
    {
      label Before:
      AdvanceRow(reach, n, k, i, edges);
      forall a, b | 0 <= a < i + 1 && 0 <= b < n ensures Advanced(reach, edges, k, a, b) {
        if a < i {
          assert old@Before(Advanced(reach, edges, k, a, b));
        }
      }
    }
  }

  /** The triple loop turns direct references into reachability by one or more. */
  method Close(reach: array2<bool>, n: nat, ghost edges: Edges)
    requires Square(reach, n) && Within(edges, n)
    requires forall a, b :: 0 <= a < n && 0 <= b < n ==> (reach[a, b] <==> (a, b) in edges)
    modifies reach
    ensures forall a, b :: 0 <= a < n && 0 <= b < n ==> (reach[a, b] <==> Reaches(edges, a, b))
  {
    forall a, b | 0 <= a < n && 0 <= b < n ensures Done(reach, edges, 0, a, b) {
      ViaNoneIsEdge(edges, a, b);
    }
    for k := 0 to n
      invariant forall a, b :: 0 <= a < n && 0 <= b < n ==> Done(reach, edges, k, a, b)
    {
      AdvanceStage(reach, n, k, edges);
      ghost var next := k + 1;
      forall a, b | 0 <= a < n && 0 <= b < n ensures Done(reach, edges, next, a, b) {
        assert Advanced(reach, edges, k, a, b);
      }
    }
    forall a, b | 0 <= a < n && 0 <= b < n ensures reach[a, b] <==> Reaches(edges, a, b) {
      assert Done(reach, edges, n, a, b);
      ViaAllIsReaches(edges, n, a, b);
    }
  }
}
