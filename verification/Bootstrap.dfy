/** The deterministic stratified bootstrap interval, over reals. */
module Bootstrap {
  import opened Text
  import opened SplitMix

  const SAMPLES := 10_000
  const LOW_RANK := 249
  const HIGH_RANK := 9749

  /** A 64-bit float: an infinity, a NaN, or a number. */
  datatype Float = NotFinite | Finite(value: real)

  datatype Cluster = Cluster(family: string, domain: string, difference: Float)

  datatype Status = InvalidInput | Insufficient | Degenerate | Estimated(lower: real, upper: real)

  datatype Interval = Interval(samples: nat, seed: nat, families: nat, observed: real, status: Status)

  // ------------------------------------------------------------------------- sorting

  predicate SortedByFamily(cs: seq<Cluster>)
  {
    forall i, j :: 0 <= i < j < |cs| ==> LexLE(cs[i].family, cs[j].family)
  }

  predicate DistinctFamilies(cs: seq<Cluster>)
  {
    forall i, j :: 0 <= i < j < |cs| ==> cs[i].family != cs[j].family
  }

  /** A result sort.Slice may return; equal families may end up in any order. */
  predicate SortOf(sorted: seq<Cluster>, input: seq<Cluster>)
  {
    SortedByFamily(sorted) && multiset(sorted) == multiset(input)
  }

  lemma Without(cs: seq<Cluster>)
    requires |cs| > 0
    ensures multiset(cs[1..]) == multiset(cs) - multiset{cs[0]}
  {
    assert cs == [cs[0]] + cs[1..];
  }

  /** When families are distinct there is only one sorted order. */
  lemma {:induction false} SortUnique(a: seq<Cluster>, b: seq<Cluster>)
    requires SortedByFamily(a) && SortedByFamily(b) && DistinctFamilies(b) && multiset(a) == multiset(b)
    ensures a == b
    decreases |a|
  {
    assert |a| == |multiset(a)| == |multiset(b)| == |b|;
    if a != [] {
      SameHead(a, b);
      Without(a);
      Without(b);
      SortUnique(a[1..], b[1..]);
      assert a == [a[0]] + a[1..] && b == [b[0]] + b[1..];
    }
  }

  lemma SameHead(a: seq<Cluster>, b: seq<Cluster>)
    requires SortedByFamily(a) && SortedByFamily(b) && DistinctFamilies(b) && multiset(a) == multiset(b) && a != [] && b != []
    ensures a[0] == b[0]
  {
    assert a[0] in multiset(b) && b[0] in multiset(a);
    var i :| 0 <= i < |b| && b[i] == a[0];
    var j :| 0 <= j < |a| && a[j] == b[0];
    LexReflexive(a[0].family);
    LexAntisymmetric(a[0].family, b[0].family);
  }

  predicate SortedReals(s: seq<real>)
  {
    forall i, j :: 0 <= i < j < |s| ==> s[i] <= s[j]
  }

  function InsertReal(x: real, s: seq<real>): (r: seq<real>)
    requires SortedReals(s)
    ensures SortedReals(r) && multiset(r) == multiset(s) + multiset{x}
  {
    if s == [] then [x]
    else if x <= s[0] then [x] + s
    else
      var rest := InsertReal(x, s[1..]);
      Prepend(s[0], s[1..], x, rest);
      assert s == [s[0]] + s[1..];
      [s[0]] + rest
  }

  /** A head no larger than the tail and the inserted number stays in front of both. */
  lemma Prepend(head: real, tail: seq<real>, x: real, rest: seq<real>)
    requires SortedReals([head] + tail) && head <= x && SortedReals(rest) && multiset(rest) == multiset(tail) + multiset{x}
    ensures SortedReals([head] + rest)
  {
    forall i | 0 <= i < |rest| ensures head <= rest[i] {
      assert rest[i] in multiset(tail) + multiset{x};
      if rest[i] != x {
        var j :| 0 <= j < |tail| && tail[j] == rest[i];
        assert ([head] + tail)[0] <= ([head] + tail)[j + 1];
      }
    }
  }

  /** sort.Float64s. */
  function SortReals(s: seq<real>): (r: seq<real>)
    ensures SortedReals(r) && multiset(r) == multiset(s) && |r| == |s|
  {
    if s == [] then []
    else
      assert s == [s[0]] + s[1..];
      var r := InsertReal(s[0], SortReals(s[1..]));
      assert |r| == |multiset(r)|;
      r
  }

  // ------------------------------------------------------------------- what is computed

  predicate Acceptable(c: Cluster)
  {
    c.domain != "" && c.difference.Finite? && -1.0 <= c.difference.value <= 1.0
  }

  predicate ValidInput(cs: seq<Cluster>)
  {
    DistinctFamilies(cs) && forall i :: 0 <= i < |cs| ==> Acceptable(cs[i])
  }

  function DomainSet(cs: seq<Cluster>): set<string>
  {
    set i | 0 <= i < |cs| :: cs[i].domain
  }

  /** The differences of one domain, in family order. */
  function Group(cs: seq<Cluster>, domain: string): seq<real>
  {
    if cs == [] then []
    else
      var last := cs[|cs| - 1];
      Group(cs[..|cs| - 1], domain)
        + (if last.domain == domain && last.difference.Finite? then [last.difference.value] else [])
  }

  function Sum(s: seq<real>): real
  {
    if s == [] then 0.0 else Sum(s[..|s| - 1]) + s[|s| - 1]
  }

  /** The sum of k values drawn with replacement, and the generator state afterwards. */
  function DrawSum(values: seq<real>, state: nat, k: nat): (r: (real, nat))
    requires 1 <= |values| <= WORDS && IsWord(state)
    ensures IsWord(r.1)
    decreases k
  {
    if k == 0 then (0.0, state)
    else
      var (sum, s) := DrawSum(values, state, k - 1);
      (sum + values[IndexOf(s, |values|)], StateAfterIndex(s, |values|))
  }

  /** One domain's half of an equally weighted mean of two. */
  function Share(sum: real, n: nat): real
    requires n > 0
  {
    sum / (2.0 * n as real)
  }

  function Resample(g0: seq<real>, g1: seq<real>, state: nat): (r: (real, nat))
    requires 1 <= |g0| <= WORDS && 1 <= |g1| <= WORDS && IsWord(state)
    ensures IsWord(r.1)
  {
    var first := DrawSum(g0, state, |g0|);
    var second := DrawSum(g1, first.1, |g1|);
    (Share(first.0, |g0|) + Share(second.0, |g1|), second.1)
  }

  function Samples(g0: seq<real>, g1: seq<real>, state: nat, n: nat): (r: (seq<real>, nat))
    requires 1 <= |g0| <= WORDS && 1 <= |g1| <= WORDS && IsWord(state)
    ensures |r.0| == n && IsWord(r.1)
    decreases n, |g0|
  {
    if n == 0 then ([], state)
    else
      var (rest, s) := Samples(g0, g1, state, n - 1);
      var (x, s') := Resample(g0, g1, s);
      (rest + [x], s')
  }

  function Observed(g0: seq<real>, g1: seq<real>): real
    requires |g0| > 0 && |g1| > 0
  {
    Share(Sum(g0), |g0|) + Share(Sum(g1), |g1|)
  }

  function Percentiles(sorted: seq<real>): Status
    requires |sorted| == SAMPLES
  {
    if sorted[0] == sorted[SAMPLES - 1] then Degenerate else Estimated(sorted[LOW_RANK], sorted[HIGH_RANK])
  }

  function Estimate(g0: seq<real>, g1: seq<real>, repeats: int, families: nat, seed: nat, samples: nat): Status
    requires 1 <= |g0| <= WORDS && 1 <= |g1| <= WORDS && IsWord(seed) && samples == SAMPLES
  {
    if repeats < 3 || families < 20 || |g0| < 8 || |g1| < 8 then Insufficient
    else Percentiles(SortReals(Samples(g0, g1, seed, samples).0))
  }

  /** The two domain names in order. */
  predicate DomainPair(cs: seq<Cluster>, d0: string, d1: string)
  {
    DomainSet(cs) == {d0, d1} && d0 != d1 && LexLE(d0, d1)
  }

  lemma PairUnique(cs: seq<Cluster>, d0: string, d1: string, e0: string, e1: string)
    requires DomainPair(cs, d0, d1) && DomainPair(cs, e0, e1)
    ensures d0 == e0 && d1 == e1
  {
    assert e0 in {d0, d1} && e1 in {d0, d1};
    if e0 == d1 {
      LexAntisymmetric(d0, d1);
    }
  }

  function IntervalOf(cs: seq<Cluster>, d0: string, d1: string, repeats: int, seed: nat): Interval
    requires |Group(cs, d0)| > 0 && |Group(cs, d1)| > 0 && |cs| <= WORDS && IsWord(seed)
    requires |Group(cs, d0)| <= |cs| && |Group(cs, d1)| <= |cs|
  {
    var g0, g1 := Group(cs, d0), Group(cs, d1);
    Interval(SAMPLES, seed, |cs|, Observed(g0, g1), Estimate(g0, g1, repeats, |cs|, seed, SAMPLES))
  }

  lemma {:induction false} GroupSize(cs: seq<Cluster>, domain: string)
    ensures |Group(cs, domain)| <= |cs|
    ensures domain in DomainSet(cs) && (forall i :: 0 <= i < |cs| ==> cs[i].difference.Finite?) ==> |Group(cs, domain)| > 0
    ensures forall i :: 0 <= i < |Group(cs, domain)| ==>
      exists j :: 0 <= j < |cs| && cs[j].difference == Finite(Group(cs, domain)[i])
    decreases |cs|
  {
    if cs != [] {
      var front := cs[..|cs| - 1];
      GroupSize(front, domain);
      var g, h := Group(front, domain), Group(cs, domain);
      forall i | 0 <= i < |h| ensures exists j :: 0 <= j < |cs| && cs[j].difference == Finite(h[i]) {
        if i < |g| {
          var j :| 0 <= j < |front| && front[j].difference == Finite(g[i]);
          assert cs[j].difference == Finite(h[i]);
        } else {
          assert cs[|cs| - 1].difference == Finite(h[i]);
        }
      }
      if domain in DomainSet(cs) && cs[|cs| - 1].domain != domain {
        var j :| 0 <= j < |cs| && cs[j].domain == domain;
        assert front[j].domain == domain;
      }
    }
  }

  /** What Bootstrap returns for an input that sorts to cs. */
  ghost predicate Computes(cs: seq<Cluster>, repeats: int, seed: nat, r: Interval)
    requires |cs| <= WORDS && IsWord(seed)
  {
    if !ValidInput(cs) then r == Interval(SAMPLES, seed, |cs|, 0.0, InvalidInput)
    else if |DomainSet(cs)| != 2 then r == Interval(SAMPLES, seed, |cs|, 0.0, Insufficient)
    else
      exists d0, d1 ::
        && DomainPair(cs, d0, d1)
        && 0 < |Group(cs, d0)| <= |cs| && 0 < |Group(cs, d1)| <= |cs|
        && r == IntervalOf(cs, d0, d1, repeats, seed)
  }

  /** What Bootstrap may return: the sort is free among equal families. */
  ghost predicate Returns(input: seq<Cluster>, repeats: int, seed: nat, r: Interval)
    requires IsWord(seed)
  {
    exists sorted :: SortOf(sorted, input) && |sorted| <= WORDS && Computes(sorted, repeats, seed, r)
  }

  lemma {:induction false} AtMostOnce(cs: seq<Cluster>, c: Cluster)
    requires DistinctFamilies(cs)
    ensures multiset(cs)[c] == if c in cs then 1 else 0
  {
    if cs != [] {
      AtMostOnce(cs[1..], c);
      Without(cs);
      assert cs == [cs[0]] + cs[1..];
    }
  }

  lemma SameMembers(a: seq<Cluster>, b: seq<Cluster>, c: Cluster)
    requires multiset(a) == multiset(b) && c in a
    ensures c in b
  {
    assert c in multiset(a);
  }

  lemma KeepsDistinct(a: seq<Cluster>, b: seq<Cluster>)
    requires multiset(a) == multiset(b) && DistinctFamilies(b)
    ensures DistinctFamilies(a)
  {
    forall i, j | 0 <= i < j < |a| ensures a[i].family != a[j].family {
      assert a[i] in multiset(b) && a[j] in multiset(b);
      if a[i].family == a[j].family {
        var p :| 0 <= p < |b| && b[p] == a[i];
        var q :| 0 <= q < |b| && b[q] == a[j];
        assert p == q;
        AtMostOnce(b, a[i]);
        Twice(a, i, j);
        assert false;
      }
    }
  }

  lemma Twice(a: seq<Cluster>, i: nat, j: nat)
    requires i < j < |a| && a[i] == a[j]
    ensures multiset(a)[a[i]] >= 2
  {
    assert a == a[..j] + [a[j]] + a[j + 1..];
    assert a[i] in a[..j];
  }

  /** Only an inadmissible cluster or a repeated family makes the interval invalid. */
  lemma InvalidIff(input: seq<Cluster>, repeats: int, seed: nat, r: Interval)
    requires IsWord(seed) && Returns(input, repeats, seed, r)
    ensures r.status.InvalidInput? <==> !ValidInput(input)
  {
    var sorted :| SortOf(sorted, input) && |sorted| <= WORDS && Computes(sorted, repeats, seed, r);
    if ValidInput(input) {
      KeepsValid(input, sorted);
    } else if ValidInput(sorted) {
      KeepsValid(sorted, input);
    }
  }

  lemma KeepsValid(a: seq<Cluster>, b: seq<Cluster>)
    requires multiset(a) == multiset(b) && ValidInput(a)
    ensures ValidInput(b)
  {
    KeepsDistinct(b, a);
    forall i | 0 <= i < |b| ensures Acceptable(b[i]) {
      SameMembers(b, a, b[i]);
    }
  }

  /** The interval is a function of the multiset of clusters: neither their order nor the sort's ties matter. */
  lemma OrderDoesNotMatter(a: seq<Cluster>, b: seq<Cluster>, repeats: int, seed: nat, ra: Interval, rb: Interval)
    requires multiset(a) == multiset(b) && IsWord(seed) && Returns(a, repeats, seed, ra) && Returns(b, repeats, seed, rb)
    ensures ra == rb
  {
    var sa :| SortOf(sa, a) && |sa| <= WORDS && Computes(sa, repeats, seed, ra);
    var sb :| SortOf(sb, b) && |sb| <= WORDS && Computes(sb, repeats, seed, rb);
    SortedDecides(a, b, sa, sb, repeats, seed, ra, rb);
  }

  lemma SortedDecides(a: seq<Cluster>, b: seq<Cluster>, sa: seq<Cluster>, sb: seq<Cluster>,
                      repeats: int, seed: nat, ra: Interval, rb: Interval)
    requires multiset(a) == multiset(b) && SortOf(sa, a) && SortOf(sb, b) && |sa| <= WORDS && |sb| <= WORDS && IsWord(seed)
    requires Computes(sa, repeats, seed, ra) && Computes(sb, repeats, seed, rb)
    ensures ra == rb
  {
    assert |sa| == |multiset(sa)| == |multiset(sb)| == |sb|;
    if DistinctFamilies(sb) || DistinctFamilies(sa) {
      if DistinctFamilies(sb) {
        SortUnique(sa, sb);
      } else {
        SortUnique(sb, sa);
      }
      if ValidInput(sa) && |DomainSet(sa)| == 2 {
        var d0, d1 :| DomainPair(sa, d0, d1) && 0 < |Group(sa, d0)| <= |sa| && 0 < |Group(sa, d1)| <= |sa|
                      && ra == IntervalOf(sa, d0, d1, repeats, seed);
        var e0, e1 :| DomainPair(sb, e0, e1) && 0 < |Group(sb, e0)| <= |sb| && 0 < |Group(sb, e1)| <= |sb|
                      && rb == IntervalOf(sb, e0, e1, repeats, seed);
        PairUnique(sa, d0, d1, e0, e1);
      }
    }
  }

  // ------------------------------------------------------------------------- bounds

  predicate Within(s: seq<real>, bound: real)
  {
    forall i :: 0 <= i < |s| ==> -bound <= s[i] <= bound
  }

  lemma {:induction false} DrawSumBound(values: seq<real>, state: nat, k: nat)
    requires 1 <= |values| <= WORDS && IsWord(state) && Within(values, 1.0)
    ensures -(k as real) <= DrawSum(values, state, k).0 <= k as real
    decreases k
  {
    hide IndexOf, StateAfterIndex;
    if k > 0 {
      DrawSumBound(values, state, k - 1);
      var i := DrawSumStep(values, state, k);
    }
  }

  /** One more draw adds one of the values. */
  lemma DrawSumStep(values: seq<real>, state: nat, k: nat) returns (i: nat)
    requires 1 <= |values| <= WORDS && IsWord(state) && k > 0
    ensures i < |values| && DrawSum(values, state, k).0 == DrawSum(values, state, k - 1).0 + values[i]
  {
    i := IndexOf(DrawSum(values, state, k - 1).1, |values|);
  }

  lemma Scaled(a: real, b: real, d: real)
    requires a < b && d > 0.0
    ensures a * d < b * d
  {
    assert (b - a) * d > 0.0;
  }

  lemma QuotientBound(x: real, d: real)
    requires d > 0.0 && -d <= 2.0 * x <= d
    ensures -0.5 <= x / d <= 0.5
  {
    var q := x / d;
    assert q * d == x;
    if q > 0.5 {
      Scaled(0.5, q, d);
    }
    if q < -0.5 {
      Scaled(q, -0.5, d);
    }
  }

  lemma HalfShare(sum: real, n: nat)
    requires n > 0 && -(n as real) <= sum <= n as real
    ensures -0.5 <= Share(sum, n) <= 0.5
  {
    QuotientBound(sum, 2.0 * n as real);
  }

  lemma ResampleBound(g0: seq<real>, g1: seq<real>, state: nat)
    requires 1 <= |g0| <= WORDS && 1 <= |g1| <= WORDS && IsWord(state) && Within(g0, 1.0) && Within(g1, 1.0)
    ensures -1.0 <= Resample(g0, g1, state).0 <= 1.0
  {
    var (sum0, s0) := DrawSum(g0, state, |g0|);
    var (sum1, s1) := DrawSum(g1, s0, |g1|);
    DrawSumBound(g0, state, |g0|);
    DrawSumBound(g1, s0, |g1|);
    HalfShare(sum0, |g0|);
    HalfShare(sum1, |g1|);
  }

  lemma {:induction false} SamplesBound(g0: seq<real>, g1: seq<real>, state: nat, n: nat)
    requires 1 <= |g0| <= WORDS && 1 <= |g1| <= WORDS && IsWord(state) && Within(g0, 1.0) && Within(g1, 1.0)
    ensures Within(Samples(g0, g1, state, n).0, 1.0)
    decreases n, |g0|
  {
    hide Resample;
    if n > 0 {
      SamplesBound(g0, g1, state, n - 1);
      ResampleBound(g0, g1, Samples(g0, g1, state, n - 1).1);
    }
  }

  /** The clusters of one domain. */
  ghost function Members(cs: seq<Cluster>, domain: string): set<Cluster>
  {
    set c | c in cs && c.domain == domain
  }

  /** At least this many clusters in each domain. */
  ghost predicate DomainsHold(cs: seq<Cluster>, least: nat)
  {
    forall d :: d in DomainSet(cs) ==> |Members(cs, d)| >= least
  }

  lemma {:induction false} GroupCount(cs: seq<Cluster>, domain: string)
    requires ValidInput(cs)
    ensures |Group(cs, domain)| == |Members(cs, domain)|
  {
    if cs == [] {
      assert Members(cs, domain) == {};
    } else {
      var front, last := cs[..|cs| - 1], cs[|cs| - 1];
      GroupCount(front, domain);
      assert Acceptable(last);
      MembersAppend(front, last, domain);
      assert cs == front + [last];
    }
  }

  lemma MembersAppend(cs: seq<Cluster>, c: Cluster, domain: string)
    requires DistinctFamilies(cs + [c])
    ensures |Members(cs + [c], domain)| == |Members(cs, domain)| + (if c.domain == domain then 1 else 0)
  {
    var more := cs + [c];
    forall i | 0 <= i < |cs| ensures cs[i] != c {
      assert more[i].family != more[|cs|].family;
    }
    assert Members(more, domain) == Members(cs, domain) + (if c.domain == domain then {c} else {});
  }

  lemma MembersPermute(a: seq<Cluster>, b: seq<Cluster>, domain: string)
    requires multiset(a) == multiset(b)
    ensures Members(a, domain) == Members(b, domain) && (domain in DomainSet(a) ==> domain in DomainSet(b))
  {
    assert forall c :: c in a <==> c in multiset(a);
    assert forall c :: c in b <==> c in multiset(b);
    if domain in DomainSet(a) {
      var i :| 0 <= i < |a| && a[i].domain == domain;
      assert a[i] in b;
      var j :| 0 <= j < |b| && b[j] == a[i];
    }
  }

  /**
   An estimated interval lies within -1 and 1, in order. It is estimated only on three repeats, twenty clusters, and two
   domains of at least eight clusters each.
   */
  lemma EstimatedInterval(input: seq<Cluster>, repeats: int, seed: nat, r: Interval)
    requires IsWord(seed) && Returns(input, repeats, seed, r) && r.status.Estimated?
    ensures -1.0 <= r.status.lower <= r.status.upper <= 1.0
    ensures repeats >= 3 && |input| >= 20 && ValidInput(input) && |DomainSet(input)| == 2 && DomainsHold(input, 8)
  {
    hide Computes, DomainsHold, ValidInput, SortedByFamily, DomainSet;
    var sorted :| SortOf(sorted, input) && |sorted| <= WORDS && Computes(sorted, repeats, seed, r);
    EstimatedSorted(sorted, repeats, seed, r);
    KeepsValid(sorted, input);
    assert |sorted| == |multiset(sorted)| == |multiset(input)| == |input|;
    DomainsPermute(sorted, input, 8);
  }

  lemma DomainsPermute(a: seq<Cluster>, b: seq<Cluster>, least: nat)
    requires multiset(a) == multiset(b) && DomainsHold(a, least)
    ensures DomainSet(b) == DomainSet(a) && DomainsHold(b, least)
  {
    forall d ensures Members(a, d) == Members(b, d) && (d in DomainSet(a) <==> d in DomainSet(b)) {
      MembersPermute(a, b, d);
      MembersPermute(b, a, d);
    }
    assert DomainSet(a) == DomainSet(b);
  }

  lemma EstimatedSorted(cs: seq<Cluster>, repeats: int, seed: nat, r: Interval)
    requires |cs| <= WORDS && IsWord(seed) && Computes(cs, repeats, seed, r) && r.status.Estimated?
    ensures -1.0 <= r.status.lower <= r.status.upper <= 1.0
    ensures repeats >= 3 && |cs| >= 20 && ValidInput(cs) && |DomainSet(cs)| == 2 && DomainsHold(cs, 8)
  {
    hide Group, Members, Estimate, Within, Observed, DistinctFamilies;
    var d0, d1 :| DomainPair(cs, d0, d1) && 0 < |Group(cs, d0)| <= |cs| && 0 < |Group(cs, d1)| <= |cs|
                  && r == IntervalOf(cs, d0, d1, repeats, seed);
    GroupWithin(cs, d0);
    GroupWithin(cs, d1);
    GroupCount(cs, d0);
    GroupCount(cs, d1);
    EstimateWithin(Group(cs, d0), Group(cs, d1), repeats, |cs|, seed, SAMPLES);
  }

  lemma GroupWithin(cs: seq<Cluster>, domain: string)
    requires ValidInput(cs)
    ensures Within(Group(cs, domain), 1.0)
  {
    GroupSize(cs, domain);
    var g := Group(cs, domain);
    forall i | 0 <= i < |g| ensures -1.0 <= g[i] <= 1.0 {
      var j :| 0 <= j < |cs| && cs[j].difference == Finite(g[i]);
      assert Acceptable(cs[j]);
    }
  }

  lemma EstimateWithin(g0: seq<real>, g1: seq<real>, repeats: int, families: nat, seed: nat, samples: nat)
    requires 1 <= |g0| <= WORDS && 1 <= |g1| <= WORDS && IsWord(seed) && samples == SAMPLES
    requires Within(g0, 1.0) && Within(g1, 1.0)
    ensures var status := Estimate(g0, g1, repeats, families, seed, samples);
      status.Estimated? ==>
        -1.0 <= status.lower <= status.upper <= 1.0 && repeats >= 3 && families >= 20 && |g0| >= 8 && |g1| >= 8
  {
    SamplesBound(g0, g1, seed, samples);
    PercentilesWithin(Samples(g0, g1, seed, samples).0);
  }

  lemma PercentilesWithin(samples: seq<real>)
    requires |samples| == SAMPLES && Within(samples, 1.0)
    ensures var status := Percentiles(SortReals(samples));
      status.Estimated? ==> -1.0 <= status.lower <= status.upper <= 1.0
  {
    var sorted := SortReals(samples);
    assert forall i :: 0 <= i < |sorted| ==> sorted[i] in multiset(samples);
  }

  // -------------------------------------------------------------------------- the method

  /** A library sort: any order among equal families. */
  method SortClusters(input: seq<Cluster>) returns (sorted: seq<Cluster>)
    ensures SortOf(sorted, input)
  {
    sorted := [];
    for k := 0 to |input|
      invariant SortedByFamily(sorted) && multiset(sorted) == multiset(input[..k])
    {
      sorted := InsertCluster(sorted, input[k]);
      assert input[..k + 1] == input[..k] + [input[k]];
    }
    assert input[..|input|] == input;
  }

  method InsertCluster(before: seq<Cluster>, c: Cluster) returns (sorted: seq<Cluster>)
    requires SortedByFamily(before)
    ensures SortedByFamily(sorted) && multiset(sorted) == multiset(before) + multiset{c}
  {
    hide LexLE, SortedByFamily;
    var at := |before|;
    while at > 0 && !LexLE(before[at - 1].family, c.family)
      invariant 0 <= at <= |before|
      invariant forall i :: at <= i < |before| ==> LexLE(c.family, before[i].family)
    {
      LexTotal(before[at - 1].family, c.family);
      at := at - 1;
    }
    Insertion(before, at, c);
    assert before == before[..at] + before[at..];
    sorted := before[..at] + [c] + before[at..];
  }

  lemma Insertion(before: seq<Cluster>, at: nat, c: Cluster)
    requires SortedByFamily(before) && at <= |before| && (at > 0 ==> LexLE(before[at - 1].family, c.family))
    requires forall i :: at <= i < |before| ==> LexLE(c.family, before[i].family)
    ensures SortedByFamily(before[..at] + [c] + before[at..])
  {
    var r := before[..at] + [c] + before[at..];
    forall i, j | 0 <= i < j < |r| ensures LexLE(r[i].family, r[j].family) {
      if i < at && j == at && i < at - 1 {
        LexTransitive(before[i].family, before[at - 1].family, c.family);
      }
    }
  }

  method DrawGroup(rng: Random, values: seq<real>) returns (sum: real)
    requires rng.Valid() && 1 <= |values| <= WORDS
    modifies rng
    ensures rng.Valid() && (sum, rng.state) == DrawSum(values, old(rng.state), |values|)
  {
    sum := 0.0;
    for k := 0 to |values|
      invariant rng.Valid() && (sum, rng.state) == DrawSum(values, old(rng.state), k)
    {
      var i := rng.Index(|values|);
      sum := sum + values[i];
    }
  }

  /** Resample one domain into entry i. */
  method AddDomain(rng: Random, values: seq<real>, samples: array<real>, i: nat)
    requires rng.Valid() && 1 <= |values| <= WORDS && i < samples.Length
    modifies rng, samples
    ensures rng.Valid() && rng.state == DrawSum(values, old(rng.state), |values|).1
    ensures samples[i] == old(samples[i]) + Share(DrawSum(values, old(rng.state), |values|).0, |values|)
    ensures forall k :: 0 <= k < samples.Length && k != i ==> samples[k] == old(samples[k])
  {
    var sum := DrawGroup(rng, values);
    samples[i] := samples[i] + Share(sum, |values|);
  }

  /** Both domains into the empty entry i: one resample. */
  method AddSample(rng: Random, g0: seq<real>, g1: seq<real>, samples: array<real>, i: nat)
    requires rng.Valid() && 1 <= |g0| <= WORDS && 1 <= |g1| <= WORDS && i < samples.Length && samples[i] == 0.0
    modifies rng, samples
    ensures rng.Valid() && rng.state == Resample(g0, g1, old(rng.state)).1
    ensures samples[i] == Resample(g0, g1, old(rng.state)).0
    ensures forall k :: 0 <= k < samples.Length && k != i ==> samples[k] == old(samples[k])
  {
    AddDomain(rng, g0, samples, i);
    AddDomain(rng, g1, samples, i);
  }

  /** The samples and the generator state after the first i resamples. */
  ghost predicate Filled(g0: seq<real>, g1: seq<real>, seed: nat, i: nat, done: seq<real>, state: nat)
    requires 1 <= |g0| <= WORDS && 1 <= |g1| <= WORDS && IsWord(seed)
  {
    (done, state) == Samples(g0, g1, seed, i)
  }

  lemma FilledStep(g0: seq<real>, g1: seq<real>, seed: nat, i: nat, done: seq<real>, s: nat, x: real, s': nat)
    requires 1 <= |g0| <= WORDS && 1 <= |g1| <= WORDS && IsWord(seed) && IsWord(s)
    requires Filled(g0, g1, seed, i, done, s) && (x, s') == Resample(g0, g1, s)
    ensures Filled(g0, g1, seed, i + 1, done + [x], s')
  {
  }

  method FillSamples(g0: seq<real>, g1: seq<real>, seed: nat, n: nat) returns (samples: array<real>)
    requires 1 <= |g0| <= WORDS && 1 <= |g1| <= WORDS && IsWord(seed)
    ensures fresh(samples) && samples[..] == Samples(g0, g1, seed, n).0
  {
    var rng := new Random(seed);
    samples := new real[n](_ => 0.0);
    for i := 0 to n
      invariant fresh(rng) && rng.Valid() && Filled(g0, g1, seed, i, samples[..i], rng.state)
      invariant forall k :: i <= k < n ==> samples[k] == 0.0
    {
      FillOne(rng, g0, g1, seed, samples, i);
    }
    assert samples[..] == samples[..n];
  }

  method FillOne(rng: Random, g0: seq<real>, g1: seq<real>, ghost seed: nat, samples: array<real>, i: nat)
    requires 1 <= |g0| <= WORDS && 1 <= |g1| <= WORDS && IsWord(seed) && i < samples.Length && samples[i] == 0.0
    requires rng.Valid() && Filled(g0, g1, seed, i, samples[..i], rng.state)
    modifies rng, samples
    ensures rng.Valid() && Filled(g0, g1, seed, i + 1, samples[..i + 1], rng.state)
    ensures forall k :: i < k < samples.Length ==> samples[k] == old(samples[k])
  {
    ghost var done, s := samples[..i], rng.state;
    AddSample(rng, g0, g1, samples, i);
    FilledStep(g0, g1, seed, i, done, s, samples[i], rng.state);
    assert samples[..i + 1] == done + [samples[i]];
  }

  /** Adding each value's share is adding the share of the sum. */
  method AddShares(start: real, values: seq<real>) returns (total: real)
    requires |values| > 0
    ensures total == start + Share(Sum(values), |values|)
  {
    total := start;
    for k := 0 to |values|
      invariant total == start + Share(Sum(values[..k]), |values|)
    {
      assert values[..k + 1][..k] == values[..k];
      ShareAdds(Sum(values[..k]), values[k], |values|);
      total := total + Share(values[k], |values|);
    }
    assert values[..|values|] == values;
  }

  lemma ShareAdds(a: real, b: real, n: nat)
    requires n > 0
    ensures Share(a + b, n) == Share(a, n) + Share(b, n)
  {
  }

  /** Scan the sorted clusters for duplicates and inadmissible members, grouping by domain. */
  method Scan(cs: seq<Cluster>) returns (ok: bool, groups: map<string, seq<real>>)
    ensures ok <==> ValidInput(cs)
    ensures ok ==> Grouped(groups, cs)
  {
    hide Grouped, ValidInput, Families;
    groups := map[];
    var seen: set<string> := {};
    ScanStart(cs);
    for i := 0 to |cs|
      invariant seen == Families(cs[..i]) && ValidInput(cs[..i]) && Grouped(groups, cs[..i])
    {
      var c := cs[i];
      if c.family in seen || !Acceptable(c) {
        NotValid(cs, i);
        return false, map[];
      }
      ScanStep(cs[..i], c, groups);
      assert cs[..i + 1] == cs[..i] + [c];
      seen := seen + {c.family};
      groups := groups[c.domain := (if c.domain in groups then groups[c.domain] else []) + [c.difference.value]];
    }
    assert cs[..|cs|] == cs;
    ok := true;
  }

  function Families(cs: seq<Cluster>): set<string>
  {
    set i | 0 <= i < |cs| :: cs[i].family
  }

  ghost predicate Grouped(groups: map<string, seq<real>>, cs: seq<Cluster>)
  {
    groups.Keys == DomainSet(cs) && forall d :: Group(cs, d) == if d in groups then groups[d] else []
  }

  lemma ScanStart(cs: seq<Cluster>)
    ensures Families(cs[..0]) == {} && ValidInput(cs[..0]) && Grouped(map[], cs[..0])
  {
    assert cs[..0] == [];
    assert DomainSet([]) == {};
  }

  lemma NotValid(cs: seq<Cluster>, i: nat)
    requires i < |cs| && (cs[i].family in Families(cs[..i]) || !Acceptable(cs[i]))
    ensures !ValidInput(cs)
  {
    if cs[i].family in Families(cs[..i]) {
      var k :| 0 <= k < i && cs[..i][k].family == cs[i].family;
      assert cs[k].family == cs[i].family;
    }
  }

  lemma ScanStep(cs: seq<Cluster>, c: Cluster, groups: map<string, seq<real>>)
    requires ValidInput(cs) && c.family !in Families(cs) && Acceptable(c) && Grouped(groups, cs)
    ensures ValidInput(cs + [c]) && Families(cs + [c]) == Families(cs) + {c.family}
    ensures Grouped(groups[c.domain := (if c.domain in groups then groups[c.domain] else []) + [c.difference.value]], cs + [c])
  {
    hide ValidInput, Families, Group;
    StillValid(cs, c);
    DomainsAppend(cs, c);
    forall d ensures Group(cs + [c], d) == Group(cs, d) + (if c.domain == d then [c.difference.value] else []) {
      GroupAppend(cs, c, d);
    }
  }

  lemma GroupAppend(cs: seq<Cluster>, c: Cluster, domain: string)
    requires Acceptable(c)
    ensures Group(cs + [c], domain) == Group(cs, domain) + (if c.domain == domain then [c.difference.value] else [])
  {
    assert (cs + [c])[..|cs|] == cs;
  }

  lemma StillValid(cs: seq<Cluster>, c: Cluster)
    requires ValidInput(cs) && c.family !in Families(cs) && Acceptable(c)
    ensures ValidInput(cs + [c]) && Families(cs + [c]) == Families(cs) + {c.family}
  {
    var more := cs + [c];
    assert forall k :: 0 <= k < |cs| ==> more[k] == cs[k] && cs[k].family in Families(cs);
    forall f | f in Families(cs) + {c.family} ensures f in Families(more) {
      if f == c.family {
        assert more[|cs|].family == f;
      } else {
        var k :| 0 <= k < |cs| && cs[k].family == f;
        assert more[k].family == f;
      }
    }
  }

  lemma DomainsAppend(cs: seq<Cluster>, c: Cluster)
    ensures DomainSet(cs + [c]) == DomainSet(cs) + {c.domain}
  {
    var more := cs + [c];
    assert more[|cs|] == c;
    forall d | d in DomainSet(cs) ensures d in DomainSet(more) {
      var i :| 0 <= i < |cs| && cs[i].domain == d;
      assert more[i].domain == d;
    }
  }

  method Bootstrap(input: seq<Cluster>, repeats: int, seed: nat) returns (r: Interval)
    requires IsWord(seed) && |input| <= WORDS
    ensures Returns(input, repeats, seed, r)
  {
    var clusters := SortClusters(input);
    assert |clusters| == |multiset(clusters)| == |multiset(input)| == |input|;
    var ok, groups := Scan(clusters);
    if !ok {
      return Interval(SAMPLES, seed, |input|, 0.0, InvalidInput);
    }
    if |groups.Keys| != 2 {
      return Interval(SAMPLES, seed, |input|, 0.0, Insufficient);
    }
    var d0, d1 := SortPair(groups.Keys);
    GroupSize(clusters, d0);
    GroupSize(clusters, d1);
    r := Conclude(clusters, groups[d0], groups[d1], repeats, seed, d0, d1);
  }

  method SortPair(domains: set<string>) returns (d0: string, d1: string)
    requires |domains| == 2
    ensures domains == {d0, d1} && d0 != d1 && LexLE(d0, d1)
  {
    d0 :| d0 in domains;
    assert |domains - {d0}| == 1;
    d1 :| d1 in domains - {d0};
    TwoElements(domains, d0, d1);
    LexTotal(d0, d1);
    if !LexLE(d0, d1) {
      d0, d1 := d1, d0;
    }
  }

  /** The observed difference, then the percentiles when the sample is large enough. */
  method Conclude(cs: seq<Cluster>, g0: seq<real>, g1: seq<real>, repeats: int, seed: nat, ghost d0: string, ghost d1: string)
    returns (r: Interval)
    requires |cs| <= WORDS && IsWord(seed) && ValidInput(cs) && |DomainSet(cs)| == 2 && DomainPair(cs, d0, d1)
    requires g0 == Group(cs, d0) && g1 == Group(cs, d1) && 0 < |g0| <= |cs| && 0 < |g1| <= |cs|
    ensures Computes(cs, repeats, seed, r)
  {
    var observed := 0.0;
    observed := AddShares(observed, g0);
    observed := AddShares(observed, g1);
    var status := EstimateGroups(g0, g1, repeats, |cs|, seed, SAMPLES);
    r := Interval(SAMPLES, seed, |cs|, observed, status);
    assert r == IntervalOf(cs, d0, d1, repeats, seed);
  }

  method EstimateGroups(g0: seq<real>, g1: seq<real>, repeats: int, families: nat, seed: nat, n: nat) returns (status: Status)
    requires 1 <= |g0| <= WORDS && 1 <= |g1| <= WORDS && IsWord(seed) && n == SAMPLES
    ensures status == Estimate(g0, g1, repeats, families, seed, n)
  {
    if repeats < 3 || families < 20 || |g0| < 8 || |g1| < 8 {
      return Insufficient;
    }
    var samples := FillSamples(g0, g1, seed, n);
    status := Rank(SortReals(samples[..]));
  }

  /** Read the nearest-rank percentiles off the sorted samples. */
  method Rank(sorted: seq<real>) returns (status: Status)
    requires |sorted| == SAMPLES
    ensures status == Percentiles(sorted)
  {
    if sorted[0] == sorted[SAMPLES - 1] {
      return Degenerate;
    }
    return Estimated(sorted[LOW_RANK], sorted[HIGH_RANK]);
  }

  lemma TwoElements(s: set<string>, a: string, b: string)
    requires |s| == 2 && a in s && b in s && a != b
    ensures s == {a, b}
  {
    var rest := s - {a} - {b};
    assert |rest| == 0;
  }
}
