/**
 What the numbers of an interval mean: the observed difference and each resampled one as equally weighted means of the two domains,
 the ends as order statistics found by counting, and the hull that the clusters' differences put around all of them.
 */
module Quantiles {
  import opened Text
  import opened SplitMix
  import opened Bootstrap

  // ------------------------------------------------------------------------- means

  function Mean(s: seq<real>): real
    requires |s| > 0
  {
    Sum(s) / |s| as real
  }

  /** The values at these positions. */
  function Chosen(values: seq<real>, picks: seq<nat>): (r: seq<real>)
    requires forall k :: 0 <= k < |picks| ==> picks[k] < |values|
    ensures |r| == |picks|
  {
    seq(|picks|, k requires 0 <= k < |picks| => values[picks[k]])
  }

  /** The first k indices below n that the generator yields from this state. */
  function Picks(state: nat, n: nat, k: nat): (picks: seq<nat>)
    requires 1 <= n <= WORDS
    ensures |picks| == k && forall i :: 0 <= i < k ==> picks[i] < n
    decreases k
  {
    if k == 0 then [] else Picks(state, n, k - 1) + [IndexOf(StateAfter(state, n, k - 1), n)]
  }

  /** The generator after k indices below n. */
  function StateAfter(state: nat, n: nat, k: nat): (s: nat)
    requires 1 <= n <= WORDS
    decreases k
  {
    if k == 0 then state else StateAfterIndex(StateAfter(state, n, k - 1), n)
  }

  lemma SumIsAdditive(a: seq<real>, x: real)
    ensures Sum(a + [x]) == Sum(a) + x
  {
    assert (a + [x])[..|a|] == a;
  }

  lemma {:induction false} DrawsAreChoices(values: seq<real>, state: nat, k: nat)
    requires 1 <= |values| <= WORDS && IsWord(state)
    ensures DrawSum(values, state, k) == (Sum(Chosen(values, Picks(state, |values|, k))), StateAfter(state, |values|, k))
    decreases k
  {
    hide IndexOf, StateAfterIndex;
    if k > 0 {
      DrawsAreChoices(values, state, k - 1);
      var before, picks := Picks(state, |values|, k - 1), Picks(state, |values|, k);
      SumIsAdditive(Chosen(values, before), values[picks[k - 1]]);
      assert Chosen(values, picks) == Chosen(values, before) + [values[picks[k - 1]]];
    }
  }

  /** The mean of as many values as there are, drawn with replacement. */
  function DrawnMean(values: seq<real>, state: nat): real
    requires 1 <= |values| <= WORDS
  {
    Mean(Chosen(values, Picks(state, |values|, |values|)))
  }

  function StateBetween(g0: seq<real>, state: nat): nat
    requires 1 <= |g0| <= WORDS
  {
    StateAfter(state, |g0|, |g0|)
  }

  lemma HalfOfMean(sum: real, n: nat)
    requires n > 0
    ensures Share(sum, n) == sum / n as real / 2.0
  {
    var q, m := sum / n as real, n as real;
    assert q * m == sum;
    assert Share(sum, n) * (2.0 * m) == sum;
    Cancel(Share(sum, n), q / 2.0, 2.0 * m);
  }

  lemma Cancel(a: real, b: real, d: real)
    requires d > 0.0 && a * d == b * d
    ensures a == b
  {
    if a < b {
      Scaled(a, b, d);
    } else if b < a {
      Scaled(b, a, d);
    }
  }

  /** One resample: both domains drawn anew, one after the other from one generator, and weighted equally. */
  lemma ResampleIsMean(g0: seq<real>, g1: seq<real>, state: nat)
    requires 1 <= |g0| <= WORDS && 1 <= |g1| <= WORDS && IsWord(state)
    ensures Resample(g0, g1, state) ==
      ((DrawnMean(g0, state) + DrawnMean(g1, StateBetween(g0, state))) / 2.0, StateBetween(g1, StateBetween(g0, state)))
  {
    hide Picks, IndexOf, StateAfterIndex, Share;
    DrawsAreChoices(g0, state, |g0|);
    var between := StateBetween(g0, state);
    DrawsAreChoices(g1, between, |g1|);
    HalfOfMean(Sum(Chosen(g0, Picks(state, |g0|, |g0|))), |g0|);
    HalfOfMean(Sum(Chosen(g1, Picks(between, |g1|, |g1|))), |g1|);
  }

  /** The states of the generator before each resample. */
  function Seeds(g0: seq<real>, g1: seq<real>, seed: nat, i: nat): nat
    requires 1 <= |g0| <= WORDS && 1 <= |g1| <= WORDS
    decreases i
  {
    if i == 0 then seed else StateBetween(g1, StateBetween(g0, Seeds(g0, g1, seed, i - 1)))
  }

  function ResampledMean(g0: seq<real>, g1: seq<real>, seed: nat, i: nat): real
    requires 1 <= |g0| <= WORDS && 1 <= |g1| <= WORDS
  {
    var state := Seeds(g0, g1, seed, i);
    (DrawnMean(g0, state) + DrawnMean(g1, StateBetween(g0, state))) / 2.0
  }

  /** All resampled means, in the order they are drawn from one generator. */
  function ResampledMeans(g0: seq<real>, g1: seq<real>, seed: nat, n: nat): (means: seq<real>)
    requires 1 <= |g0| <= WORDS && 1 <= |g1| <= WORDS
    ensures |means| == n
  {
    seq(n, i requires 0 <= i < n => ResampledMean(g0, g1, seed, i))
  }

  lemma {:induction false} SamplesAreMeans(g0: seq<real>, g1: seq<real>, seed: nat, n: nat)
    requires 1 <= |g0| <= WORDS && 1 <= |g1| <= WORDS && IsWord(seed)
    ensures Samples(g0, g1, seed, n) == (ResampledMeans(g0, g1, seed, n), Seeds(g0, g1, seed, n))
    decreases n
  {
    hide Resample, DrawnMean, StateBetween;
    if n > 0 {
      SamplesAreMeans(g0, g1, seed, n - 1);
      ResampleIsMean(g0, g1, Seeds(g0, g1, seed, n - 1));
      assert ResampledMeans(g0, g1, seed, n) == ResampledMeans(g0, g1, seed, n - 1) + [ResampledMean(g0, g1, seed, n - 1)];
    }
  }

  // ----------------------------------------------------------------------- counting

  function Where(s: seq<real>, p: real -> bool): set<nat>
  {
    set i: nat | i < |s| && p(s[i])
  }

  function CountIf(s: seq<real>, p: real -> bool): nat
  {
    if s == [] then 0 else CountIf(s[..|s| - 1], p) + (if p(s[|s| - 1]) then 1 else 0)
  }

  lemma {:induction false} CountIsSize(s: seq<real>, p: real -> bool)
    ensures CountIf(s, p) == |Where(s, p)|
    decreases |s|
  {
    if s == [] {
      assert Where(s, p) == {};
    } else {
      var n := |s| - 1;
      CountIsSize(s[..n], p);
      forall i: nat ensures i in Where(s, p) <==> i in Where(s[..n], p) || (p(s[n]) && i == n) {
        assert i < n ==> s[..n][i] == s[i];
      }
      assert Where(s, p) == Where(s[..n], p) + (if p(s[n]) then {n} else {});
    }
  }

  lemma {:induction false} CountJoins(a: seq<real>, b: seq<real>, p: real -> bool)
    ensures CountIf(a + b, p) == CountIf(a, p) + CountIf(b, p)
    decreases |b|
  {
    if b == [] {
      assert a + b == a;
    } else {
      var n := |b| - 1;
      CountJoins(a, b[..n], p);
      assert (a + b)[..|a + b| - 1] == a + b[..n];
    }
  }

  /** Counting does not depend on the order. */
  lemma {:induction false} CountPermutes(a: seq<real>, b: seq<real>, p: real -> bool)
    requires multiset(a) == multiset(b)
    ensures CountIf(a, p) == CountIf(b, p)
    decreases |a|
  {
    hide CountIf;
    assert |a| == |multiset(a)| == |multiset(b)| == |b|;
    if a != [] {
      var j := PositionIn(b, a[0], a);
      TakenOut(a, 0);
      TakenOut(b, j);
      CountPermutes(a[..0] + a[1..], b[..j] + b[j + 1..], p);
      CountTakenOut(a, 0, p);
      CountTakenOut(b, j, p);
    }
  }

  lemma PositionIn(b: seq<real>, x: real, a: seq<real>) returns (j: nat)
    requires multiset(a) == multiset(b) && x in a
    ensures j < |b| && b[j] == x
  {
    assert x in multiset(b);
    j :| 0 <= j < |b| && b[j] == x;
  }

  lemma TakenOut(s: seq<real>, j: nat)
    requires j < |s|
    ensures multiset(s[..j] + s[j + 1..]) == multiset(s) - multiset{s[j]}
  {
    assert s == s[..j] + [s[j]] + s[j + 1..];
  }

  lemma CountTakenOut(s: seq<real>, j: nat, p: real -> bool)
    requires j < |s|
    ensures CountIf(s, p) == CountIf(s[..j] + s[j + 1..], p) + CountIf([s[j]], p)
  {
    hide CountIf;
    assert s == s[..j] + ([s[j]] + s[j + 1..]);
    CountJoins(s[..j], [s[j]] + s[j + 1..], p);
    CountJoins([s[j]], s[j + 1..], p);
    CountJoins(s[..j], s[j + 1..], p);
  }

  /** The k-th smallest, by counting: enough values lie on either side of it. */
  predicate IsOrderStatistic(s: seq<real>, x: real, atMost: nat, atLeast: nat)
  {
    && x in s
    && |Where(s, y => y <= x)| >= atMost
    && |Where(s, y => y >= x)| >= atLeast
  }

  lemma SortedCounts(t: seq<real>, k: nat)
    requires SortedReals(t) && k < |t|
    ensures |Where(t, y => y <= t[k])| >= k + 1 && |Where(t, y => y >= t[k])| >= |t| - k
  {
    var low, high := Where(t, y => y <= t[k]), Where(t, y => y >= t[k]);
    BelowSize(k + 1);
    SubsetSize(Below(k + 1), low);
    var upper := Below(|t|) - Below(k);
    assert Below(|t|) == Below(k) + upper;
    BelowSize(|t|);
    BelowSize(k);
    SubsetSize(upper, high);
  }

  lemma RankIsOrderStatistic(s: seq<real>, k: nat)
    requires k < |s|
    ensures IsOrderStatistic(s, SortReals(s)[k], k + 1, |s| - k)
  {
    var t := SortReals(s);
    var low, high := y => y <= t[k], y => y >= t[k];
    SortedCounts(t, k);
    CountIsSize(t, low);
    CountIsSize(s, low);
    CountIsSize(t, high);
    CountIsSize(s, high);
    CountPermutes(s, t, low);
    CountPermutes(s, t, high);
    assert t[k] in multiset(s);
  }

  /** There is only one such value. */
  lemma OrderStatisticUnique(s: seq<real>, x: real, y: real, atMost: nat, atLeast: nat)
    requires IsOrderStatistic(s, x, atMost, atLeast) && IsOrderStatistic(s, y, atMost, atLeast) && atMost + atLeast > |s|
    ensures x == y
  {
    if x < y {
      Overlap(s, x, y, atMost, atLeast);
    } else if y < x {
      Overlap(s, y, x, atMost, atLeast);
    }
  }

  lemma Overlap(s: seq<real>, x: real, y: real, atMost: nat, atLeast: nat)
    requires |Where(s, z => z <= x)| >= atMost && |Where(s, z => z >= y)| >= atLeast && atMost + atLeast > |s|
    ensures y <= x
  {
    var low, high := Where(s, z => z <= x), Where(s, z => z >= y);
    if y > x {
      assert low !! high;
      assert |low + high| == |low| + |high|;
      BelowSize(|s|);
      SubsetSize(low + high, Below(|s|));
    }
  }

  // ------------------------------------------------------------------ what is returned

  /** These are the positions of the domain's clusters, in order, and g their differences. */
  predicate Lists(cs: seq<Cluster>, domain: string, g: seq<real>, at: seq<nat>)
  {
    && |at| == |g| && (forall i, j :: 0 <= i < j < |at| ==> at[i] < at[j])
    && (forall i :: 0 <= i < |at| ==> at[i] < |cs| && cs[at[i]].domain == domain && cs[at[i]].difference == Finite(g[i]))
    && forall k: nat :: k < |cs| && cs[k].domain == domain ==> k in at
  }

  /** The differences of the clusters of one domain, in the order of their families. */
  ghost predicate DifferencesOf(cs: seq<Cluster>, domain: string, g: seq<real>)
  {
    exists at: seq<nat> :: Lists(cs, domain, g, at)
  }

  lemma ListsMore(cs: seq<Cluster>, c: Cluster, domain: string, g: seq<real>, at: seq<nat>)
    requires Lists(cs, domain, g, at) && c.domain == domain && c.difference.Finite?
    ensures Lists(cs + [c], domain, g + [c.difference.value], at + [|cs|])
  {
    var more, more' := cs + [c], at + [|cs|];
    forall k: nat | k < |more| && more[k].domain == domain ensures k in more' {
      if k < |cs| {
        assert k in at;
      } else {
        assert more'[|at|] == k;
      }
    }
  }

  lemma ListsSame(cs: seq<Cluster>, c: Cluster, domain: string, g: seq<real>, at: seq<nat>)
    requires Lists(cs, domain, g, at) && c.domain != domain
    ensures Lists(cs + [c], domain, g, at)
  {
  }

  lemma {:induction false} GroupIsDifferences(cs: seq<Cluster>, domain: string)
    requires forall i :: 0 <= i < |cs| ==> Acceptable(cs[i])
    ensures DifferencesOf(cs, domain, Group(cs, domain))
    decreases |cs|
  {
    hide Lists, Group;
    if cs == [] {
      ListsNone(domain);
    } else {
      assert Acceptable(cs[|cs| - 1]);
      var front, last := cs[..|cs| - 1], cs[|cs| - 1];
      GroupIsDifferences(front, domain);
      var at :| Lists(front, domain, Group(front, domain), at);
      assert cs == front + [last];
      GroupAppend(front, last, domain);
      if last.domain == domain {
        ListsMore(front, last, domain, Group(front, domain), at);
      } else {
        assert Group(front, domain) + [] == Group(front, domain);
        ListsSame(front, last, domain, Group(front, domain), at);
      }
    }
  }

  lemma ListsNone(domain: string)
    ensures Lists([], domain, Group([], domain), [])
  {
  }

  predicate AllEqual(s: seq<real>)
  {
    forall i, j :: 0 <= i < j < |s| ==> s[i] == s[j]
  }

  /** The status that 10000 resampled means decide, when the sample is large enough. */
  predicate Decided(means: seq<real>, enough: bool, status: Status)
  {
    && (status.Insufficient? <==> !enough)
    && (status.Degenerate? <==> enough && AllEqual(means))
    && (status.Estimated? <==> enough && !AllEqual(means))
    && (status.Estimated? ==>
          IsOrderStatistic(means, status.lower, 250, 9_751) && IsOrderStatistic(means, status.upper, 9_750, 251))
  }

  /** The observed difference and the status, from the differences of the two domains. */
  predicate Weighed(g0: seq<real>, g1: seq<real>, seed: nat, repeats: int, families: nat, observed: real, status: Status)
    requires 1 <= |g0| <= WORDS && 1 <= |g1| <= WORDS
  {
    && observed == (Mean(g0) + Mean(g1)) / 2.0
    && Decided(ResampledMeans(g0, g1, seed, 10_000), repeats >= 3 && families >= 20 && |g0| >= 8 && |g1| >= 8, status)
  }

  /**
   What an interval is: the mean of the two domains' means, and, given three repeats, twenty families and eight in each domain, the
   250th and the 9750th of the 10000 resampled means in ascending order, found by counting; degenerate iff they are all equal.
   */
  lemma IntervalMeaning(input: seq<Cluster>, repeats: int, seed: nat, r: Interval)
    requires IsWord(seed) && Returns(input, repeats, seed, r)
    ensures r.samples == 10_000 && r.seed == seed && r.families == |input|
    ensures r.status.InvalidInput? <==> !ValidInput(input)
    ensures ValidInput(input) && |DomainSet(input)| != 2 ==> r.status.Insufficient? && r.observed == 0.0
    ensures ValidInput(input) && |DomainSet(input)| == 2 ==>
      exists sorted, d0, d1, g0, g1 ::
        && SortOf(sorted, input) && DomainSet(input) == {d0, d1} && LexLE(d0, d1)
        && DifferencesOf(sorted, d0, g0) && DifferencesOf(sorted, d1, g1)
        && 1 <= |g0| <= WORDS && 1 <= |g1| <= WORDS
        && Weighed(g0, g1, seed, repeats, |input|, r.observed, r.status)
  {
    InvalidIff(input, repeats, seed, r);
    var sorted :| SortOf(sorted, input) && |sorted| <= WORDS && Computes(sorted, repeats, seed, r);
    assert |sorted| == |multiset(sorted)| == |multiset(input)| == |input|;
    SameDomains(sorted, input);
    if ValidInput(input) {
      KeepsValid(input, sorted);
      if |DomainSet(input)| == 2 {
        SortedMeaning(sorted, repeats, seed, r);
      }
    }
  }

  lemma SameDomains(a: seq<Cluster>, b: seq<Cluster>)
    requires multiset(a) == multiset(b)
    ensures DomainSet(a) == DomainSet(b)
  {
    forall d ensures d in DomainSet(a) <==> d in DomainSet(b) {
      MembersPermute(a, b, d);
      MembersPermute(b, a, d);
    }
  }

  lemma SortedMeaning(cs: seq<Cluster>, repeats: int, seed: nat, r: Interval)
    requires |cs| <= WORDS && IsWord(seed) && ValidInput(cs) && |DomainSet(cs)| == 2 && Computes(cs, repeats, seed, r)
    ensures exists d0, d1, g0, g1 ::
      && DomainSet(cs) == {d0, d1} && LexLE(d0, d1) && DifferencesOf(cs, d0, g0) && DifferencesOf(cs, d1, g1)
      && 1 <= |g0| <= WORDS && 1 <= |g1| <= WORDS && Weighed(g0, g1, seed, repeats, |cs|, r.observed, r.status)
  {
    hide Group, DifferencesOf, Weighed, Estimate, Observed, Acceptable;
    var d0, d1 :| DomainPair(cs, d0, d1) && 0 < |Group(cs, d0)| <= |cs| && 0 < |Group(cs, d1)| <= |cs|
                  && r == IntervalOf(cs, d0, d1, repeats, seed);
    var g0, g1 := Group(cs, d0), Group(cs, d1);
    GroupIsDifferences(cs, d0);
    GroupIsDifferences(cs, d1);
    EstimateMeaning(g0, g1, repeats, |cs|, seed);
  }

  lemma EstimateMeaning(g0: seq<real>, g1: seq<real>, repeats: int, families: nat, seed: nat)
    requires 1 <= |g0| <= WORDS && 1 <= |g1| <= WORDS && IsWord(seed)
    ensures Weighed(g0, g1, seed, repeats, families, Observed(g0, g1), Estimate(g0, g1, repeats, families, seed, SAMPLES))
  {
    hide ResampledMeans, Samples, SortReals, Share, Decided, Mean, Percentiles;
    SamplesAreMeans(g0, g1, seed, SAMPLES);
    PercentilesDecide(ResampledMeans(g0, g1, seed, SAMPLES));
    HalvesAddUp(g0, g1);
  }

  lemma HalvesAddUp(g0: seq<real>, g1: seq<real>)
    requires |g0| > 0 && |g1| > 0
    ensures Observed(g0, g1) == (Mean(g0) + Mean(g1)) / 2.0
  {
    hide Sum, Share;
    HalfOfMean(Sum(g0), |g0|);
    HalfOfMean(Sum(g1), |g1|);
  }

  lemma PercentilesDecide(means: seq<real>)
    requires |means| == 10_000
    ensures Decided(means, true, Percentiles(SortReals(means))) && Decided(means, false, Insufficient)
  {
    hide SortReals, IsOrderStatistic, AllEqual;
    RankIsOrderStatistic(means, 249);
    RankIsOrderStatistic(means, 9_749);
    AllEqualIff(means);
  }

  lemma SortedEnds(s: seq<real>, i: nat)
    requires i < |s|
    ensures SortReals(s)[0] <= s[i] <= SortReals(s)[|s| - 1]
  {
    hide SortReals;
    var t := SortReals(s);
    var k := PositionIn(t, s[i], s);
  }

  /** Sorted, the first and last of equal values are equal, and only of those. */
  lemma AllEqualIff(s: seq<real>)
    requires |s| > 0
    ensures SortReals(s)[0] == SortReals(s)[|s| - 1] <==> AllEqual(s)
  {
    hide SortReals;
    var t := SortReals(s);
    forall i | 0 <= i < |s| ensures t[0] <= s[i] <= t[|s| - 1] {
      SortedEnds(s, i);
    }
    var i := PositionIn(s, t[0], t);
    var j := PositionIn(s, t[|s| - 1], t);
  }

  // --------------------------------------------------------------------------- the hull

  predicate Between(s: seq<real>, lo: real, hi: real)
  {
    forall i :: 0 <= i < |s| ==> lo <= s[i] <= hi
  }

  lemma {:induction false} SumBetween(s: seq<real>, lo: real, hi: real)
    requires Between(s, lo, hi)
    ensures lo * |s| as real <= Sum(s) <= hi * |s| as real
    decreases |s|
  {
    if s != [] {
      SumBetween(s[..|s| - 1], lo, hi);
    }
  }

  lemma MeanBetween(s: seq<real>, lo: real, hi: real)
    requires |s| > 0 && Between(s, lo, hi)
    ensures lo <= Mean(s) <= hi
  {
    SumBetween(s, lo, hi);
    var n, m := |s| as real, Mean(s);
    assert m * n == Sum(s);
    if m < lo {
      Scaled(m, lo, n);
    } else if hi < m {
      Scaled(hi, m, n);
    }
  }

  lemma MeansBetween(g0: seq<real>, g1: seq<real>, seed: nat, n: nat, lo: real, hi: real)
    requires 1 <= |g0| <= WORDS && 1 <= |g1| <= WORDS && Between(g0, lo, hi) && Between(g1, lo, hi)
    ensures Between(ResampledMeans(g0, g1, seed, n), lo, hi)
  {
    hide Mean, Picks, StateBetween;
    forall i | 0 <= i < n ensures lo <= ResampledMean(g0, g1, seed, i) <= hi {
      var state := Seeds(g0, g1, seed, i);
      MeanBetween(Chosen(g0, Picks(state, |g0|, |g0|)), lo, hi);
      var between := StateBetween(g0, state);
      MeanBetween(Chosen(g1, Picks(between, |g1|, |g1|)), lo, hi);
    }
  }

  /** Whatever bounds the clusters' differences bounds the observed difference and the interval. */
  lemma IntervalHull(input: seq<Cluster>, repeats: int, seed: nat, r: Interval, lo: real, hi: real)
    requires IsWord(seed) && Returns(input, repeats, seed, r) && r.status.Estimated?
    requires forall c :: c in input && c.difference.Finite? ==> lo <= c.difference.value <= hi
    ensures lo <= r.observed <= hi && lo <= r.status.lower <= hi && lo <= r.status.upper <= hi
  {
    hide ResampledMeans, Mean, DifferencesOf, Returns, DomainSet, SortOf, IsOrderStatistic, ValidInput;
    IntervalMeaning(input, repeats, seed, r);
    EstimatedInterval(input, repeats, seed, r);
    var sorted, d0, d1, g0, g1 :|
      && SortOf(sorted, input) && DomainSet(input) == {d0, d1} && LexLE(d0, d1)
      && DifferencesOf(sorted, d0, g0) && DifferencesOf(sorted, d1, g1)
      && 1 <= |g0| <= WORDS && 1 <= |g1| <= WORDS
      && Weighed(g0, g1, seed, repeats, |input|, r.observed, r.status);
    GroupBetween(input, sorted, d0, g0, lo, hi);
    GroupBetween(input, sorted, d1, g1, lo, hi);
    MeanBetween(g0, lo, hi);
    MeanBetween(g1, lo, hi);
    MeansBetween(g0, g1, seed, 10_000, lo, hi);
    OrderStatisticIn(ResampledMeans(g0, g1, seed, 10_000), r.status.lower, 250, 9_751);
    OrderStatisticIn(ResampledMeans(g0, g1, seed, 10_000), r.status.upper, 9_750, 251);
  }

  lemma OrderStatisticIn(s: seq<real>, x: real, atMost: nat, atLeast: nat)
    requires IsOrderStatistic(s, x, atMost, atLeast)
    ensures x in s
  {
  }

  lemma GroupBetween(input: seq<Cluster>, sorted: seq<Cluster>, domain: string, g: seq<real>, lo: real, hi: real)
    requires SortOf(sorted, input) && DifferencesOf(sorted, domain, g)
    requires forall c :: c in input && c.difference.Finite? ==> lo <= c.difference.value <= hi
    ensures Between(g, lo, hi)
  {
    forall i | 0 <= i < |g| ensures lo <= g[i] <= hi {
      var j :| 0 <= j < |sorted| && sorted[j].difference == Finite(g[i]);
      assert sorted[j] in multiset(sorted);
      assert sorted[j] in input;
    }
  }
}
