/** The trial inventory of a prepared plan, and what it guarantees the verdict. */
module TrialPlan {
  import opened SplitMix
  import opened Decision
  import opened Bootstrap

  datatype Entry = Entry(family: string, domain: string)

  datatype Inputs = Inputs(pack: map<string, Entry>, entries: seq<string>, required: seq<string>, repeats: int,
                           base: string, candidate: string, floors: map<string, real>,
                           name: nat -> string)

  function Digit(n: nat): char
    requires n < 10
  {
    "0123456789"[n]
  }

  function Decimal(n: nat): string
  {
    if n < 10 then [Digit(n)] else Decimal(n / 10) + [Digit(n % 10)]
  }

  /** "trial-" and at least three digits. */
  function Name(n: nat): string
  {
    "trial-" + if n < 1000 then Pad(n / 100, n / 10 % 10, n % 10) else Decimal(n)
  }

  function Pad(a: nat, b: nat, c: nat): string
    requires a < 10 && b < 10 && c < 10
  {
    [Digit(a), Digit(b), Digit(c)]
  }

  lemma DigitsDiffer(a: nat, b: nat)
    requires a < 10 && b < 10 && Digit(a) == Digit(b)
    ensures a == b
  {
  }

  lemma NamesDiffer(m: nat, n: nat)
    requires m < 1000 && n < 1000 && Name(m) == Name(n)
    ensures m == n
  {
    assert Name(m)[6..] == Name(n)[6..];
    var p, q := Pad(m / 100, m / 10 % 10, m % 10), Pad(n / 100, n / 10 % 10, n % 10);
    assert p[0] == q[0] && p[1] == q[1] && p[2] == q[2];
    DigitsDiffer(m / 100, n / 100);
    DigitsDiffer(m / 10 % 10, n / 10 % 10);
    DigitsDiffer(m % 10, n % 10);
    ThreeDigits(m);
    ThreeDigits(n);
  }

  lemma ThreeDigits(n: nat)
    requires n < 1000
    ensures n == 100 * (n / 100) + 10 * (n / 10 % 10) + n % 10
  {
    assert n / 100 == n / 10 / 10;
  }

  predicate Sized(x: Inputs)
  {
    1 <= |x.entries| <= 72 && 1 <= x.repeats <= 5 && |x.entries| * x.repeats * 2 <= 240 && x.base != x.candidate
  }

  predicate Distinct(s: seq<string>)
  {
    forall i, j :: 0 <= i < j < |s| ==> s[i] != s[j]
  }

  /** The domain the last of these entries gave a family. */
  function FamilyDomain(x: Inputs, n: nat, family: string): string
    requires n <= |x.entries|
  {
    if n == 0 then ""
    else if x.entries[n - 1] in x.pack && x.pack[x.entries[n - 1]].family == family then x.pack[x.entries[n - 1]].domain
    else FamilyDomain(x, n - 1, family)
  }

  predicate EntryOk(x: Inputs, e: nat)
    requires e < |x.entries|
  {
    && x.entries[e] in x.pack
    && (forall i :: 0 <= i < e ==> x.entries[i] != x.entries[e])
    && var entry := x.pack[x.entries[e]];
    && FamilyDomain(x, e, entry.family) in {"", entry.domain}
    && entry.domain in x.floors && 0.0 <= x.floors[entry.domain] <= 1.0
  }

  predicate Plannable(x: Inputs)
  {
    Sized(x) && Distinct(x.required)
    && (forall e :: 0 <= e < |x.entries| ==> EntryOk(x, e))
    && forall i :: 0 <= i < |x.required| ==> x.required[i] in x.entries
  }

  predicate AllPacked(x: Inputs)
  {
    forall e :: 0 <= e < |x.entries| ==> x.entries[e] in x.pack
  }

  /** The n-th trial, for a repeat of entry e. */
  function MakeTrial(x: Inputs, e: nat, repeat: nat, candidate: bool, n: nat): Trial
    requires e < |x.entries| && x.entries[e] in x.pack
  {
    var id := x.entries[e];
    Trial(x.name(n + 1), id, x.pack[id].family, x.pack[id].domain, if candidate then x.candidate else x.base,
          repeat + 1, id in x.required)
  }

  /** Both configurations of one repeat, the candidate first in every other pair. */
  function PairOf(x: Inputs, e: nat, repeat: nat, n: nat): seq<Trial>
    requires e < |x.entries| && x.entries[e] in x.pack
  {
    var swap := n / 2 % 2 == 1;
    [MakeTrial(x, e, repeat, swap, n), MakeTrial(x, e, repeat, !swap, n + 1)]
  }

  ghost predicate Ready(x: Inputs, e: nat, r: nat)
  {
    e <= |x.entries| && (r > 0 ==> e < |x.entries|) && x.repeats >= 0
    && forall i :: 0 <= i < e || (r > 0 && i == e) ==> x.entries[i] in x.pack
  }

  /** All trials of the entries before e, then those of the first r repeats of entry e. */
  function Inventory(x: Inputs, e: nat, r: nat): seq<Trial>
    requires Ready(x, e, r)
    decreases e, r
  {
    if r > 0 then Inventory(x, e, r - 1) + PairOf(x, e, r - 1, |Inventory(x, e, r - 1)|)
    else if e > 0 then Inventory(x, e - 1, x.repeats)
    else []
  }

  function Trials(x: Inputs): seq<Trial>
    requires Plannable(x)
  {
    PacksAll(x);
    Inventory(x, |x.entries|, 0)
  }

  lemma PacksAll(x: Inputs)
    requires Plannable(x)
    ensures AllPacked(x)
  {
    forall e | 0 <= e < |x.entries| ensures x.entries[e] in x.pack {
      assert EntryOk(x, e);
    }
  }

  // --------------------------------------------------------------------------- the loop

  method PlanTrials(x: Inputs) returns (ok: bool, ts: seq<Trial>)
    ensures ok <==> Plannable(x)
    ensures ok ==> ts == Trials(x)
  {
    hide Inventory, EntryOk, FamilyDomain, Seen, Follows;
    ts := [];
    if !Sized(x) {
      return false, ts;
    }
    var distinct, required := RequiredSet(x);
    if !distinct {
      return false, ts;
    }
    var seen: set<string> := {};
    var families: map<string, string> := map[];
    NothingPlanned(x);
    for e := 0 to |x.entries|
      invariant Seen(x, e, seen) && Follows(x, e, families)
      invariant forall i :: 0 <= i < e ==> EntryOk(x, i)
      invariant Ready(x, e, 0) && ts == Inventory(x, e, 0)
    {
      var valid := CheckEntry(x, e, seen, families);
      if !valid {
        return false, ts;
      }
      var id := x.entries[e];
      SeenStep(x, e, seen);
      FollowsStep(x, e, families);
      seen := seen + {id};
      families := families[x.pack[id].family := x.pack[id].domain];
      ts := PlanEntry(x, ts, e, required);
    }
    RequiredSeen(x, seen, required);
    ok := forall id :: id in required ==> id in seen;
  }

  predicate Seen(x: Inputs, e: nat, seen: set<string>)
    requires e <= |x.entries|
  {
    (forall i :: 0 <= i < e ==> x.entries[i] in seen) && forall id :: id in seen ==> exists i :: 0 <= i < e && x.entries[i] == id
  }

  ghost predicate Follows(x: Inputs, e: nat, families: map<string, string>)
    requires e <= |x.entries|
  {
    forall f :: FamilyDomain(x, e, f) == if f in families then families[f] else ""
  }

  lemma NothingPlanned(x: Inputs)
    ensures Seen(x, 0, {}) && Follows(x, 0, map[])
    ensures Sized(x) ==> Ready(x, 0, 0) && Inventory(x, 0, 0) == []
  {
  }

  lemma SeenStep(x: Inputs, e: nat, seen: set<string>)
    requires e < |x.entries| && Seen(x, e, seen)
    ensures Seen(x, e + 1, seen + {x.entries[e]})
  {
    forall id | id in seen + {x.entries[e]} ensures exists i :: 0 <= i < e + 1 && x.entries[i] == id {
      if id == x.entries[e] {
        assert x.entries[e] == id;
      } else {
        var i :| 0 <= i < e && x.entries[i] == id;
      }
    }
  }

  lemma FollowsStep(x: Inputs, e: nat, families: map<string, string>)
    requires e < |x.entries| && x.entries[e] in x.pack && Follows(x, e, families)
    ensures Follows(x, e + 1, families[x.pack[x.entries[e]].family := x.pack[x.entries[e]].domain])
  {
  }

  /** Every required task was seen exactly when it is an entry. */
  lemma RequiredSeen(x: Inputs, seen: set<string>, required: set<string>)
    requires Seen(x, |x.entries|, seen) && forall id :: id in required <==> id in x.required
    ensures (forall id :: id in required ==> id in seen) <==> forall i :: 0 <= i < |x.required| ==> x.required[i] in x.entries
  {
    forall id ensures id in seen <==> id in x.entries {
    }
    forall i | 0 <= i < |x.required| ensures x.required[i] in required {
    }
  }

  /** The checks on one entry, given the entries before it. */
  method CheckEntry(x: Inputs, e: nat, seen: set<string>, families: map<string, string>) returns (ok: bool)
    requires e < |x.entries| && Seen(x, e, seen) && Follows(x, e, families)
    ensures ok <==> EntryOk(x, e)
    ensures ok ==> x.entries[e] in x.pack
  {
    var id := x.entries[e];
    if id !in x.pack || id in seen {
      return false;
    }
    var entry := x.pack[id];
    var before := if entry.family in families then families[entry.family] else "";
    assert before == FamilyDomain(x, e, entry.family);
    ok := (before == "" || before == entry.domain) && entry.domain in x.floors && 0.0 <= x.floors[entry.domain] <= 1.0;
  }

  method RequiredSet(x: Inputs) returns (distinct: bool, required: set<string>)
    ensures distinct <==> Distinct(x.required)
    ensures distinct ==> forall id :: id in required <==> id in x.required
  {
    required := {};
    for i := 0 to |x.required|
      invariant Distinct(x.required[..i])
      invariant forall id :: id in required <==> id in x.required[..i]
    {
      if x.required[i] in required {
        var j :| 0 <= j < i && x.required[..i][j] == x.required[i];
        assert x.required[j] == x.required[i];
        return false, required;
      }
      required := required + {x.required[i]};
      assert x.required[..i + 1] == x.required[..i] + [x.required[i]];
    }
    assert x.required[..|x.required|] == x.required;
    distinct := true;
  }

  method PlanEntry(x: Inputs, before: seq<Trial>, e: nat, required: set<string>) returns (ts: seq<Trial>)
    requires Sized(x) && e < |x.entries| && (forall i :: 0 <= i <= e ==> x.entries[i] in x.pack)
    requires forall id :: id in required <==> id in x.required
    requires Ready(x, e, 0) && before == Inventory(x, e, 0)
    ensures Ready(x, e + 1, 0) && ts == Inventory(x, e + 1, 0)
  {
    ts := before;
    for repeat := 0 to x.repeats
      invariant Ready(x, e, repeat) && ts == Inventory(x, e, repeat)
    {
      ghost var pairs := InventoryIsEven(x, e, repeat);
      ts := PlanPair(x, ts, e, repeat, required, pairs);
    }
  }

  method PlanPair(x: Inputs, before: seq<Trial>, e: nat, repeat: nat, required: set<string>, ghost pairs: nat) returns (ts: seq<Trial>)
    requires e < |x.entries| && x.entries[e] in x.pack && |before| == 2 * pairs
    requires forall id :: id in required <==> id in x.required
    ensures ts == before + PairOf(x, e, repeat, |before|)
  {
    ts := before;
    var order := [false, true];
    if |ts| / 2 % 2 == 1 {
      order := [true, false];
    }
    var id := x.entries[e];
    for k := 0 to 2
      invariant ts == before + PairOf(x, e, repeat, |before|)[..k]
    {
      var t := Trial(x.name(|ts| + 1), id, x.pack[id].family, x.pack[id].domain, if order[k] then x.candidate else x.base,
                     repeat + 1, id in required);
      assert t == PairOf(x, e, repeat, |before|)[k];
      ts := ts + [t];
    }
  }

  lemma InventoryGrows(x: Inputs, e: nat, r: nat)
    requires Ready(x, e, r) && r > 0
    ensures |Inventory(x, e, r)| == |Inventory(x, e, r - 1)| + 2
    ensures Inventory(x, e, r - 1) <= Inventory(x, e, r)
  {
  }

  lemma InventoryCarries(x: Inputs, e: nat)
    requires Ready(x, e, 0) && e > 0
    ensures Inventory(x, e, 0) == Inventory(x, e - 1, x.repeats)
  {
  }

  lemma {:induction false} InventoryIsEven(x: Inputs, e: nat, r: nat) returns (pairs: nat)
    requires Ready(x, e, r)
    ensures |Inventory(x, e, r)| == 2 * pairs
    decreases e, r
  {
    if r > 0 {
      pairs := InventoryIsEven(x, e, r - 1);
      InventoryGrows(x, e, r);
      pairs := pairs + 1;
    } else if e > 0 {
      pairs := InventoryIsEven(x, e - 1, x.repeats);
      InventoryCarries(x, e);
    } else {
      pairs := 0;
    }
  }

  // ------------------------------------------------------------------------ what it guarantees

  ghost predicate Bounded(x: Inputs, e: nat, r: nat)
  {
    AllPacked(x) && e <= |x.entries| && 0 <= r <= x.repeats && (r > 0 ==> e < |x.entries|)
  }

  /** Where a trial came from. */
  ghost predicate From(x: Inputs, t: Trial, e: nat, r: nat, n: nat)
    requires Bounded(x, e, 0) && e < |x.entries|
  {
    t == MakeTrial(x, e, r, true, n) || t == MakeTrial(x, e, r, false, n)
  }

  /** A trial of the next repeat is an earlier one, or belongs to the pair just added. */
  lemma InventoryAt(x: Inputs, e: nat, r: nat, n: nat)
    requires Bounded(x, e, r) && r > 0 && n < |Inventory(x, e, r)|
    ensures n < |Inventory(x, e, r - 1)| ==> Inventory(x, e, r)[n] == Inventory(x, e, r - 1)[n]
    ensures |Inventory(x, e, r - 1)| <= n ==> From(x, Inventory(x, e, r)[n], e, r - 1, n)
  {
  }

  /** Each trial in the inventory belongs to an earlier entry, or to an earlier repeat of the current one. */
  lemma {:induction false} Origin(x: Inputs, e: nat, r: nat, n: nat) returns (i: nat, k: nat)
    requires Bounded(x, e, r) && n < |Inventory(x, e, r)|
    ensures i < |x.entries| && k < x.repeats && From(x, Inventory(x, e, r)[n], i, k, n)
    ensures i < e || (i == e && k < r)
    decreases e, r
  {
    if r > 0 {
      InventoryAt(x, e, r, n);
      if n < |Inventory(x, e, r - 1)| {
        i, k := Origin(x, e, r - 1, n);
      } else {
        i, k := e, r - 1;
      }
    } else {
      InventoryCarries(x, e);
      i, k := Origin(x, e - 1, x.repeats, n);
    }
  }

  lemma {:induction false} InventorySize(x: Inputs, e: nat, r: nat)
    requires Bounded(x, e, r)
    ensures |Inventory(x, e, r)| == 2 * (e * x.repeats + r)
    decreases e, r
  {
    if r > 0 {
      InventorySize(x, e, r - 1);
    } else if e > 0 {
      InventorySize(x, e - 1, x.repeats);
      assert (e - 1) * x.repeats + x.repeats == e * x.repeats;
    }
  }

  lemma Regroup(a: int, b: int)
    ensures 2 * (a * b + 0) == 2 * a * b == a * b * 2
  {
  }

  lemma PlanIsBounded(x: Inputs)
    requires Plannable(x)
    ensures Bounded(x, |x.entries|, 0)
    ensures |Trials(x)| == 2 * |x.entries| * x.repeats <= 240
  {
    PacksAll(x);
    InventorySize(x, |x.entries|, 0);
    Regroup(|x.entries|, x.repeats);
  }

  lemma IdOf(x: Inputs, n: nat)
    requires Plannable(x) && n < |Trials(x)|
    ensures Trials(x)[n].id == x.name(n + 1)
  {
    PlanIsBounded(x);
    var e, r := Origin(x, |x.entries|, 0, n);
  }

  lemma IdsDiffer(x: Inputs, m: nat, n: nat)
    requires Plannable(x) && m < n < |Trials(x)| && x.name == Name
    ensures Trials(x)[m].id != Trials(x)[n].id
  {
    IdOf(x, m);
    IdOf(x, n);
    PlanIsBounded(x);
    if Name(m + 1) == Name(n + 1) {
      NamesDiffer(m + 1, n + 1);
    }
  }

  /** Both configurations of the last repeat stand in the pair just added, in an order that alternates. */
  lemma PairHolds(x: Inputs, e: nat, r: nat, candidate: bool) returns (n: nat)
    requires Bounded(x, e, r) && r > 0
    ensures n < |Inventory(x, e, r)| && Inventory(x, e, r)[n] == MakeTrial(x, e, r - 1, candidate, n)
  {
    var start := |Inventory(x, e, r - 1)|;
    n := if (start / 2 % 2 == 1) == candidate then start else start + 1;
  }

  lemma PrefixTransitive(a: seq<Trial>, b: seq<Trial>, c: seq<Trial>)
    requires a <= b && b <= c
    ensures a <= c
  {
  }

  /** The inventory only grows at its end, with each repeat and with each entry. */
  lemma {:induction false} RepeatsGrow(x: Inputs, e: nat, k: nat, r: nat)
    requires Bounded(x, e, r) && k <= r
    ensures Inventory(x, e, k) <= Inventory(x, e, r)
    decreases r
  {
    if k < r {
      RepeatsGrow(x, e, k, r - 1);
      InventoryGrows(x, e, r);
      PrefixTransitive(Inventory(x, e, k), Inventory(x, e, r - 1), Inventory(x, e, r));
    }
  }

  lemma EntryGrows(x: Inputs, e: nat, k: nat)
    requires Bounded(x, e, k) && e < |x.entries|
    ensures Inventory(x, e, k) <= Inventory(x, e + 1, 0)
  {
    InventoryCarries(x, e + 1);
    RepeatsGrow(x, e, k, x.repeats);
  }

  lemma {:induction false} EntriesGrow(x: Inputs, i: nat, k: nat, e: nat)
    requires Bounded(x, e, 0) && Bounded(x, i, k) && i < e
    ensures Inventory(x, i, k) <= Inventory(x, e, 0)
    decreases e - i
  {
    EntryGrows(x, i, k);
    if i + 1 < e {
      EntriesGrow(x, i + 1, 0, e);
      PrefixTransitive(Inventory(x, i, k), Inventory(x, i + 1, 0), Inventory(x, e, 0));
    }
  }

  /** Every entry, repeat and configuration is there. */
  lemma Complete(x: Inputs, e: nat, r: nat, i: nat, k: nat, candidate: bool) returns (n: nat)
    requires Bounded(x, e, r) && i < |x.entries| && k < x.repeats && (i < e || (i == e && k < r))
    ensures n < |Inventory(x, e, r)| && Inventory(x, e, r)[n] == MakeTrial(x, i, k, candidate, n)
  {
    n := PairHolds(x, i, k + 1, candidate);
    if i == e {
      RepeatsGrow(x, e, k + 1, r);
    } else {
      EntriesGrow(x, i, k + 1, e);
      RepeatsGrow(x, e, 0, r);
    }
  }

  lemma FreshKey(x: Inputs, t: Trial, i: nat, k: nat, m: nat, t': Trial, e: nat, r: nat, n: nat)
    requires Plannable(x) && AllPacked(x) && i < |x.entries| && e < |x.entries| && k < x.repeats && r < x.repeats
    requires From(x, t, i, k, m) && From(x, t', e, r, n) && (i < e || (i == e && k < r))
    ensures KeyOf(t) != KeyOf(t')
  {
    assert EntryOk(x, e);
    SmallRunes(k + 1, r + 1);
  }

  /** The two trials of a pair differ in their configuration. */
  lemma PairSplits(x: Inputs, e: nat, r: nat)
    requires Sized(x) && Bounded(x, e, r) && r > 0
    ensures var start, ts := |Inventory(x, e, r - 1)|, Inventory(x, e, r);
      |ts| == start + 2 && ts[start].configID != ts[start + 1].configID
  {
  }

  lemma NewPairDiffers(x: Inputs, e: nat, r: nat, m: nat, n: nat)
    requires Plannable(x) && Bounded(x, e, r) && r > 0 && |Inventory(x, e, r - 1)| <= n < |Inventory(x, e, r)| && m < n
    ensures KeyOf(Inventory(x, e, r)[m]) != KeyOf(Inventory(x, e, r)[n])
            || Inventory(x, e, r)[m].configID != Inventory(x, e, r)[n].configID
  {
    PairSplits(x, e, r);
    InventoryAt(x, e, r, n);
    InventoryAt(x, e, r, m);
    if m < |Inventory(x, e, r - 1)| {
      var i, k := Origin(x, e, r - 1, m);
      FreshKey(x, Inventory(x, e, r)[m], i, k, m, Inventory(x, e, r)[n], e, r - 1, n);
    }
  }

  /** Each configuration meets each entry and repeat only once, so no pair is overwritten. */
  lemma {:induction false} PairsDiffer(x: Inputs, e: nat, r: nat, m: nat, n: nat)
    requires Plannable(x) && Bounded(x, e, r) && m < n < |Inventory(x, e, r)|
    ensures var ts := Inventory(x, e, r);
      KeyOf(ts[m]) != KeyOf(ts[n]) || ts[m].configID != ts[n].configID
    decreases e, r
  {
    if r > 0 {
      if n < |Inventory(x, e, r - 1)| {
        PairsDiffer(x, e, r - 1, m, n);
      } else {
        NewPairDiffers(x, e, r, m, n);
      }
    } else {
      PairsDiffer(x, e - 1, x.repeats, m, n);
    }
  }

  lemma SmallRunes(a: nat, b: nat)
    requires a <= 5 && b <= 5
    ensures Rune(a) == Rune(b) <==> a == b
  {
  }

  function Hits(t: Trial, family: string, config: string): nat
  {
    if t.familyID == family && t.configID == config then 1 else 0
  }

  lemma TwoMore(ts: seq<Trial>, pair: seq<Trial>, byID: map<string, Observation>, family: string, config: string)
    requires |pair| == 2
    ensures |Scores(ts + pair, byID, family, config)|
      == |Scores(ts, byID, family, config)| + Hits(pair[0], family, config) + Hits(pair[1], family, config)
  {
    var one, two := ts + [pair[0]], ts + pair;
    assert two[..|ts| + 1] == one && one[..|ts|] == ts;
  }

  /** A pair adds as much to one configuration as to the other. */
  lemma PairIsEven(x: Inputs, e: nat, repeat: nat, n: nat, family: string)
    requires Sized(x) && e < |x.entries| && x.entries[e] in x.pack
    ensures var pair := PairOf(x, e, repeat, n);
      Hits(pair[0], family, x.base) + Hits(pair[1], family, x.base)
      == Hits(pair[0], family, x.candidate) + Hits(pair[1], family, x.candidate)
  {
  }

  lemma OneMorePair(x: Inputs, e: nat, r: nat, byID: map<string, Observation>, family: string)
    requires Sized(x) && Bounded(x, e, r) && r > 0
    requires |Scores(Inventory(x, e, r - 1), byID, family, x.base)| == |Scores(Inventory(x, e, r - 1), byID, family, x.candidate)|
    ensures |Scores(Inventory(x, e, r), byID, family, x.base)| == |Scores(Inventory(x, e, r), byID, family, x.candidate)|
  {
    var before := Inventory(x, e, r - 1);
    var pair := PairOf(x, e, r - 1, |before|);
    PairIsEven(x, e, r - 1, |before|, family);
    TwoMore(before, pair, byID, family, x.base);
    TwoMore(before, pair, byID, family, x.candidate);
  }

  /** In every family both configurations have equally many trials. */
  lemma {:induction false} FamiliesBalanced(x: Inputs, e: nat, r: nat, byID: map<string, Observation>, family: string)
    requires Sized(x) && Bounded(x, e, r)
    ensures |Scores(Inventory(x, e, r), byID, family, x.base)| == |Scores(Inventory(x, e, r), byID, family, x.candidate)|
    decreases e, r
  {
    if r > 0 {
      FamiliesBalanced(x, e, r - 1, byID, family);
      OneMorePair(x, e, r, byID, family);
    } else if e > 0 {
      FamiliesBalanced(x, e - 1, x.repeats, byID, family);
      InventoryCarries(x, e);
    }
  }

  lemma {:induction false} HasScore(ts: seq<Trial>, byID: map<string, Observation>, i: nat)
    requires i < |ts|
    ensures |Scores(ts, byID, ts[i].familyID, ts[i].configID)| > 0
    decreases |ts|
  {
    if i < |ts| - 1 {
      HasScore(ts[..|ts| - 1], byID, i);
    }
  }

  /** A prepared plan is found invalid exactly when some trial lacks complete, verified and cleaned-up evidence. */
  lemma ValidIffScorable(x: Inputs, byID: map<string, Observation>)
    requires Plannable(x)
    ensures Valid(Trials(x), byID, x.base, x.candidate) <==> forall i :: 0 <= i < |Trials(x)| ==> Scorable(byID, Trials(x)[i])
  {
    var ts := Trials(x);
    PlanIsBounded(x);
    forall f | f in FamilySet(ts) ensures Balanced(ts, byID, x.base, x.candidate, f) {
      var i :| 0 <= i < |ts| && ts[i].familyID == f;
      var e, k := Origin(x, |x.entries|, 0, i);
      HasScore(ts, byID, i);
      FamiliesBalanced(x, |x.entries|, 0, byID, f);
    }
  }

  lemma NoFloorUnset(x: Inputs, plan: Plan)
    requires Plannable(x) && plan.configs == [x.base, x.candidate] && plan.floors == x.floors
    ensures !SomeFloorUnset(plan, Trials(x))
  {
    var ts := Trials(x);
    PlanIsBounded(x);
    forall d ensures !FloorIsUnset(ts, plan.floors, x.candidate, d) {
      if FloorTotal(ts, x.candidate, d) > 0 {
        var i := CountedMember(ts, x.candidate, d);
        var e, k := Origin(x, |x.entries|, 0, i);
        assert EntryOk(x, e);
      }
    }
  }

  /** Every domain of a prepared plan has its floor, so the order in which floors are visited cannot matter. */
  lemma PreparedVerdictUnique(x: Inputs, byID: map<string, Observation>, plan: Plan, r: Report, r': Report)
    requires Plannable(x) && plan.configs == [x.base, x.candidate] && plan.delta.Margin? && plan.floors == x.floors
    requires IsWord(plan.seed) && Decides(plan, Trials(x), byID, r) && Decides(plan, Trials(x), byID, r')
    ensures r == r'
  {
    if Valid(Trials(x), byID, x.base, x.candidate) {
      IntervalUnique(plan, Trials(x), byID, r.interval, r'.interval);
    }
    NoFloorUnset(x, plan);
    assert (r.verdict, r.reason) == (r'.verdict, r'.reason) by {
      VerdictsDifferIff(plan, Trials(x), byID, r.interval);
    }
  }

  /** The pair of a key holds, for each configuration, the observation of the one trial with that entry and repeat. */
  lemma PairedIsItsTrial(x: Inputs, byID: map<string, Observation>, i: nat)
    requires Plannable(x) && i < |Trials(x)|
    ensures var t := Trials(x)[i];
      Paired(Trials(x), byID, KeyOf(t), t.configID) == ObservationOf(byID, t.id)
  {
    var ts := Trials(x);
    PlanIsBounded(x);
    forall j | 0 <= j < |ts| && KeyOf(ts[j]) == KeyOf(ts[i]) && ts[j].configID == ts[i].configID ensures j == i {
      if j < i {
        PairsDiffer(x, |x.entries|, 0, j, i);
      } else if i < j {
        PairsDiffer(x, |x.entries|, 0, i, j);
      }
    }
    LastMatch(ts, byID, i);
  }

  lemma {:induction false} LastMatch(ts: seq<Trial>, byID: map<string, Observation>, i: nat)
    requires i < |ts|
    requires forall j :: 0 <= j < |ts| && KeyOf(ts[j]) == KeyOf(ts[i]) && ts[j].configID == ts[i].configID ==> j == i
    ensures Paired(ts, byID, KeyOf(ts[i]), ts[i].configID) == ObservationOf(byID, ts[i].id)
    decreases |ts|
  {
    if i < |ts| - 1 {
      var front := ts[..|ts| - 1];
      forall j | 0 <= j < |front| && KeyOf(front[j]) == KeyOf(front[i]) && front[j].configID == front[i].configID ensures j == i {
        assert KeyOf(ts[j]) == KeyOf(ts[i]);
      }
      LastMatch(front, byID, i);
    }
  }
}
