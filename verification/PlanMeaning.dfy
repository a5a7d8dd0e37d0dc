/** Which inputs can be planned, and where every trial of the inventory stands. */
module PlanMeaning {
  import opened SplitMix
  import opened Decision
  import opened TrialPlan

  // ------------------------------------------------------------------- what can be planned

  predicate SameFamily(x: Inputs, i: int, j: int)
  {
    && 0 <= i < |x.entries| && 0 <= j < |x.entries| && x.entries[i] in x.pack && x.entries[j] in x.pack
    && x.pack[x.entries[i]].family == x.pack[x.entries[j]].family
  }

  /** The i-th entry is the one before the j-th in their family. */
  predicate Precedes(x: Inputs, i: int, j: int)
  {
    SameFamily(x, i, j) && i < j && forall k :: i < k < j ==> !SameFamily(x, k, j)
  }

  /** A domain that is set stays the same from one entry of a family to the next. */
  predicate DomainKept(x: Inputs, i: int, j: int)
    requires Precedes(x, i, j)
  {
    x.pack[x.entries[i]].domain == "" || x.pack[x.entries[i]].domain == x.pack[x.entries[j]].domain
  }

  /** Known entries, none twice, each in a domain whose floor is a rate. */
  predicate EntryStated(x: Inputs, j: int)
    requires 0 <= j < |x.entries|
  {
    && x.entries[j] in x.pack && (forall i :: 0 <= i < j ==> x.entries[i] != x.entries[j])
    && var domain := x.pack[x.entries[j]].domain;
    && domain in x.floors && 0.0 <= x.floors[domain] <= 1.0
  }

  lemma {:induction false} FamilyDomainIs(x: Inputs, n: nat, j: nat) returns (i: int)
    requires n <= j < |x.entries| && x.entries[j] in x.pack && forall k :: n <= k < j ==> !SameFamily(x, k, j)
    ensures -1 <= i < n
    ensures i == -1 ==> FamilyDomain(x, n, x.pack[x.entries[j]].family) == "" && forall k :: 0 <= k < j ==> !SameFamily(x, k, j)
    ensures i >= 0 ==> Precedes(x, i, j) && FamilyDomain(x, n, x.pack[x.entries[j]].family) == x.pack[x.entries[i]].domain
    decreases n
  {
    if n == 0 {
      i := -1;
    } else if SameFamily(x, n - 1, j) {
      i := n - 1;
    } else {
      i := FamilyDomainIs(x, n - 1, j);
    }
  }

  lemma EntryMeans(x: Inputs, j: nat)
    requires j < |x.entries|
    ensures EntryOk(x, j) <==> EntryStated(x, j) && forall i :: Precedes(x, i, j) ==> DomainKept(x, i, j)
  {
    if x.entries[j] in x.pack {
      var i := FamilyDomainIs(x, j, j);
      forall k | Precedes(x, k, j) ensures k == i {
        assert i >= 0;
        assert k < i ==> SameFamily(x, i, j);
      }
    }
  }

  predicate EntriesStated(x: Inputs)
  {
    forall j :: 0 <= j < |x.entries| ==> EntryStated(x, j)
  }

  ghost predicate DomainsKept(x: Inputs)
  {
    forall i, j :: Precedes(x, i, j) ==> DomainKept(x, i, j)
  }

  /** Each required task is an entry, and is required once. */
  predicate RequiredStated(x: Inputs)
  {
    forall i :: 0 <= i < |x.required| ==> x.required[i] in x.entries && forall j :: 0 <= j < i ==> x.required[j] != x.required[i]
  }

  lemma EntriesMean(x: Inputs)
    ensures (forall j :: 0 <= j < |x.entries| ==> EntryOk(x, j)) <==> EntriesStated(x) && DomainsKept(x)
  {
    hide EntryOk, EntryStated, Precedes, DomainKept;
    forall j: nat | j < |x.entries|
      ensures EntryOk(x, j) <==> EntryStated(x, j) && forall i :: Precedes(x, i, j) ==> DomainKept(x, i, j) {
      EntryMeans(x, j);
    }
    PrecedesInside(x);
    if EntriesStated(x) && DomainsKept(x) {
      forall j | 0 <= j < |x.entries| ensures EntryOk(x, j) {
        assert EntryStated(x, j);
      }
    }
    if forall j :: 0 <= j < |x.entries| ==> EntryOk(x, j) {
      forall j | 0 <= j < |x.entries| ensures EntryStated(x, j) {
        assert EntryOk(x, j);
      }
      forall i, j | Precedes(x, i, j) ensures DomainKept(x, i, j) {
        assert EntryOk(x, j);
      }
    }
  }

  lemma RequiredMeans(x: Inputs)
    ensures Distinct(x.required) && (forall i :: 0 <= i < |x.required| ==> x.required[i] in x.entries) <==> RequiredStated(x)
  {
  }

  /** The inputs that have an inventory. */
  lemma PlannableIff(x: Inputs)
    ensures Plannable(x) <==>
      (&& 1 <= |x.entries| <= 72 && 1 <= x.repeats <= 5 && 2 * |x.entries| * x.repeats <= 240 && x.base != x.candidate
       && EntriesStated(x) && DomainsKept(x) && RequiredStated(x))
  {
    hide EntryOk, EntriesStated, DomainsKept, RequiredStated;
    EntriesMean(x);
    RequiredMeans(x);
    Regroup(|x.entries|, x.repeats);
  }

  lemma PrecedesInside(x: Inputs)
    ensures forall i, j :: Precedes(x, i, j) ==> 0 <= i < j < |x.entries|
  {
  }

  // --------------------------------------------------------------------- where each trial is

  /** The three digits of a trial's number. */
  lemma NameReads(n: nat)
    requires n < 1000
    ensures Name(n) == "trial-" + ["0123456789"[n / 100], "0123456789"[n / 10 % 10], "0123456789"[n % 10]]
  {
  }

  lemma PairAt(x: Inputs, e: nat, k: nat)
    requires Bounded(x, e, k + 1)
    ensures var p := e * x.repeats + k; var ts := Inventory(x, e, k + 1);
      && p >= 0 && |ts| == 2 * p + 2
      && ts[2 * p] == MakeTrial(x, e, k, p % 2 == 1, 2 * p) && ts[2 * p + 1] == MakeTrial(x, e, k, p % 2 == 0, 2 * p + 1)
  {
    InventorySize(x, e, k);
    InventorySize(x, e, k + 1);
    var p := |Inventory(x, e, k)| / 2;
    assert |Inventory(x, e, k)| == 2 * (e * x.repeats + k);
    assert p == e * x.repeats + k;
  }

  /** Whose turn it is in a pair, and what the trial says. */
  function TrialFor(x: Inputs, e: nat, k: nat, n: nat, candidate: bool): Trial
    requires e < |x.entries| && x.entries[e] in x.pack
  {
    var id := x.entries[e];
    Trial(x.name(n), id, x.pack[id].family, x.pack[id].domain, if candidate then x.candidate else x.base, k + 1, id in x.required)
  }

  lemma PairStays(x: Inputs, e: nat, k: nat)
    requires Plannable(x) && e < |x.entries| && k < x.repeats
    ensures x.entries[e] in x.pack && |Trials(x)| == 2 * |x.entries| * x.repeats
    ensures Bounded(x, e, k + 1) && Inventory(x, e, k + 1) <= Trials(x)
  {
    PlanIsBounded(x);
    hide Inventory;
    EntriesGrow(x, e, k + 1, |x.entries|);
  }

  /**
   Where the trials of each entry and repeat stand: two by two in the order of entries and repeats, numbered from 1, with
   the baseline first in every other pair.
   */
  lemma TrialsStand(x: Inputs, e: nat, k: nat)
    requires Plannable(x) && e < |x.entries| && k < x.repeats
    ensures x.entries[e] in x.pack && |Trials(x)| == 2 * |x.entries| * x.repeats
    ensures var p := e * x.repeats + k;
      && p >= 0 && 2 * p + 1 < |Trials(x)|
      && Trials(x)[2 * p] == TrialFor(x, e, k, 2 * p + 1, p % 2 == 1)
      && Trials(x)[2 * p + 1] == TrialFor(x, e, k, 2 * p + 2, p % 2 == 0)
  {
    hide Inventory, Plannable, Trials;
    PairStays(x, e, k);
    PairAt(x, e, k);
  }
}
