/**
 The splitmix64 generator and its rejection sampler, with 64-bit words as numbers below 2^64 and wrap-around
 written out. The finalizer is a bijection, successive outputs are distinct, so drawing an index always ends,
 within as many draws as there are indices, and every index is the image of equally many words.
 */
module SplitMix {

  const WORDS := 0x1_0000_0000_0000_0000

  const GAMMA := 0x9e3779b97f4a7c15
  const M1 := 0xbf58476d1ce4e5b9
  const M2 := 0x94d049bb133111eb

  // Inverses modulo 2^64.
  const GAMMA_INVERSE := 0xf1de83e19937733d
  const M1_INVERSE := 0x96de1b173f119089
  const M2_INVERSE := 0x319642b2d24d8ec3

  predicate IsWord(x: int)
  {
    0 <= x < WORDS
  }

  /** Bitwise exclusive or. */
  function Xor(a: nat, b: nat): nat
    decreases a, b
  {
    if a == 0 then b
    else 2 * Xor(a / 2, b / 2) + (a % 2 + b % 2) % 2
  }

  function Times(a: nat, c: nat): nat
  {
    a * c % WORDS
  }

  /** z ^ (z >> k), where p is two to the k. */
  function XorShift(z: nat, p: nat): nat
    requires p > 0
  {
    Xor(z, z / p)
  }

  const P30 := 0x4000_0000
  const P27 := 0x800_0000
  const P31 := 0x8000_0000

  function Round1(z: nat): nat
  {
    Times(XorShift(z, P30), M1)
  }

  function Round2(z: nat): nat
  {
    Times(XorShift(z, P27), M2)
  }

  /** The finalizer. */
  function Mix(state: nat): nat
  {
    XorShift(Round2(Round1(state)), P31)
  }

  // ------------------------------------------------------------ the finalizer is a bijection

  lemma XorHalves(a: nat, b: nat)
    ensures Xor(a, b) / 2 == Xor(a / 2, b / 2)
    ensures Xor(a, b) % 2 == (a % 2 + b % 2) % 2
  {
  }

  /** The k-th bit. */
  function Bit(x: nat, k: nat): nat
    decreases k
  {
    if k == 0 then x % 2 else Bit(x / 2, k - 1)
  }

  /** Bit by bit, one and only one. */
  lemma {:induction false} XorIsBitwise(a: nat, b: nat, k: nat)
    ensures Bit(Xor(a, b), k) == if Bit(a, k) == Bit(b, k) then 0 else 1
    decreases k
  {
    XorHalves(a, b);
    if k > 0 {
      XorIsBitwise(a / 2, b / 2, k - 1);
    }
  }

  lemma LargeMultiple(e: int, d: int)
    requires e != 0 && d > 0
    ensures e * d >= d || e * d <= -d
  {
    if e > 0 {
      Product(e - 1, d);
      assert e * d == (e - 1) * d + d;
    } else {
      Product(-e - 1, d);
      assert e * d == -((-e - 1) * d) - d;
    }
  }

  lemma Product(a: int, b: int)
    requires a >= 0 && b >= 0
    ensures a * b >= 0
  {
  }

  lemma SmallMultiple(e: int, d: int)
    requires -d < e * d < d
    ensures e == 0
  {
    if e != 0 {
      LargeMultiple(e, d);
    }
  }

  /** Quotients are determined by their division equation. */
  lemma QuotientIs(a: int, d: int, q: int, r: int)
    requires 0 <= r < d && a == q * d + r
    ensures a / d == q && a % d == r
  {
    var e := q - a / d;
    assert a == (a / d) * d + a % d;
    assert e * d == q * d - (a / d) * d;
    SmallMultiple(e, d);
  }

  lemma HalfOfQuotient(z: nat, p: nat)
    requires p > 0
    ensures (z / p) / 2 == (z / 2) / p
    ensures z / (2 * p) == (z / 2) / p
  {
    var h, s := z / (2 * p), z % (2 * p);
    assert z == h * (2 * p) + s;
    assert z == (2 * h) * p + s && z == 2 * (h * p) + s;
    assert z / 2 == h * p + s / 2;
    QuotientIs(z / 2, p, h, s / 2);
    if s < p {
      QuotientIs(z, p, 2 * h, s);
    } else {
      assert z == (2 * h + 1) * p + (s - p);
      QuotientIs(z, p, 2 * h + 1, s - p);
    }
  }

  /** A number is determined by its exclusive or with itself shifted right: bits follow from the top down. */
  lemma {:induction false} XorShiftInjective(z: nat, w: nat, p: nat)
    requires p > 0 && XorShift(z, 2 * p) == XorShift(w, 2 * p)
    ensures z == w
    decreases z + w
  {
    if z != 0 || w != 0 {
      XorShiftHalf(z, p);
      XorShiftHalf(w, p);
      XorShiftInjective(z / 2, w / 2, p);
      HalfOfQuotient(z, p);
      HalfOfQuotient(w, p);
      SameParity(z % 2, w % 2, z / (2 * p) % 2);
    }
  }

  lemma SameParity(a: nat, b: nat, c: nat)
    requires a < 2 && b < 2 && c < 2 && (a + c) % 2 == (b + c) % 2
    ensures a == b
  {
  }

  lemma XorShiftHalf(z: nat, p: nat)
    requires p > 0
    ensures XorShift(z, 2 * p) / 2 == XorShift(z / 2, 2 * p)
    ensures XorShift(z, 2 * p) % 2 == (z % 2 + z / (2 * p) % 2) % 2
  {
    XorHalves(z, z / (2 * p));
    HalfOfQuotient(z, 2 * p);
  }

  function Pow2(k: nat): nat
  {
    if k == 0 then 1 else 2 * Pow2(k - 1)
  }

  lemma {:induction false} XorBound(a: nat, b: nat, k: nat)
    requires a < Pow2(k) && b < Pow2(k)
    ensures Xor(a, b) < Pow2(k)
    decreases k
  {
    if k > 0 {
      XorBound(a / 2, b / 2, k - 1);
    }
  }

  lemma Doubled(a: nat, b: nat)
    ensures (2 * a) * b == 2 * (a * b)
  {
  }

  lemma {:induction false} Pow2Sum(j: nat, k: nat)
    ensures Pow2(j + k) == Pow2(j) * Pow2(k)
  {
    if j > 0 {
      Pow2Sum(j - 1, k);
      Doubled(Pow2(j - 1), Pow2(k));
    }
  }

  lemma WordsArePow2() returns (k: nat)
    ensures Pow2(k) == WORDS
  {
    k := 64;
    Pow2Sum(8, 8);
    Pow2Sum(16, 16);
    Pow2Sum(32, 32);
  }

  lemma QuotientIsSmaller(z: nat, p: nat)
    requires p > 0
    ensures z / p <= z
  {
    Product(z / p, p - 1);
    assert z == (z / p) * p + z % p;
    assert (z / p) * p == (z / p) * (p - 1) + z / p;
  }

  lemma XorShiftIsWord(z: nat, p: nat)
    requires IsWord(z) && p > 0
    ensures IsWord(XorShift(z, p))
  {
    var k := WordsArePow2();
    QuotientIsSmaller(z, p);
    XorBound(z, z / p, k);
  }

  /** Multiplication by a unit modulo 2^64 can be undone. */
  lemma TimesUndone(a: nat, c: nat, inverse: nat, carry: nat)
    requires IsWord(a) && c * inverse == carry * WORDS + 1
    ensures Times(Times(a, c), inverse) == a
  {
    var q, r := a * c / WORDS, a * c % WORDS;
    assert a * c == q * WORDS + r;
    assert a * (c * inverse) == (a * c) * inverse;
    assert a * (carry * WORDS + 1) == (a * carry) * WORDS + a;
    assert (q * WORDS + r) * inverse == (q * inverse) * WORDS + r * inverse;
    var k := a * carry - q * inverse;
    assert r * inverse == k * WORDS + a;
    ModuloIs(r * inverse, k, a);
  }

  lemma ModuloIs(x: int, k: int, a: int)
    requires x == k * WORDS + a && IsWord(a)
    ensures x % WORDS == a
  {
  }

  lemma TimesInjective(a: nat, b: nat, c: nat, inverse: nat, carry: nat)
    requires IsWord(a) && IsWord(b) && c * inverse == carry * WORDS + 1
    requires Times(a, c) == Times(b, c)
    ensures a == b
  {
    TimesUndone(a, c, inverse, carry);
    TimesUndone(b, c, inverse, carry);
  }

  // ------------------------------------------------------------------- words and states

  /** Everything Mix computes on the way is a word. */
  lemma MixIsWord(z: nat)
    requires IsWord(z)
    ensures IsWord(Mix(z))
  {
    XorShiftIsWord(Round2(Round1(z)), P31);
  }

  lemma MixInjective(z: nat, w: nat)
    requires IsWord(z) && IsWord(w) && Mix(z) == Mix(w)
    ensures z == w
  {
    XorShiftInjective(Round2(Round1(z)), Round2(Round1(w)), P31 / 2);
    Round2Injective(Round1(z), Round1(w));
    Round1Injective(z, w);
  }

  lemma Round1Injective(z: nat, w: nat)
    requires IsWord(z) && IsWord(w) && Round1(z) == Round1(w)
    ensures z == w
  {
    StageInjective(z, w, P30 / 2, M1, M1_INVERSE, 8125545580553827436);
  }

  lemma Round2Injective(z: nat, w: nat)
    requires IsWord(z) && IsWord(w) && Round2(z) == Round2(w)
    ensures z == w
  {
    StageInjective(z, w, P27 / 2, M2, M2_INVERSE, 2077064247507883091);
  }

  /** One round of the finalizer loses nothing. */
  lemma StageInjective(z: nat, w: nat, half: nat, c: nat, inverse: nat, carry: nat)
    requires IsWord(z) && IsWord(w) && half > 0 && c * inverse == carry * WORDS + 1
    requires Times(XorShift(z, 2 * half), c) == Times(XorShift(w, 2 * half), c)
    ensures z == w
  {
    XorShiftIsWord(z, 2 * half);
    XorShiftIsWord(w, 2 * half);
    TimesInjective(XorShift(z, 2 * half), XorShift(w, 2 * half), c, inverse, carry);
    XorShiftInjective(z, w, half);
  }

  function Below(n: nat): (s: set<nat>)
    ensures forall x: nat :: x in s <==> x < n
  {
    set x: nat {:trigger IsWord(x)} | x < n
  }

  lemma {:induction false} BelowSize(n: nat)
    ensures |Below(n)| == n
  {
    if n > 0 {
      BelowSize(n - 1);
      assert Below(n) == Below(n - 1) + {n - 1};
    } else {
      assert Below(0) == {};
    }
  }

  function Image(f: nat -> nat, n: nat): set<nat>
  {
    set z | z in Below(n) :: f(z)
  }

  /** A function that is injective on the numbers below n has n values there. */
  lemma {:induction false} ImageSize(f: nat -> nat, n: nat)
    requires forall i, j :: 0 <= i < j < n ==> f(i) != f(j)
    ensures |Image(f, n)| == n
  {
    if n == 0 {
      assert Image(f, 0) == {};
    } else {
      ImageSize(f, n - 1);
      ImageGrows(f, n - 1);
    }
  }

  lemma ImageGrows(f: nat -> nat, n: nat)
    requires forall i :: 0 <= i < n ==> f(i) != f(n)
    ensures Image(f, n + 1) == Image(f, n) + {f(n)} && f(n) !in Image(f, n)
  {
    forall y | y in Image(f, n) + {f(n)} ensures y in Image(f, n + 1) {
      if y == f(n) {
        assert n in Below(n + 1);
      } else {
        var z :| z in Below(n) && f(z) == y;
        assert z in Below(n + 1);
      }
    }
    forall y | y in Image(f, n + 1) ensures y in Image(f, n) + {f(n)} {
      var z :| z in Below(n + 1) && f(z) == y;
      assert z == n || z in Below(n);
    }
  }

  lemma SubsetOfSameSize<T>(a: set<T>, b: set<T>)
    requires a <= b && |a| == |b|
    ensures a == b
  {
    if x :| x in b && x !in a {
      assert a <= b - {x};
      SubsetSize(a, b - {x});
    }
  }

  lemma {:induction false} SubsetSize<T>(a: set<T>, b: set<T>)
    requires a <= b
    ensures |a| <= |b|
    decreases |a|
  {
    if a != {} {
      var x :| x in a;
      SubsetSize(a - {x}, b - {x});
    }
  }

  lemma ImageIsAllWords()
    ensures Image(Mix, WORDS) == Below(WORDS)
  {
    forall i, j | 0 <= i < j < WORDS ensures Mix(i) != Mix(j) {
      if Mix(i) == Mix(j) {
        MixInjective(i, j);
      }
    }
    ImageSize(Mix, WORDS);
    BelowSize(WORDS);
    forall y | y in Image(Mix, WORDS) ensures y in Below(WORDS) {
      var z :| z in Below(WORDS) && Mix(z) == y;
      MixIsWord(z);
    }
    SubsetOfSameSize(Image(Mix, WORDS), Below(WORDS));
  }

  predicate Preimage(z: nat, x: nat)
  {
    IsWord(z) && Mix(z) == x
  }

  /** The finalizer is a bijection on words: each word is the output of exactly one state. */
  lemma MixIsBijection(x: nat)
    requires IsWord(x)
    ensures exists z :: Preimage(z, x)
    ensures forall z, w :: Preimage(z, x) && Preimage(w, x) ==> z == w
  {
    ImageIsAllWords();
    assert x in Image(Mix, WORDS);
    var z :| z in Below(WORDS) && Mix(z) == x;
    assert Preimage(z, x);
    forall z, w | Preimage(z, x) && Preimage(w, x) ensures z == w {
      MixInjective(z, w);
    }
  }

  // ------------------------------------------------------------------------ draws

  /** The state after i draws. */
  function State(s: nat, i: nat): nat
  {
    (s + i * GAMMA) % WORDS
  }

  /** The i-th output, counted from zero. */
  function Draw(s: nat, i: nat): nat
  {
    Mix(State(s, i + 1))
  }

  /** One draw, with the constants of the published generator. */
  lemma NextWord(s: nat)
    requires IsWord(s)
    ensures State(s, 1) == (s + 0x9e37_79b9_7f4a_7c15) % 0x1_0000_0000_0000_0000
    ensures var z := State(s, 1);
      var z0 := Xor(z, z / 0x4000_0000) * 0xbf58_476d_1ce4_e5b9 % 0x1_0000_0000_0000_0000;
      var z1 := Xor(z0, z0 / 0x800_0000) * 0x94d0_49bb_1331_11eb % 0x1_0000_0000_0000_0000;
      Draw(s, 0) == Xor(z1, z1 / 0x8000_0000)
  {
    hide Xor;
  }

  lemma StateStep(s: nat, i: nat)
    ensures State(s, i + 1) == (State(s, i) + GAMMA) % WORDS
    ensures IsWord(s) ==> State(s, 0) == s
    ensures IsWord(State(s, i))
  {
    assert s + (i + 1) * GAMMA == s + i * GAMMA + GAMMA;
    AddModulo(s + i * GAMMA, GAMMA);
  }

  lemma AddModulo(a: nat, g: nat)
    ensures (a + g) % WORDS == (a % WORDS + g) % WORDS
  {
  }

  lemma StatesDistinct(s: nat, i: nat, j: nat)
    requires i < j && j - i < WORDS
    ensures State(s, i) != State(s, j)
  {
    if State(s, i) == State(s, j) {
      var d := j - i;
      var x, y := s + i * GAMMA, s + j * GAMMA;
      assert y - x == d * GAMMA;
      var k := y / WORDS - x / WORDS;
      assert d * GAMMA == k * WORDS;
      ModuloIs(d * GAMMA, k, 0);
      TimesUndone(d, GAMMA, GAMMA_INVERSE, 10771413168148108919);
      assert false;
    }
  }

  lemma DrawsDistinct(s: nat, i: nat, j: nat)
    requires i < j && j - i < WORDS
    ensures Draw(s, i) != Draw(s, j)
  {
    StateStep(s, i + 1);
    StateStep(s, j + 1);
    if Draw(s, i) == Draw(s, j) {
      MixInjective(State(s, i + 1), State(s, j + 1));
      StatesDistinct(s, i + 1, j + 1);
    }
  }

  // -------------------------------------------------------------------- rejection sampling

  /** uint64(-size) % size. */
  function Limit(n: nat): (r: nat)
    requires 1 <= n <= WORDS
    ensures r < n && r == WORDS % n
  {
    NegatedModulo(n);
    (WORDS - n) % n
  }

  lemma NegatedModulo(n: nat)
    requires 1 <= n <= WORDS
    ensures (WORDS - n) % n == WORDS % n
  {
    var q, r := WORDS / n, WORDS % n;
    assert WORDS == q * n + r;
    assert WORDS - n == (q - 1) * n + r;
    QuotientIs(WORDS - n, n, q - 1, r);
  }

  predicate Rejected(s: nat, n: nat, i: nat)
    requires 1 <= n <= WORDS
  {
    Draw(s, i) < Limit(n)
  }

  ghost predicate AllRejected(s: nat, n: nat, k: nat)
    requires 1 <= n <= WORDS
  {
    forall i :: 0 <= i < k ==> Rejected(s, n, i)
  }

  /** Distinct outputs cannot be rejected more often than there are rejected words. */
  lemma FewRejections(s: nat, n: nat, k: nat)
    requires 1 <= n <= WORDS && k <= WORDS
    requires AllRejected(s, n, k)
    ensures k <= Limit(n)
  {
    var f := (i: nat) => Draw(s, i);
    forall i, j | 0 <= i < j < k ensures f(i) != f(j) {
      DrawsDistinct(s, i, j);
    }
    ImageSize(f, k);
    BelowSize(Limit(n));
    forall x | x in Image(f, k) ensures x in Below(Limit(n)) {
      var i :| i in Below(k) && f(i) == x;
      assert Rejected(s, n, i);
    }
    SubsetSize(Image(f, k), Below(Limit(n)));
  }

  /** The first accepted draw, searching from the k-th. */
  function AcceptedFrom(s: nat, n: nat, k: nat): (i: nat)
    requires 1 <= n <= WORDS && k <= Limit(n)
    requires AllRejected(s, n, k)
    ensures k <= i <= Limit(n) && !Rejected(s, n, i)
    ensures AllRejected(s, n, i)
    decreases Limit(n) - k
  {
    if !Rejected(s, n, k) then k
    else
      FewRejections(s, n, k + 1);
      AcceptedFrom(s, n, k + 1)
  }

  /** How many draws an index consumes, less one: always fewer than there are indices. */
  function Accepted(s: nat, n: nat): (i: nat)
    requires 1 <= n <= WORDS
    ensures i <= Limit(n) < n && !Rejected(s, n, i)
  {
    AcceptedFrom(s, n, 0)
  }

  function IndexOf(s: nat, n: nat): (r: nat)
    requires 1 <= n <= WORDS
    ensures r < n
  {
    Draw(s, Accepted(s, n)) % n
  }

  function StateAfterIndex(s: nat, n: nat): (r: nat)
    requires 1 <= n <= WORDS
    ensures IsWord(r)
  {
    State(s, Accepted(s, n) + 1)
  }

  class Random {
    var state: nat

    ghost predicate Valid()
      reads this
    {
      IsWord(state)
    }

    constructor (seed: nat)
      requires IsWord(seed)
      ensures Valid() && state == seed
    {
      state := seed;
    }

    method Next() returns (x: nat)
      requires Valid()
      modifies this
      ensures Valid() && state == State(old(state), 1) && x == Draw(old(state), 0)
    {
      state := (state + GAMMA) % WORDS;
      var z := state;
      z := Times(Xor(z, z / P30), M1);
      z := Times(Xor(z, z / P27), M2);
      x := Xor(z, z / P31);
    }

    /** Sampling terminates: the loop draws at most Limit(n) + 1 <= n words. */
    method Index(n: nat) returns (r: nat)
      requires Valid() && 1 <= n <= WORDS
      modifies this
      ensures Valid() && r == IndexOf(old(state), n) && state == StateAfterIndex(old(state), n)
    {
      var limit := (WORDS - n) % n;
      ghost var s, draws := state, 0;
      StateStep(s, 0);
      while true
        invariant Valid() && state == State(s, draws) && limit == Limit(n) && draws <= Limit(n)
        invariant AllRejected(s, n, draws)
        decreases Limit(n) - draws
      {
        StateStep(s, draws);
        var x := Next();
        assert x == Draw(s, draws);
        draws := draws + 1;
        if x >= limit {
          FirstIsUnique(s, n, draws - 1);
          return x % n;
        }
        FewRejections(s, n, draws);
      }
    }
  }

  /** An index is the first drawn word that is at least 2^64 mod n, modulo n; the generator stops after that word. */
  lemma IndexMeaning(s: nat, n: nat) returns (j: nat)
    requires 1 <= n <= WORDS
    ensures j < n && (forall i :: 0 <= i < j ==> Draw(s, i) < WORDS % n) && Draw(s, j) >= WORDS % n
    ensures IndexOf(s, n) == Draw(s, j) % n && StateAfterIndex(s, n) == State(s, j + 1)
  {
    hide Draw, State, AcceptedFrom, Limit;
    j := Accepted(s, n);
    assert AllRejected(s, n, j);
    forall i | 0 <= i < j ensures Draw(s, i) < WORDS % n {
      assert Rejected(s, n, i);
    }
  }

  lemma FirstIsUnique(s: nat, n: nat, i: nat)
    requires 1 <= n <= WORDS && !Rejected(s, n, i) && AllRejected(s, n, i)
    ensures Accepted(s, n) == i
  {
    var k := AcceptedFrom(s, n, 0);
  }

  // --------------------------------------------------------------------------- fairness

  /** The words that yield index r. */
  function WordsOf(n: nat, r: nat): set<nat>
    requires 1 <= n <= WORDS
  {
    set x | x in Below(WORDS) && Limit(n) <= x && x % n == r
  }

  function Residues(lo: nat, n: nat, q: nat, r: nat): set<nat>
    requires n >= 1
  {
    set x | x in Below(lo + q * n) && lo <= x && x % n == r
  }

  /** Any q blocks of n consecutive numbers contain each residue q times. */
  lemma {:induction false} ResiduesSize(lo: nat, n: nat, q: nat, r: nat)
    requires r < n
    ensures |Residues(lo, n, q, r)| == q
  {
    if q == 0 {
      assert Residues(lo, n, 0, r) == {};
    } else {
      var start := lo + (q - 1) * n;
      assert lo + q * n == start + n;
      ResiduesSize(lo, n, q - 1, r);
      OneResidue(start, n, r);
      var x := start + (r + n - start % n) % n;
      assert Residues(lo, n, q, r) == Residues(lo, n, q - 1, r) + {x};
    }
  }

  lemma NextWithResidue(start: nat, n: nat, r: nat) returns (x: nat)
    requires r < n
    ensures x == start + (r + n - start % n) % n && start <= x < start + n && x % n == r
  {
    var q, m := start / n, start % n;
    assert start == q * n + m;
    if m <= r {
      QuotientIs(r + n - m, n, 1, r - m);
      x := start + (r - m);
      QuotientIs(x, n, q, r);
    } else {
      QuotientIs(r + n - m, n, 0, r + n - m);
      x := start + (r + n - m);
      assert x == (q + 1) * n + r;
      QuotientIs(x, n, q + 1, r);
    }
  }

  /** A block of n consecutive numbers contains exactly one number with residue r. */
  lemma OneResidue(start: nat, n: nat, r: nat)
    requires r < n
    ensures var x := start + (r + n - start % n) % n;
      start <= x < start + n && x % n == r && forall y :: start <= y < start + n && y % n == r ==> y == x
  {
    var x := NextWithResidue(start, n, r);
    forall y | start <= y < start + n && y % n == r ensures y == x {
      SameResidue(x, y, n);
    }
  }

  lemma SameResidue(x: nat, y: nat, n: nat)
    requires n > 0 && x % n == y % n && x < y + n && y < x + n
    ensures x == y
  {
    assert y == (y / n) * n + y % n && x == (x / n) * n + x % n;
    assert (y / n - x / n) * n == y - x;
    SmallMultiple(y / n - x / n, n);
  }

  /** Every index is the image of exactly 2^64 / n accepted words. */
  lemma IndicesAreFair(n: nat, r: nat)
    requires 1 <= n <= WORDS && r < n
    ensures |WordsOf(n, r)| == WORDS / n
  {
    var q := WORDS / n;
    assert WORDS == q * n + Limit(n);
    ResiduesSize(Limit(n), n, q, r);
    assert WordsOf(n, r) == Residues(Limit(n), n, q, r);
  }
}
