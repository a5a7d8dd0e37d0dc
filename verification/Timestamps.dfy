/**
 RFC3339Nano texts in UTC and their byte order, as SQL compares them in recovery and claim order.
 Section 5.1 of RFC 3339 allows string ordering only for equal numbers of fractional digits; the journal's
 formatter strips trailing zeros. This module states exactly when text order is time order.
 */
module Timestamps {
  import opened Text

  // ------------------------------------------------------------------ civil time

  const NANOS := 1_000_000_000
  const DAY := 86_400

  predicate LeapYear(y: int)
  {
    y % 4 == 0 && (y % 100 != 0 || y % 400 == 0)
  }

  function YearLength(y: int): int
  {
    if LeapYear(y) then 366 else 365
  }

  function MonthLength(y: int, m: int): int
  {
    if m == 2 then (if LeapYear(y) then 29 else 28) else if m == 4 || m == 6 || m == 9 || m == 11 then 30 else 31
  }

  /** The year that contains a day counted from the first of January of year y, and the day within it. */
  function YearOf(day: int, y: int): (r: (int, int))
    requires 0 <= day
    ensures 0 <= r.1
    decreases day
  {
    if day < YearLength(y) then (y, day) else YearOf(day - YearLength(y), y + 1)
  }

  /** The month and day of the month of a day counted from the start of month m; December takes the rest. */
  function MonthOf(day: int, y: int, m: int): (int, int)
    requires 0 <= day && 1 <= m <= 12
    decreases 12 - m
  {
    if m == 12 || day < MonthLength(y, m) then (m, day) else MonthOf(day - MonthLength(y, m), y, m + 1)
  }

  /** Year, month, day, hour, minute and second of a count of seconds from the start of year 0. */
  function Fields(seconds: int): seq<int>
    requires 0 <= seconds
  {
    var (y, yday) := YearOf(seconds / DAY, 0);
    var (m, mday) := MonthOf(yday, y, 1);
    var t := seconds % DAY;
    [y, m, mday + 1, t / 3600, (t % 3600) / 60, t % 60]
  }

  predicate FieldsLE(f: seq<int>, g: seq<int>, k: int)
    requires |f| == |g| == 6 && 0 <= k <= 6
    decreases 6 - k
  {
    k == 6 || f[k] < g[k] || (f[k] == g[k] && FieldsLE(f, g, k + 1))
  }

  lemma {:induction false} YearOrder(a: int, b: int, y: int)
    requires 0 <= a <= b
    ensures var (ya, ra) := YearOf(a, y); var (yb, rb) := YearOf(b, y);
      && y <= ya <= yb && 0 <= ra < YearLength(ya) && 0 <= rb < YearLength(yb)
      && (ya == yb ==> rb - ra == b - a)
    decreases b
  {
    if YearLength(y) <= a {
      YearOrder(a - YearLength(y), b - YearLength(y), y + 1);
    } else if YearLength(y) <= b {
      YearOrder(b - YearLength(y), b - YearLength(y), y + 1);
    }
  }

  lemma {:induction false} MonthOrder(a: int, b: int, y: int, m: int)
    requires 0 <= a <= b && 1 <= m <= 12
    ensures var (ma, ra) := MonthOf(a, y, m); var (mb, rb) := MonthOf(b, y, m);
      && m <= ma <= mb <= 12 && 0 <= ra && 0 <= rb
      && (ma == mb ==> rb - ra == b - a)
      && (ma < 12 ==> ra < MonthLength(y, ma)) && (mb == 12 ==> rb <= b)
    decreases 12 - m
  {
    if m < 12 && MonthLength(y, m) <= a {
      MonthOrder(a - MonthLength(y, m), b - MonthLength(y, m), y, m + 1);
    } else if m < 12 && MonthLength(y, m) <= b {
      MonthOrder(b - MonthLength(y, m), b - MonthLength(y, m), y, m + 1);
    }
  }

  /** December of a real year has at most 31 days. */
  lemma DecemberFits(yday: int, y: int)
    requires 0 <= yday < YearLength(y)
    ensures MonthOf(yday, y, 1).1 < 31
  {
    MonthOrder(yday, yday, y, 1);
    Unroll(yday, y);
  }

  lemma Unroll(d: int, y: int)
    requires 0 <= d < YearLength(y)
    ensures MonthOf(d, y, 1).0 == 12 ==> MonthOf(d, y, 1).1 == d - (YearLength(y) - 31)
  {
    hide LeapYear;
    var f := MonthLength(y, 2);
    assert YearLength(y) == 337 + f;
    if d >= 306 + f {
      assert MonthOf(d, y, 1) == MonthOf(d - 31, y, 2) == MonthOf(d - 31 - f, y, 3) == MonthOf(d - 62 - f, y, 4);
      assert MonthOf(d - 62 - f, y, 4) == MonthOf(d - 92 - f, y, 5) == MonthOf(d - 123 - f, y, 6);
      assert MonthOf(d - 123 - f, y, 6) == MonthOf(d - 153 - f, y, 7) == MonthOf(d - 184 - f, y, 8);
      assert MonthOf(d - 184 - f, y, 8) == MonthOf(d - 215 - f, y, 9) == MonthOf(d - 245 - f, y, 10);
      assert MonthOf(d - 245 - f, y, 10) == MonthOf(d - 276 - f, y, 11) == MonthOf(d - 306 - f, y, 12);
    } else {
      NotDecember(d, y, 1, 306 + f);
    }
  }

  function DaysTo(y: int, m: int): int
    requires 1 <= m <= 12
    decreases 12 - m
  {
    if m == 12 then 0 else MonthLength(y, m) + DaysTo(y, m + 1)
  }

  lemma {:induction false} NotDecember(d: int, y: int, m: int, limit: int)
    requires 0 <= d < limit && 1 <= m <= 12 && (m == 1 ==> limit == 306 + MonthLength(y, 2))
    requires m != 1 ==> limit == DaysTo(y, m)
    ensures MonthOf(d, y, m).0 < 12
    decreases 12 - m
  {
    if m == 1 {
      assert DaysTo(y, 7) == 153;
      assert DaysTo(y, 2) == MonthLength(y, 2) + 31 + 30 + 31 + 30 + DaysTo(y, 7);
    }
    if MonthLength(y, m) <= d {
      NotDecember(d - MonthLength(y, m), y, m + 1, limit - MonthLength(y, m));
    }
  }

  /** Seconds order as their fields do, and differ in them. */
  lemma FieldsOrder(a: int, b: int)
    requires 0 <= a <= b
    ensures FieldsLE(Fields(a), Fields(b), 0)
    ensures Fields(a) == Fields(b) ==> a == b
    ensures ValidFields(Fields(a)) && ValidFields(Fields(b))
  {
    YearOrder(a / DAY, b / DAY, 0);
    var (ya, da) := YearOf(a / DAY, 0);
    var (yb, db) := YearOf(b / DAY, 0);
    DecemberFits(da, ya);
    DecemberFits(db, yb);
    MonthOrder(da, da, ya, 1);
    MonthOrder(db, db, yb, 1);
    if ya == yb {
      MonthOrder(da, db, ya, 1);
    }
    var s, t := a % DAY, b % DAY;
    if a / DAY == b / DAY {
      assert s <= t;
      ClockOrder(s, t);
      assert Fields(a)[..3] == Fields(b)[..3];
    }
    FieldsUnroll(Fields(a), Fields(b));
  }

  predicate ValidFields(f: seq<int>)
  {
    && |f| == 6 && 0 <= f[0] && 1 <= f[1] <= 12 && 1 <= f[2] <= 31
    && 0 <= f[3] < 24 && 0 <= f[4] < 60 && 0 <= f[5] < 60
  }

  lemma HoursOrder(s: int, t: int)
    requires 0 <= s <= t
    ensures s / 3600 <= t / 3600
    ensures s / 3600 == t / 3600 ==> t % 3600 - s % 3600 == t - s
  {
  }

  lemma MinutesOrder(s: int, t: int)
    requires 0 <= s <= t
    ensures s / 60 <= t / 60
    ensures s / 60 == t / 60 ==> t % 60 - s % 60 == t - s
  {
  }

  lemma MinuteOfHour(t: int)
    requires 0 <= t
    ensures t % 3600 % 60 == t % 60
  {
    var h, m := t / 3600, t % 3600 / 60;
    assert t == 60 * (60 * h + m) + t % 3600 % 60;
  }

  lemma ClockOrder(s: int, t: int)
    requires 0 <= s <= t < DAY
    ensures s / 3600 <= t / 3600
    ensures s / 3600 == t / 3600 ==> (s % 3600) / 60 <= (t % 3600) / 60
    ensures s / 3600 == t / 3600 && (s % 3600) / 60 == (t % 3600) / 60 ==> t % 60 - s % 60 == t - s
  {
    HoursOrder(s, t);
    if s / 3600 == t / 3600 {
      MinutesOrder(s % 3600, t % 3600);
      MinuteOfHour(s);
      MinuteOfHour(t);
    }
  }

  lemma FieldsUnroll(f: seq<int>, g: seq<int>)
    requires |f| == |g| == 6
    ensures FieldsLE(f, g, 0) <==>
      (f[0] < g[0] || (f[0] == g[0] && (f[1] < g[1] || (f[1] == g[1] && (f[2] < g[2] || (f[2] == g[2] &&
        (f[3] < g[3] || (f[3] == g[3] && (f[4] < g[4] || (f[4] == g[4] && f[5] <= g[5]))))))))))
  {
    assert FieldsLE(f, g, 5) <==> f[5] <= g[5] by { assert FieldsLE(f, g, 6); }
    assert FieldsLE(f, g, 4) <==> f[4] < g[4] || (f[4] == g[4] && FieldsLE(f, g, 5));
    assert FieldsLE(f, g, 3) <==> f[3] < g[3] || (f[3] == g[3] && FieldsLE(f, g, 4));
    assert FieldsLE(f, g, 2) <==> f[2] < g[2] || (f[2] == g[2] && FieldsLE(f, g, 3));
    assert FieldsLE(f, g, 1) <==> f[1] < g[1] || (f[1] == g[1] && FieldsLE(f, g, 2));
  }

  // ------------------------------------------------------------------------ texts

  function Pow10(w: nat): int
  {
    if w == 0 then 1 else 10 * Pow10(w - 1)
  }

  function Digit(d: int): char
    requires 0 <= d < 10
  {
    '0' + d as char
  }

  /** The decimal digits of n, padded with zeros to the given width. */
  function Digits(n: int, w: nat): (s: string)
    requires 0 <= n < Pow10(w)
    ensures |s| == w
    ensures forall k :: 0 <= k < w ==> '0' <= s[k] <= '9'
  {
    if w == 0 then "" else Digits(n / 10, w - 1) + [Digit(n % 10)]
  }

  function Trim(s: string): (t: string)
    ensures t <= s
    ensures t != "" ==> t[|t| - 1] != '0'
    ensures forall k :: |t| <= k < |s| ==> s[k] == '0'
  {
    if s == "" || s[|s| - 1] != '0' then s else Trim(s[..|s| - 1])
  }

  function Fraction(nanos: int): string
    requires 0 <= nanos < NANOS
  {
    NineDigits();
    if nanos == 0 then "" else "." + Trim(Digits(nanos, 9))
  }

  lemma NineDigits()
    ensures Pow10(9) == NANOS && Pow10(4) == 10_000 && Pow10(2) == 100
  {
    assert Pow10(3) == 1000;
    assert Pow10(6) == 1_000_000;
  }

  function Width(k: int): nat
  {
    if k == 0 then 4 else 2
  }

  function Separator(k: int): string
  {
    if k < 2 then "-" else if k == 2 then "T" else if k < 5 then ":" else ""
  }

  predicate Fits(f: seq<int>)
  {
    |f| == 6 && forall i {:trigger f[i]} :: 0 <= i < 6 ==> 0 <= f[i] < Pow10(Width(i))
  }

  /** The date and time fields from position k on, with their separators. */
  function FieldText(f: seq<int>, k: int): string
    requires Fits(f) && 0 <= k <= 6
    decreases 6 - k
  {
    if k == 6 then "" else Digits(f[k], Width(k)) + Separator(k) + FieldText(f, k + 1)
  }

  /** An instant the formatter renders with a four-digit year. */
  predicate Formattable(t: int)
  {
    0 <= t && Fields(t / NANOS)[0] < 10_000
  }

  lemma FieldsFit(t: int)
    requires Formattable(t)
    ensures Fits(Fields(t / NANOS))
  {
    NineDigits();
    FieldsOrder(t / NANOS, t / NANOS);
  }

  /** time.Time.Format(time.RFC3339Nano) of an instant in UTC. */
  function Format(t: int): string
    requires Formattable(t)
  {
    FieldsFit(t);
    FieldText(Fields(t / NANOS), 0) + Fraction(t % NANOS) + "Z"
  }

  // ------------------------------------------------------------- order of the texts

  /** Texts of equal length order as they do before any suffix. */
  lemma {:induction false} LexFixed(a: string, b: string, x: string, y: string)
    requires |a| == |b| && a != b
    ensures LexLE(a + x, b + y) <==> LexLE(a, b)
    ensures LexLE(a, b) <==> !LexLE(b, a)
  {
    if a[0] == b[0] {
      assert a[1..] != b[1..] by {
        assert a == [a[0]] + a[1..] && b == [b[0]] + b[1..];
      }
      assert (a + x)[1..] == a[1..] + x && (b + y)[1..] == b[1..] + y;
      LexFixed(a[1..], b[1..], x, y);
    }
  }

  lemma DigitInjective(d: int, e: int)
    requires 0 <= d < 10 && 0 <= e < 10
    ensures Digit(d) <= Digit(e) <==> d <= e
    ensures Digit(d) == Digit(e) <==> d == e
  {
  }

  lemma LastCharacter(a: string, c: char, d: char)
    ensures LexLE([c], [d]) <==> c <= d
    ensures a + [c] == a + [d] <==> c == d
  {
    assert [c][1..] == "" && [d][1..] == "";
    assert (a + [c])[|a|] == c && (a + [d])[|a|] == d;
  }

  lemma LastDigitOrder(n: int, m: int)
    requires 0 <= n && 0 <= m && n / 10 == m / 10
    ensures n <= m <==> n % 10 <= m % 10
    ensures n == m <==> n % 10 == m % 10
  {
    assert n == 10 * (n / 10) + n % 10 && m == 10 * (m / 10) + m % 10;
  }

  lemma {:induction false} DigitsOrder(n: int, m: int, w: nat)
    requires 0 <= n < Pow10(w) && 0 <= m < Pow10(w)
    ensures LexLE(Digits(n, w), Digits(m, w)) <==> n <= m
    ensures Digits(n, w) == Digits(m, w) <==> n == m
  {
    if w > 0 {
      var a, b := Digits(n / 10, w - 1), Digits(m / 10, w - 1);
      var x, y := [Digit(n % 10)], [Digit(m % 10)];
      DigitsOrder(n / 10, m / 10, w - 1);
      DigitInjective(n % 10, m % 10);
      if n / 10 == m / 10 {
        LastDigitOrder(n, m);
        LastCharacter(a, Digit(n % 10), Digit(m % 10));
        LexPrefix(a, x, y);
      } else {
        LexFixed(a, b, x, y);
        assert (a + x)[..w - 1] == a && (b + y)[..w - 1] == b;
      }
    }
  }

  /** Fields of equal width order before what follows them. */
  lemma LexField(a: string, b: string, sep: string, u: string, v: string)
    requires |a| == |b| && |u| == |v|
    ensures LexLE(a + sep + u, b + sep + v) <==> if a == b then LexLE(u, v) else LexLE(a, b)
    ensures a + sep + u == b + sep + v <==> a == b && u == v
  {
    assert a + sep + u == a + (sep + u) && b + sep + v == b + (sep + v);
    assert (a + (sep + u))[..|a|] == a && (b + (sep + v))[..|a|] == b;
    assert (a + sep + u)[|a| + |sep|..] == u && (b + sep + v)[|a| + |sep|..] == v;
    if a == b {
      LexPrefix(a, sep + u, sep + v);
      LexPrefix(sep, u, v);
    } else {
      LexFixed(a, b, sep + u, sep + v);
    }
  }

  lemma {:induction false} FieldTextOrder(f: seq<int>, g: seq<int>, k: int)
    requires Fits(f) && Fits(g) && 0 <= k <= 6
    ensures |FieldText(f, k)| == |FieldText(g, k)|
    ensures LexLE(FieldText(f, k), FieldText(g, k)) <==> FieldsLE(f, g, k)
    ensures FieldText(f, k) == FieldText(g, k) <==> FieldsLE(f, g, k) && FieldsLE(g, f, k)
    decreases 6 - k
  {
    if k < 6 {
      FieldTextOrder(f, g, k + 1);
      DigitsOrder(f[k], g[k], Width(k));
      LexField(Digits(f[k], Width(k)), Digits(g[k], Width(k)), Separator(k),
               FieldText(f, k + 1), FieldText(g, k + 1));
    }
  }

  predicate ProperPrefix(a: string, b: string)
  {
    a <= b && a != b
  }

  /** Texts of which neither continues the other order by their first difference. */
  lemma {:induction false} LexApart(a: string, b: string, x: string, y: string)
    requires !(a <= b) && !(b <= a)
    ensures LexLE(a + x, b + y) <==> LexLE(a, b)
  {
    assert a[0] == b[0] ==> !(a[1..] <= b[1..]) && !(b[1..] <= a[1..]) by {
      assert a == [a[0]] + a[1..] && b == [b[0]] + b[1..];
    }
    assert (a + x)[1..] == a[1..] + x && (b + y)[1..] == b[1..] + y;
    if a[0] == b[0] {
      LexApart(a[1..], b[1..], x, y);
    }
  }

  /** A fraction that another one continues is the smaller number and the larger text. */
  lemma ContinuedFraction(m: int, n: int)
    requires 0 <= m < NANOS && 0 <= n < NANOS && ProperPrefix(Fraction(m), Fraction(n))
    ensures m < n
    ensures !LexLE(Fraction(m) + "Z", Fraction(n) + "Z") && LexLE(Fraction(n) + "Z", Fraction(m) + "Z")
  {
    NineDigits();
    var f, g := Fraction(m), Fraction(n);
    var rest := g[|f|..];
    assert g == f + rest && g + "Z" == f + (rest + "Z");
    assert rest[0] < 'Z' by {
      assert rest[0] == g[|f|];
    }
    LexDiffer(f, "Z", rest + "Z");
    LexDiffer(f, rest + "Z", "Z");
    if m != 0 {
      var dm, dn := Digits(m, 9), Digits(n, 9);
      var tm, tn := Trim(dm), Trim(dn);
      assert f[1..] == tm && g[1..] == tn;
      assert tm <= tn;
      forall k | 0 <= k < 9 ensures dm[k] <= dn[k] {
      }
      LexPointwise(dm, dn);
      DigitsOrder(m, n, 9);
      if m == n {
        assert false;
      }
    }
  }

  lemma {:induction false} LexPointwise(a: string, b: string)
    requires |a| == |b| && forall k :: 0 <= k < |a| ==> a[k] <= b[k]
    ensures LexLE(a, b)
  {
    if a != "" {
      assert forall k :: 0 <= k < |a| - 1 ==> a[1..][k] == a[k + 1] && b[1..][k] == b[k + 1];
      LexPointwise(a[1..], b[1..]);
    }
  }

  /** Within one second, text order is time order except between fractions of which one continues the other. */
  lemma FractionOrder(m: int, n: int)
    requires 0 <= m < NANOS && 0 <= n < NANOS
    ensures LexLE(Fraction(m) + "Z", Fraction(n) + "Z") <==>
      (m <= n && !ProperPrefix(Fraction(m), Fraction(n))) || ProperPrefix(Fraction(n), Fraction(m))
  {
    hide Fraction, LexLE;
    var f, g := Fraction(m), Fraction(n);
    if ProperPrefix(f, g) {
      ContinuedFraction(m, n);
    } else if ProperPrefix(g, f) {
      ContinuedFraction(n, m);
    } else if f == g {
      LexReflexive(f + "Z");
      EqualFractions(m, n);
    } else {
      ApartFractions(m, n);
    }
  }

  /** Fractions of which neither continues the other order as their digits, and so as their numbers. */
  lemma ApartFractions(m: int, n: int)
    requires 0 <= m < NANOS && 0 <= n < NANOS && !(Fraction(m) <= Fraction(n)) && !(Fraction(n) <= Fraction(m))
    ensures LexLE(Fraction(m) + "Z", Fraction(n) + "Z") <==> m <= n
  {
    NineDigits();
    hide Digits, Trim, LexLE, Pow10;
    var f, g := Fraction(m), Fraction(n);
    var dm, dn := Digits(m, 9), Digits(n, 9);
    var tm, tn := Trim(dm), Trim(dn);
    LexApart(f, g, "Z", "Z");
    LexPrefix(".", tm, tn);
    assert !(tm <= tn) && !(tn <= tm) by {
      assert tm <= tn ==> "." + tm <= "." + tn;
      assert tn <= tm ==> "." + tn <= "." + tm;
    }
    LexApart(tm, tn, dm[|tm|..], dn[|tn|..]);
    assert dm == tm + dm[|tm|..] && dn == tn + dn[|tn|..];
    DigitsOrder(m, n, 9);
  }

  lemma EqualFractions(m: int, n: int)
    requires 0 <= m < NANOS && 0 <= n < NANOS && Fraction(m) == Fraction(n)
    ensures m == n
  {
    NineDigits();
    if m != 0 {
      var dm, dn := Digits(m, 9), Digits(n, 9);
      assert Fraction(m)[1..] == Trim(dm) && Fraction(n)[1..] == Trim(dn);
      assert dm == dn;
      DigitsOrder(m, n, 9);
    }
  }

  predicate SameSecond(a: int, b: int)
  {
    a / NANOS == b / NANOS
  }

  /** The texts of these two instants order against time when a comes first. */
  predicate Inverted(a: int, b: int)
    requires Formattable(a) && Formattable(b)
  {
    SameSecond(a, b) && ProperPrefix(Fraction(a % NANOS), Fraction(b % NANOS))
  }

  /** Whole seconds order as the texts of their fields do. */
  lemma SecondsOrder(s: int, t: int)
    requires 0 <= s && 0 <= t && Fits(Fields(s)) && Fits(Fields(t))
    ensures var f, g := FieldText(Fields(s), 0), FieldText(Fields(t), 0);
      |f| == |g| && (LexLE(f, g) <==> s <= t) && (f == g <==> s == t)
  {
    hide Fields, FieldText, LexLE;
    var f, g := Fields(s), Fields(t);
    FieldTextOrder(f, g, 0);
    FieldsUnroll(f, g);
    FieldsUnroll(g, f);
    if s <= t {
      FieldsOrder(s, t);
    } else {
      FieldsOrder(t, s);
    }
  }

  lemma SecondThenFraction(a: int)
    requires Formattable(a)
    ensures Fits(Fields(a / NANOS)) && 0 <= a / NANOS && 0 <= a % NANOS < NANOS
    ensures Format(a) == FieldText(Fields(a / NANOS), 0) + (Fraction(a % NANOS) + "Z")
  {
    hide Fields, FieldText, Fraction;
    FieldsFit(a);
  }

  lemma TimeBySeconds(a: int, b: int)
    ensures a / NANOS < b / NANOS ==> a < b
    ensures a / NANOS == b / NANOS ==> (a <= b <==> a % NANOS <= b % NANOS)
  {
  }

  /** Text order is time order, except exactly within one second when one fraction continues the other. */
  lemma TextOrderIsTimeOrderExcept(a: int, b: int)
    requires Formattable(a) && Formattable(b)
    ensures LexLE(Format(a), Format(b)) <==> (a <= b && !Inverted(a, b)) || Inverted(b, a)
  {
    SecondThenFraction(a);
    SecondThenFraction(b);
    TimeBySeconds(a, b);
    TimeBySeconds(b, a);
    hide Fields, FieldText, Fraction, LexLE, Format;
    var f, g := FieldText(Fields(a / NANOS), 0), FieldText(Fields(b / NANOS), 0);
    var x, y := Fraction(a % NANOS) + "Z", Fraction(b % NANOS) + "Z";
    SecondsOrder(a / NANOS, b / NANOS);
    if a / NANOS == b / NANOS {
      LexPrefix(f, x, y);
      FractionOrder(a % NANOS, b % NANOS);
    } else {
      LexFixed(f, g, x, y);
    }
  }

  /**
   The error of recovery's text comparison is below one second: a selected lease ends no later than the second
   of the clock reading, and a lease left out although it has ended lies in that same second.
   */
  lemma ExpiryErrorBelowOneSecond(lease: int, now: int)
    requires Formattable(lease) && Formattable(now)
    ensures LexLE(Format(lease), Format(now)) ==> lease / NANOS <= now / NANOS && lease - now < NANOS
    ensures !LexLE(Format(lease), Format(now)) && lease <= now ==> SameSecond(lease, now)
  {
    TextOrderIsTimeOrderExcept(lease, now);
  }

  /** The error is real: half past a second is, as text, not after the whole second that precedes it. */
  lemma ExpiryErrorHappens()
    ensures Formattable(0) && Formattable(500_000_000)
    ensures 0 < 500_000_000 && !LexLE(Format(0), Format(500_000_000)) && LexLE(Format(500_000_000), Format(0))
  {
    assert Fields(0)[0] == 0;
    NineDigits();
    assert Fraction(0) == "" && Fraction(500_000_000)[0] == '.';
    assert Inverted(0, 500_000_000);
    TextOrderIsTimeOrderExcept(0, 500_000_000);
    TextOrderIsTimeOrderExcept(500_000_000, 0);
  }
}
