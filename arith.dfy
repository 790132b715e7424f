/** Integer and rational arithmetic that the scripts take from Sage:
    `gcd`, `QQ((n, d))`, `RealNumber.round()`, `isqrt`, `valuation(2)`,
    primality, `prime_range` and `support`. */
module Arith {
  import opened Wrappers

  function Abs(x: int): nat { if x < 0 then -x else x }

  /** Non-negative gcd, as Sage's `Integer.gcd` returns it. */
  function Gcd(a: nat, b: nat): nat
    decreases b
  {
    if b == 0 then a else Gcd(b, a % b)
  }

  lemma MulSubDistrib(a: int, b: int, m: int)
    ensures (a - b) * m == a * m - b * m
  {
  }

  lemma MulAtLeast(a: int, m: int)
    requires a >= 1 && m > 0
    ensures a * m >= m
  {
  }

  lemma DivModUnique(x: int, m: int, q: int, r: int)
    requires m > 0 && x == q * m + r && 0 <= r < m
    ensures x / m == q && x % m == r
  {
    var q', r' := x / m, x % m;
    assert x == q' * m + r' && 0 <= r' < m;
    MulSubDistrib(q, q', m);
    MulSubDistrib(q', q, m);
    if q > q' {
      MulAtLeast(q - q', m);
    } else if q < q' {
      MulAtLeast(q' - q, m);
    }
  }

  lemma ScaleSum(k: int, q: int, b: int, r: int)
    ensures k * (q * b + r) == q * (k * b) + k * r
  {
  }

  lemma MulLess(k: int, r: int, b: int)
    requires k > 0 && r < b
    ensures k * r < k * b
  {
  }

  lemma ModScale(k: nat, a: nat, b: nat)
    requires k > 0 && b > 0
    ensures (k * a) % (k * b) == k * (a % b)
  {
    var q, r := a / b, a % b;
    assert a == q * b + r;
    ScaleSum(k, q, b, r);
    MulLess(k, r, b);
    assert 0 <= k * r;
    DivModUnique(k * a, k * b, q, k * r);
  }

  /** gcd(k a, k b) = k gcd(a, b). */
  lemma {:induction false} GcdScale(k: nat, a: nat, b: nat)
    requires k > 0
    ensures Gcd(k * a, k * b) == k * Gcd(a, b)
    decreases b
  {
    if b != 0 {
      ModScale(k, a, b);
      GcdScale(k, b, a % b);
    }
  }

  lemma LinComb(q: int, kb: int, kr: int, g: int)
    ensures q * (kb * g) + kr * g == (q * kb + kr) * g
  {
  }

  /** The gcd divides both arguments. */
  lemma {:induction false} GcdDivides(a: nat, b: nat)
    requires a > 0 || b > 0
    ensures Gcd(a, b) > 0 && a % Gcd(a, b) == 0 && b % Gcd(a, b) == 0
    decreases b
  {
    if b != 0 {
      GcdDivides(b, a % b);
      DividesDividend(a, b, Gcd(b, a % b));
    }
  }

  lemma DivExact(x: int, m: int)
    requires m > 0 && x % m == 0
    ensures x == (x / m) * m
  {
  }

  /** A common divisor of b and a % b divides a. */
  lemma DividesDividend(a: nat, b: nat, g: int)
    requires b > 0 && g > 0 && b % g == 0 && (a % b) % g == 0
    ensures a % g == 0
  {
    var q, r := a / b, a % b;
    assert a == q * b + r;
    DivExact(b, g);
    DivExact(r, g);
    var kb, kr := b / g, r / g;
    LinComb(q, kb, kr, g);
    DivModUnique(a, g, q * kb + kr, 0);
  }

  lemma GcdOne(a: nat)
    ensures Gcd(a, 1) == 1 && Gcd(1, a) == 1
  {
    assert Gcd(a, 1) == Gcd(1, 0);
    if a > 0 {
      assert Gcd(1, a) == Gcd(a, 1 % a);
      if a == 1 { } else { assert 1 % a == 1; }
    }
  }

  /** A rational number as `num/den`. */
  datatype Rat = Rat(num: int, den: int)

  /** The normal form Sage keeps: positive denominator, coprime parts. */
  predicate Normalized(q: Rat) { q.den > 0 && Gcd(Abs(q.num), q.den) == 1 }

  function FromInt(n: int): (q: Rat)
    ensures Normalized(q) && q.num == n && q.den == 1
  {
    GcdOne(Abs(n));
    Rat(n, 1)
  }

  /** Sage `QQ((n, d))` (and `n/d` on integers): the normalised
      fraction, or ZeroDivisionError when d = 0. */
  function MakeRat(n: int, d: int): (r: Result<Rat>)
    ensures d == 0 <==> r.Err?
    ensures r.Ok? ==> Normalized(r.value) && r.value.num * d == n * r.value.den
  {
    if d == 0 then Err(ZeroDivisionError)
    else
      var g := Gcd(Abs(n), Abs(d));
      GcdDivides(Abs(n), Abs(d));
      var a, b := Abs(n) / g, Abs(d) / g;
      MakeRatFacts(n, d, g, a, b);
      Ok(Rat(if (n < 0) != (d < 0) then -a else a, b))
  }

  lemma MakeRatFacts(n: int, d: int, g: nat, a: int, b: int)
    requires d != 0 && g == Gcd(Abs(n), Abs(d)) && g > 0
    requires Abs(n) % g == 0 && Abs(d) % g == 0
    requires a == Abs(n) / g && b == Abs(d) / g
    ensures a >= 0 && b > 0 && Gcd(a, b) == 1
    ensures (if (n < 0) != (d < 0) then -a else a) * d == n * b
  {
    DivExact(Abs(n), g);
    DivExact(Abs(d), g);
    PosFactor(a, g, Abs(n));
    PosFactor(b, g, Abs(d));
    GcdScale(g, a, b);
    Comm2(a, g);
    Comm2(b, g);
    GcdCancel(g, Gcd(a, b));
    Comm3(a, b, g);
    SignCross(n, d, a, b);
  }

  lemma Comm2(a: int, g: int)
    ensures a * g == g * a
  {
  }

  /** A factorisation x = a*g with g > 0 of x >= 0 (x > 0) has a >= 0 (a > 0). */
  lemma PosFactor(a: int, g: int, x: int)
    requires g > 0 && x == a * g && x >= 0
    ensures a >= 0 && (x > 0 ==> a > 0)
  {
    if a < 0 {
      MulAtLeast(-a, g);
      NegMul(a, g);
    }
  }

  lemma GcdCancel(g: int, x: int)
    requires g > 0 && x >= 0 && g == g * x
    ensures x == 1
  {
    if x == 0 {
    } else if x > 1 {
      MulAtLeast(x - 1, g);
      MulSubDistrib(x, 1, g);
      Comm2(x, g);
    }
  }

  lemma SignCross(n: int, d: int, a: int, b: int)
    requires a * Abs(d) == Abs(n) * b
    ensures (if (n < 0) != (d < 0) then -a else a) * d == n * b
  {
    NegMul(a, d);
    NegMul(n, b);
  }

  lemma Comm3(a: int, b: int, g: int)
    ensures a * (b * g) == (a * g) * b
  {
  }

  lemma NegMul(r: int, d: int)
    ensures r * (-d) == -(r * d) && (-r) * d == -(r * d)
  {
  }

  /** `MakeRat` applied to a normalised fraction scaled by k > 0
      gives the fraction back: Sage's `a/c` recovers `x` from
      `a = c*x`. */
  lemma MakeRatScaled(q: Rat, k: int)
    requires Normalized(q) && k > 0
    ensures MakeRat(k * q.num, k * q.den) == Ok(q)
  {
    GcdScale(k, Abs(q.num), q.den);
    NegMul(k, q.num);
    assert Abs(k * q.num) == k * Abs(q.num);
    MulAtLeast(q.den, k);
    assert k * q.den > 0;
    assert Gcd(Abs(k * q.num), Abs(k * q.den)) == k;
    DivModUnique(k * Abs(q.num), k, Abs(q.num), 0);
    DivModUnique(k * q.den, k, q.den, 0);
  }

  /** r is n/d rounded to the nearest integer, halves away from zero. */
  predicate IsRounding(n: int, d: int, r: int)
  {
    2 * Abs(n - r * d) <= Abs(d) && (2 * Abs(n - r * d) == Abs(d) ==> Abs(r * d) > Abs(n))
  }

  /** Sage `RealNumber.round()` of the exact quotient n/d: the nearest
      integer, halves rounded away from zero. */
  function RoundDiv(n: int, d: int): (r: int)
    requires d != 0
    ensures IsRounding(n, d, r)
  {
    if d < 0 then
      var r := RoundNonzero(-n, -d);
      RoundFlipDen(n, d, r);
      r
    else RoundNonzero(n, d)
  }

  function RoundNonzero(n: int, d: int): (r: int)
    requires d > 0
    ensures IsRounding(n, d, r)
  {
    if n >= 0 then RoundNonneg(n, d)
    else
      var r := RoundNonneg(-n, d);
      RoundFlipNum(n, d, r);
      -r
  }

  /** Rounding of n/d for n >= 0 < d. */
  function RoundNonneg(n: nat, d: int): (r: int)
    requires d > 0
    ensures IsRounding(n, d, r)
  {
    var r := (2 * n + d) / (2 * d);
    var m := (2 * n + d) % (2 * d);
    RoundStep(n, d, r, m);
    r
  }

  lemma RoundStep(n: int, d: int, r: int, m: int)
    requires d > 0 && n >= 0 && 2 * n + d == r * (2 * d) + m && 0 <= m < 2 * d
    ensures IsRounding(n, d, r)
  {
    assert r * (2 * d) == 2 * (r * d);
  }

  lemma RoundFlipDen(n: int, d: int, r: int)
    requires d < 0 && IsRounding(-n, -d, r)
    ensures IsRounding(n, d, r)
  {
    NegMul(r, d);
  }

  lemma RoundFlipNum(n: int, d: int, r: int)
    requires d > 0 && IsRounding(-n, d, r)
    ensures IsRounding(n, d, -r)
  {
    NegMul(r, d);
  }

  /** Sage `isqrt`: the integer square root of a non-negative integer;
      ValueError for a negative one. */
  function ISqrt(n: int): (r: Result<nat>)
    ensures n < 0 <==> r.Err?
    ensures r.Ok? ==> r.value * r.value <= n < (r.value + 1) * (r.value + 1)
  {
    if n < 0 then Err(ValueError) else Ok(ISqrtFrom(n, 0))
  }

  function ISqrtFrom(n: nat, r: nat): (s: nat)
    requires r * r <= n
    ensures s * s <= n < (s + 1) * (s + 1)
    decreases n - r * r
  {
    if (r + 1) * (r + 1) <= n then ISqrtFrom(n, r + 1) else r
  }

  function Pow2(k: nat): (p: nat)
    ensures p >= 1
  {
    if k == 0 then 1 else 2 * Pow2(k - 1)
  }

  /** Sage `n.valuation(2)` for n != 0: the exponent of 2 in n. */
  function Valuation2(n: int): (v: nat)
    requires n != 0
    ensures n % Pow2(v) == 0 && n % Pow2(v + 1) != 0
    decreases Abs(n)
  {
    if n % 2 == 0 then
      var w := Valuation2(n / 2);
      Valuation2Step(n, n / 2, w);
      1 + w
    else
      assert Pow2(1) == 2;
      0
  }

  lemma Valuation2Step(n: int, m: int, w: nat)
    requires n == 2 * m && m % Pow2(w) == 0 && m % Pow2(w + 1) != 0
    ensures n % Pow2(w + 1) == 0 && n % Pow2(w + 2) != 0
  {
    assert m == (m / Pow2(w)) * Pow2(w);
    assert n == (m / Pow2(w)) * Pow2(w + 1);
    DivModUnique(n, Pow2(w + 1), m / Pow2(w), 0);
    if n % Pow2(w + 2) == 0 {
      var t := n / Pow2(w + 2);
      assert n == t * Pow2(w + 2) == 2 * (t * Pow2(w + 1));
      assert m == t * Pow2(w + 1);
      DivModUnique(m, Pow2(w + 1), t, 0);
      assert false;
    }
  }

  predicate IsPrime(p: int) { p >= 2 && forall d :: 2 <= d < p ==> p % d != 0 }

  /** The largest prime p <= k dividing n (n >= 1), or 0 when there is
      none: with k = n this is `max(n.support(), default=0)`. */
  function LargestPrimeDivisorUpTo(n: nat, k: int): (p: nat)
    requires n >= 1
    ensures p == 0 || (IsPrime(p) && n % p == 0 && p <= k)
    ensures forall q :: p < q <= k && IsPrime(q) ==> n % q != 0
    decreases k
  {
    if k < 2 then 0
    else if IsPrime(k) && n % k == 0 then k
    else LargestPrimeDivisorUpTo(n, k - 1)
  }

  /** `max(n.support(), default=0)`: the largest prime factor of n. */
  function LargestPrimeFactor(n: nat): (p: nat)
    requires n >= 1
    ensures p == 0 || (IsPrime(p) && n % p == 0)
    ensures forall q :: IsPrime(q) && n % q == 0 ==> q <= p
  {
    var p := LargestPrimeDivisorUpTo(n, n);
    assert forall q :: IsPrime(q) && n % q == 0 ==> q <= n by {
      forall q | IsPrime(q) && n % q == 0 && q > n ensures false {
        DivModUnique(n, q, 0, n);
      }
    }
    p
  }

  /** Sage `prime_range(lo, hi)`: the primes in [lo, hi), ascending. */
  function PrimeRange(lo: int, hi: int): (ps: seq<int>)
    ensures forall i :: 0 <= i < |ps| ==> IsPrime(ps[i]) && lo <= ps[i] < hi
    ensures forall i, j :: 0 <= i < j < |ps| ==> ps[i] < ps[j]
    ensures forall p :: lo <= p < hi && IsPrime(p) ==> p in ps
    decreases hi - lo
  {
    if lo >= hi then []
    else (if IsPrime(lo) then [lo] else []) + PrimeRange(lo + 1, hi)
  }

  /** Sage `D.support()` for D != 0: the primes dividing D, ascending. */
  function Support(d: int): (ps: seq<int>)
    requires d != 0
    ensures forall i :: 0 <= i < |ps| ==> IsPrime(ps[i]) && d % ps[i] == 0
    ensures forall i, j :: 0 <= i < j < |ps| ==> ps[i] < ps[j]
    ensures forall p :: IsPrime(p) && d % p == 0 ==> p in ps
  {
    var all := PrimeRange(2, Abs(d) + 1);
    forall p | IsPrime(p) && d % p == 0 ensures p in all {
      if p > Abs(d) {
        if d > 0 { DivModUnique(d, p, 0, d); }
        else { DivModUnique(d, p, -1, p + d); }
      }
    }
    var r := Filter(all, d);
    forall i | 0 <= i < |r| ensures IsPrime(r[i]) && d % r[i] == 0 {
      assert r[i] in r;
      assert r[i] in all;
      var j :| 0 <= j < |all| && all[j] == r[i];
    }
    r
  }

  /** The elements of the ascending positive sequence `ps` that divide d. */
  function Filter(ps: seq<int>, d: int): (r: seq<int>)
    requires forall i :: 0 <= i < |ps| ==> ps[i] > 0
    requires forall i, j :: 0 <= i < j < |ps| ==> ps[i] < ps[j]
    ensures forall x :: x in r <==> x in ps && d % x == 0
    ensures forall i, j :: 0 <= i < j < |r| ==> r[i] < r[j]
  {
    if ps == [] then []
    else
      var rest := Filter(ps[1..], d);
      FilterCons(ps, d, rest);
      if d % ps[0] == 0 then [ps[0]] + rest else rest
  }

  lemma FilterCons(ps: seq<int>, d: int, rest: seq<int>)
    requires |ps| > 0 && forall i :: 0 <= i < |ps| ==> ps[i] > 0
    requires forall i, j :: 0 <= i < j < |ps| ==> ps[i] < ps[j]
    requires forall x :: x in rest <==> x in ps[1..] && d % x == 0
    requires forall i, j :: 0 <= i < j < |rest| ==> rest[i] < rest[j]
    ensures forall j :: 0 <= j < |rest| ==> ps[0] < rest[j]
    ensures forall x :: x in ps <==> x == ps[0] || x in ps[1..]
  {
    forall j | 0 <= j < |rest| ensures ps[0] < rest[j] {
      assert rest[j] in rest;
      var k :| 0 <= k < |ps[1..]| && ps[1..][k] == rest[j];
      assert ps[k + 1] == rest[j];
    }
    assert ps == [ps[0]] + ps[1..];
  }

  function Product(xs: seq<int>): int
  {
    if xs == [] then 1 else xs[0] * Product(xs[1..])
  }
}
