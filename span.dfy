/** Integer spans of two or three points. Two lists of points generate
    the same subgroup exactly when each point of either list is an
    integer combination of the other list; this is what a change of
    basis by an invertible integer matrix keeps. */
module Spans {
  import opened Lattice

  // ---------------------------------------------------------------
  // Pairs
  // ---------------------------------------------------------------

  /** v = xP + yQ for some integers x, y. */
  ghost predicate InSpan2(v: Vec, p: Vec, q: Vec)
    requires |p| == |q|
  {
    exists x, y :: v == Comb(x, p, y, q)
  }

  /** (A, B) lies in the subgroup generated by (P, Q). */
  ghost predicate SubSpan2(p: Vec, q: Vec, a: Vec, b: Vec)
    requires |p| == |q|
  {
    InSpan2(a, p, q) && InSpan2(b, p, q)
  }

  /** (P, Q) and (A, B) generate the same subgroup. */
  ghost predicate SameSpan2(p: Vec, q: Vec, a: Vec, b: Vec)
    requires |p| == |q| == |a| == |b|
  {
    SubSpan2(p, q, a, b) && SubSpan2(a, b, p, q)
  }

  lemma InverseArith2(e: int, a: int, b: int, c: int, d: int, pi: int, qi: int)
    requires e == a * d - b * c && (e == 1 || e == -1)
    ensures (e * d) * (a * pi + b * qi) + (-e * b) * (c * pi + d * qi) == pi
    ensures (-e * c) * (a * pi + b * qi) + (e * a) * (c * pi + d * qi) == qi
  {
    assert (e * d) * (a * pi + b * qi) + (-e * b) * (c * pi + d * qi) == e * e * pi;
    assert (-e * c) * (a * pi + b * qi) + (e * a) * (c * pi + d * qi) == e * e * qi;
  }

  /** An integer matrix of determinant +-1 maps a pair to a pair that
      generates the same subgroup. */
  lemma {:induction false} SameSpan2Unimodular(p: Vec, q: Vec, a: int, b: int, c: int, d: int)
    requires |p| == |q| && (a * d - b * c == 1 || a * d - b * c == -1)
    ensures SameSpan2(p, q, Comb(a, p, b, q), Comb(c, p, d, q))
  {
    var A, B := Comb(a, p, b, q), Comb(c, p, d, q);
    var e := a * d - b * c;
    forall i | 0 <= i < |p|
      ensures Comb(e * d, A, -e * b, B)[i] == p[i] && Comb(-e * c, A, e * a, B)[i] == q[i]
    {
      InverseArith2(e, a, b, c, d, p[i], q[i]);
    }
    assert p == Comb(e * d, A, -e * b, B);
    assert q == Comb(-e * c, A, e * a, B);
  }

  // ---------------------------------------------------------------
  // Triples
  // ---------------------------------------------------------------

  /** v = xP + yQ + zR for some integers x, y, z. */
  ghost predicate InSpan3(v: Vec, p: Vec, q: Vec, s: Vec)
    requires |p| == |q| == |s|
  {
    exists x, y, z :: v == Comb3(x, p, y, q, z, s)
  }

  /** (A, B, C) lies in the subgroup generated by (P, Q, R). */
  ghost predicate SubSpan3(p: Vec, q: Vec, s: Vec, a: Vec, b: Vec, c: Vec)
    requires |p| == |q| == |s|
  {
    InSpan3(a, p, q, s) && InSpan3(b, p, q, s) && InSpan3(c, p, q, s)
  }

  /** (P, Q, R) and (A, B, C) generate the same subgroup. */
  ghost predicate SameSpan3(p: Vec, q: Vec, s: Vec, a: Vec, b: Vec, c: Vec)
    requires |p| == |q| == |s| == |a| == |b| == |c|
  {
    SubSpan3(p, q, s, a, b, c) && SubSpan3(a, b, c, p, q, s)
  }

  lemma ComposeArith(x: int, y: int, z: int, a1: int, a2: int, a3: int, b1: int, b2: int, b3: int,
                     c1: int, c2: int, c3: int, pi: int, qi: int, si: int)
    ensures x * (a1 * pi + a2 * qi + a3 * si) + y * (b1 * pi + b2 * qi + b3 * si)
          + z * (c1 * pi + c2 * qi + c3 * si)
         == (x * a1 + y * b1 + z * c1) * pi + (x * a2 + y * b2 + z * c2) * qi
          + (x * a3 + y * b3 + z * c3) * si
  {
  }

  /** A combination of combinations of (P, Q, R) is a combination of
      (P, Q, R). */
  lemma InSpan3Trans(v: Vec, p: Vec, q: Vec, s: Vec, a: Vec, b: Vec, c: Vec)
    requires |p| == |q| == |s| == |a| == |b| == |c|
    requires InSpan3(v, a, b, c) && SubSpan3(p, q, s, a, b, c)
    ensures InSpan3(v, p, q, s)
  {
    var x, y, z :| v == Comb3(x, a, y, b, z, c);
    var a1, a2, a3 :| a == Comb3(a1, p, a2, q, a3, s);
    var b1, b2, b3 :| b == Comb3(b1, p, b2, q, b3, s);
    var c1, c2, c3 :| c == Comb3(c1, p, c2, q, c3, s);
    var w := Comb3(x * a1 + y * b1 + z * c1, p, x * a2 + y * b2 + z * c2, q, x * a3 + y * b3 + z * c3, s);
    forall i | 0 <= i < |p|
      ensures v[i] == w[i]
    {
      ComposeArith(x, y, z, a1, a2, a3, b1, b2, b3, c1, c2, c3, p[i], q[i], s[i]);
    }
    assert v == w;
  }

  lemma SubSpan3Trans(p: Vec, q: Vec, s: Vec, a: Vec, b: Vec, c: Vec, d: Vec, e: Vec, f: Vec)
    requires |p| == |q| == |s| == |a| == |b| == |c| == |d| == |e| == |f|
    requires SubSpan3(p, q, s, a, b, c) && SubSpan3(a, b, c, d, e, f)
    ensures SubSpan3(p, q, s, d, e, f)
  {
    InSpan3Trans(d, p, q, s, a, b, c);
    InSpan3Trans(e, p, q, s, a, b, c);
    InSpan3Trans(f, p, q, s, a, b, c);
  }

  /** Generating the same subgroup is transitive. */
  lemma SameSpan3Trans(p: Vec, q: Vec, s: Vec, a: Vec, b: Vec, c: Vec, d: Vec, e: Vec, f: Vec)
    requires |p| == |q| == |s| == |a| == |b| == |c| == |d| == |e| == |f|
    requires SameSpan3(p, q, s, a, b, c) && SameSpan3(a, b, c, d, e, f)
    ensures SameSpan3(p, q, s, d, e, f)
  {
    SubSpan3Trans(p, q, s, a, b, c, d, e, f);
    SubSpan3Trans(d, e, f, a, b, c, p, q, s);
  }

  lemma UnitArith(pi: int, qi: int, si: int)
    ensures pi == 1 * pi + 0 * qi + 0 * si
    ensures qi == 0 * pi + 1 * qi + 0 * si
    ensures si == 0 * pi + 0 * qi + 1 * si
  {
  }

  lemma {:induction false} Units3(p: Vec, q: Vec, s: Vec)
    requires |p| == |q| == |s|
    ensures p == Comb3(1, p, 0, q, 0, s) && q == Comb3(0, p, 1, q, 0, s) && s == Comb3(0, p, 0, q, 1, s)
  {
    forall i | 0 <= i < |p|
      ensures p[i] == Comb3(1, p, 0, q, 0, s)[i] && q[i] == Comb3(0, p, 1, q, 0, s)[i]
      ensures s[i] == Comb3(0, p, 0, q, 1, s)[i]
    {
      UnitArith(p[i], q[i], s[i]);
    }
  }

  /** Every triple generates the subgroup it generates. */
  lemma SameSpan3Refl(p: Vec, q: Vec, s: Vec)
    requires |p| == |q| == |s|
    ensures SameSpan3(p, q, s, p, q, s)
  {
    Units3(p, q, s);
  }

  /** Reordering a triple as (P, R, Q) or (R, P, Q) keeps its subgroup. */
  lemma SameSpan3Permute(p: Vec, q: Vec, s: Vec)
    requires |p| == |q| == |s|
    ensures SameSpan3(p, q, s, p, s, q) && SameSpan3(p, q, s, s, p, q)
  {
    Units3(p, q, s);
    Units3(p, s, q);
    Units3(s, p, q);
  }

  lemma ShiftBackArith(k1: int, k2: int, pi: int, qi: int, si: int)
    ensures si == (-k1) * pi + (-k2) * qi + 1 * (k1 * pi + k2 * qi + 1 * si)
  {
  }

  /** Replacing R by R + k1 P + k2 Q keeps the subgroup of a triple. */
  lemma SameSpan3Shift(p: Vec, q: Vec, s: Vec, k1: int, k2: int)
    requires |p| == |q| == |s|
    ensures SameSpan3(p, q, s, p, q, Comb3(k1, p, k2, q, 1, s))
  {
    var s' := Comb3(k1, p, k2, q, 1, s);
    Units3(p, q, s);
    Units3(p, q, s');
    forall i | 0 <= i < |p|
      ensures s[i] == Comb3(-k1, p, -k2, q, 1, s')[i]
    {
      ShiftBackArith(k1, k2, p[i], q[i], s[i]);
    }
    assert s == Comb3(-k1, p, -k2, q, 1, s');
  }

  lemma ZeroThird(x: int, y: int, pi: int, qi: int, si: int)
    ensures x * pi + y * qi == x * pi + y * qi + 0 * si
  {
  }

  /** xP + yQ is the combination xP + yQ + 0R. */
  lemma {:induction false} CombAsComb3(x: int, p: Vec, y: int, q: Vec, s: Vec)
    requires |p| == |q| == |s|
    ensures Comb(x, p, y, q) == Comb3(x, p, y, q, 0, s)
  {
    forall i | 0 <= i < |p|
      ensures Comb(x, p, y, q)[i] == Comb3(x, p, y, q, 0, s)[i]
    {
      ZeroThird(x, y, p[i], q[i], s[i]);
    }
  }

  /** An integer change of basis of determinant +-1 on the first two
      points keeps the subgroup of a triple. */
  lemma SameSpan3Unimodular(p: Vec, q: Vec, s: Vec, a: int, b: int, c: int, d: int)
    requires |p| == |q| == |s| && (a * d - b * c == 1 || a * d - b * c == -1)
    ensures SameSpan3(p, q, s, Comb(a, p, b, q), Comb(c, p, d, q), s)
  {
    var A, B := Comb(a, p, b, q), Comb(c, p, d, q);
    SameSpan2Unimodular(p, q, a, b, c, d);
    var x1, y1 :| p == Comb(x1, A, y1, B);
    var x2, y2 :| q == Comb(x2, A, y2, B);
    CombAsComb3(a, p, b, q, s);
    CombAsComb3(c, p, d, q, s);
    CombAsComb3(x1, A, y1, B, s);
    CombAsComb3(x2, A, y2, B, s);
    Units3(p, q, s);
    Units3(A, B, s);
  }
}
