/** Points of the Mordell-Weil lattice as integer coordinate vectors, and
    the canonical height as the quadratic form of an exact, symmetric,
    integer Gram matrix: `Pair` is the height pairing and `Height` the
    height. The real-valued heights Sage computes are replaced by this
    exact form. */
module Lattice {

  type Vec = seq<int>

  function Zero(n: nat): (w: Vec)
    ensures |w| == n && forall i :: 0 <= i < n ==> w[i] == 0
  {
    seq(n, i => 0)
  }

  /** P + Q */
  function Add(u: Vec, v: Vec): (w: Vec)
    requires |u| == |v|
    ensures |w| == |u| && forall i :: 0 <= i < |w| ==> w[i] == u[i] + v[i]
  {
    seq(|u|, i requires 0 <= i < |u| => u[i] + v[i])
  }

  /** P - Q */
  function Sub(u: Vec, v: Vec): (w: Vec)
    requires |u| == |v|
    ensures |w| == |u| && forall i :: 0 <= i < |w| ==> w[i] == u[i] - v[i]
  {
    seq(|u|, i requires 0 <= i < |u| => u[i] - v[i])
  }

  /** c * P */
  function Scale(c: int, u: Vec): (w: Vec)
    ensures |w| == |u| && forall i :: 0 <= i < |w| ==> w[i] == c * u[i]
  {
    seq(|u|, i requires 0 <= i < |u| => c * u[i])
  }

  /** a * P + b * Q */
  function Comb(a: int, u: Vec, b: int, v: Vec): (w: Vec)
    requires |u| == |v|
    ensures |w| == |u| && forall i :: 0 <= i < |w| ==> w[i] == a * u[i] + b * v[i]
  {
    Add(Scale(a, u), Scale(b, v))
  }

  /** a * P + b * Q + c * R */
  function Comb3(a: int, u: Vec, b: int, v: Vec, c: int, w: Vec): (z: Vec)
    requires |u| == |v| == |w|
    ensures |z| == |u|
    ensures forall i :: 0 <= i < |z| ==> z[i] == a * u[i] + b * v[i] + c * w[i]
  {
    Add(Comb(a, u, b, v), Scale(c, w))
  }

  function Dot(u: Vec, v: Vec): int
    requires |u| == |v|
    decreases |u|
  {
    if |u| == 0 then 0 else u[0] * v[0] + Dot(u[1..], v[1..])
  }

  /** Rows all of length m. */
  predicate Rows(R: seq<seq<int>>, m: nat)
  {
    forall i :: 0 <= i < |R| ==> |R[i]| == m
  }

  /** A square symmetric integer matrix. */
  predicate IsGram(G: seq<seq<int>>)
  {
    Rows(G, |G|) && forall i, j :: 0 <= i < |G| && 0 <= j < |G| ==> G[i][j] == G[j][i]
  }

  function MatVec(R: seq<seq<int>>, v: Vec): (w: Vec)
    requires Rows(R, |v|)
    ensures |w| == |R| && forall i :: 0 <= i < |R| ==> w[i] == Dot(R[i], v)
  {
    seq(|R|, i requires 0 <= i < |R| => Dot(R[i], v))
  }

  /** The height pairing <P, Q>. */
  function Pair(G: seq<seq<int>>, u: Vec, v: Vec): int
    requires IsGram(G) && |u| == |G| && |v| == |G|
  {
    Dot(u, MatVec(G, v))
  }

  /** The height h(P) = <P, P>. */
  function Height(G: seq<seq<int>>, v: Vec): int
    requires IsGram(G) && |v| == |G|
  {
    Pair(G, v, v)
  }

  lemma {:induction false} DotAddL(u: Vec, u': Vec, w: Vec)
    requires |u| == |u'| == |w|
    ensures Dot(Add(u, u'), w) == Dot(u, w) + Dot(u', w)
    decreases |u|
  {
    if |u| > 0 {
      assert Add(u, u')[1..] == Add(u[1..], u'[1..]);
      DotAddL(u[1..], u'[1..], w[1..]);
    }
  }

  lemma {:induction false} DotScaleL(c: int, u: Vec, w: Vec)
    requires |u| == |w|
    ensures Dot(Scale(c, u), w) == c * Dot(u, w)
    decreases |u|
  {
    if |u| > 0 {
      assert Scale(c, u)[1..] == Scale(c, u[1..]);
      DotScaleL(c, u[1..], w[1..]);
    }
  }

  lemma {:induction false} DotComm(u: Vec, w: Vec)
    requires |u| == |w|
    ensures Dot(u, w) == Dot(w, u)
    decreases |u|
  {
    if |u| > 0 {
      DotComm(u[1..], w[1..]);
    }
  }

  /** Sum of the rows of R weighted by u. */
  function RowComb(R: seq<seq<int>>, u: Vec, m: nat): (w: Vec)
    requires |R| == |u| && Rows(R, m)
    ensures |w| == m
    decreases |u|
  {
    if |u| == 0 then Zero(m) else Add(Scale(u[0], R[0]), RowComb(R[1..], u[1..], m))
  }

  function Col(R: seq<seq<int>>, j: nat, m: nat): (c: Vec)
    requires Rows(R, m) && j < m
    ensures |c| == |R| && forall i :: 0 <= i < |R| ==> c[i] == R[i][j]
  {
    seq(|R|, i requires 0 <= i < |R| => R[i][j])
  }

  lemma {:induction false} DotMatVec(R: seq<seq<int>>, u: Vec, v: Vec)
    requires |R| == |u| && Rows(R, |v|)
    ensures Dot(u, MatVec(R, v)) == Dot(RowComb(R, u, |v|), v)
    decreases |u|
  {
    if |u| > 0 {
      assert MatVec(R, v)[1..] == MatVec(R[1..], v);
      DotMatVec(R[1..], u[1..], v);
      DotScaleL(u[0], R[0], v);
      DotAddL(Scale(u[0], R[0]), RowComb(R[1..], u[1..], |v|), v);
    } else {
      DotZero(v);
    }
  }

  lemma {:induction false} DotZero(v: Vec)
    ensures Dot(Zero(|v|), v) == 0
    decreases |v|
  {
    if |v| > 0 {
      assert Zero(|v|)[1..] == Zero(|v| - 1);
      DotZero(v[1..]);
    }
  }

  lemma {:induction false} RowCombCol(R: seq<seq<int>>, u: Vec, m: nat, j: nat)
    requires |R| == |u| && Rows(R, m) && j < m
    ensures RowComb(R, u, m)[j] == Dot(Col(R, j, m), u)
    decreases |u|
  {
    if |u| > 0 {
      assert Col(R, j, m)[1..] == Col(R[1..], j, m);
      RowCombCol(R[1..], u[1..], m, j);
    }
  }

  lemma PairSym(G: seq<seq<int>>, u: Vec, v: Vec)
    requires IsGram(G) && |u| == |G| && |v| == |G|
    ensures Pair(G, u, v) == Pair(G, v, u)
  {
    var n := |G|;
    DotMatVec(G, u, v);
    forall j | 0 <= j < n
      ensures RowComb(G, u, n)[j] == MatVec(G, u)[j]
    {
      RowCombCol(G, u, n, j);
      assert Col(G, j, n) == G[j];
    }
    assert RowComb(G, u, n) == MatVec(G, u);
    DotComm(MatVec(G, u), v);
  }

  lemma PairCombL(G: seq<seq<int>>, a: int, u: Vec, b: int, v: Vec, w: Vec)
    requires IsGram(G) && |u| == |G| && |v| == |G| && |w| == |G|
    ensures Pair(G, Comb(a, u, b, v), w) == a * Pair(G, u, w) + b * Pair(G, v, w)
  {
    DotAddL(Scale(a, u), Scale(b, v), MatVec(G, w));
    DotScaleL(a, u, MatVec(G, w));
    DotScaleL(b, v, MatVec(G, w));
  }

  lemma PairCombR(G: seq<seq<int>>, w: Vec, a: int, u: Vec, b: int, v: Vec)
    requires IsGram(G) && |u| == |G| && |v| == |G| && |w| == |G|
    ensures Pair(G, w, Comb(a, u, b, v)) == a * Pair(G, w, u) + b * Pair(G, w, v)
  {
    PairSym(G, w, Comb(a, u, b, v));
    PairCombL(G, a, u, b, v, w);
    PairSym(G, u, w);
    PairSym(G, v, w);
  }

  lemma Expand(a: int, b: int, hu: int, huv: int, hv: int, x: int, y: int)
    requires x == a * hu + b * huv && y == a * huv + b * hv
    ensures a * x + b * y == a * a * hu + 2 * a * b * huv + b * b * hv
  {
  }

  /** h(aP + bQ) = a^2 h(P) + 2ab <P,Q> + b^2 h(Q). */
  lemma HeightComb(G: seq<seq<int>>, a: int, u: Vec, b: int, v: Vec)
    requires IsGram(G) && |u| == |G| && |v| == |G|
    ensures Height(G, Comb(a, u, b, v))
         == a * a * Height(G, u) + 2 * a * b * Pair(G, u, v) + b * b * Height(G, v)
  {
    var w := Comb(a, u, b, v);
    PairCombL(G, a, u, b, v, w);
    PairCombR(G, u, a, u, b, v);
    PairCombR(G, v, a, u, b, v);
    PairSym(G, v, u);
    Expand(a, b, Height(G, u), Pair(G, u, v), Height(G, v), Pair(G, u, w), Pair(G, v, w));
  }

  /** <aP + bQ, cP + dQ> expanded. */
  lemma PairComb2(G: seq<seq<int>>, a: int, b: int, c: int, d: int, u: Vec, v: Vec)
    requires IsGram(G) && |u| == |G| && |v| == |G|
    ensures Pair(G, Comb(a, u, b, v), Comb(c, u, d, v))
         == a * c * Height(G, u) + (a * d + b * c) * Pair(G, u, v) + b * d * Height(G, v)
  {
    var w := Comb(c, u, d, v);
    PairCombL(G, a, u, b, v, w);
    PairCombR(G, u, c, u, d, v);
    PairCombR(G, v, c, u, d, v);
    PairSym(G, v, u);
    Expand2(a, b, c, d, Height(G, u), Pair(G, u, v), Height(G, v), Pair(G, u, w), Pair(G, v, w));
  }

  lemma Expand2(a: int, b: int, c: int, d: int, hu: int, huv: int, hv: int, x: int, y: int)
    requires x == c * hu + d * huv && y == c * huv + d * hv
    ensures a * x + b * y == a * c * hu + (a * d + b * c) * huv + b * d * hv
  {
  }

  /** Basic identities between the vector operations. */
  lemma CombUnits(u: Vec, v: Vec)
    requires |u| == |v|
    ensures Add(u, v) == Comb(1, u, 1, v) && Sub(u, v) == Comb(1, u, -1, v)
    ensures Comb(1, u, 0, v) == u && Comb(0, u, 1, v) == v
  {
  }

  lemma SubScaleIsComb(x: int, p: Vec, q: Vec)
    requires |p| == |q|
    ensures Sub(q, Scale(x, p)) == Comb(-x, p, 1, q)
  {
  }

  lemma MulDistrib3(x: int, a: int, b: int, c: int, d: int, ui: int, vi: int)
    ensures (c * ui + d * vi) - x * (a * ui + b * vi) == (c - x * a) * ui + (d - x * b) * vi
  {
  }

  /** (cP + dQ) - x(aP + bQ) = (c - xa)P + (d - xb)Q */
  lemma SubScaleComb(x: int, a: int, b: int, c: int, d: int, u: Vec, v: Vec)
    requires |u| == |v|
    ensures Sub(Comb(c, u, d, v), Scale(x, Comb(a, u, b, v))) == Comb(c - x * a, u, d - x * b, v)
  {
    forall i | 0 <= i < |u|
      ensures Sub(Comb(c, u, d, v), Scale(x, Comb(a, u, b, v)))[i] == Comb(c - x * a, u, d - x * b, v)[i]
    {
      MulDistrib3(x, a, b, c, d, u[i], v[i]);
    }
  }
}
