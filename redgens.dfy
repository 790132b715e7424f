/** Minkowski reduction of Mordell-Weil generators of rank 2 and 3
    (`mreduce_gens`, `reduce_mod_2d`, `check_minkowski`) and the
    normalisation of generators by string weight (`reduce_tgens`,
    `reduce_gens`). Points mod torsion are integer vectors, heights come
    from an exact Gram matrix (module Lattice). */
module RedGens {
  import opened Wrappers
  import opened Arith
  import opened Lattice
  import opened MinKey
  import opened Spans

  /** How a `while True` loop of the source ends: a returned value, a
      raised exception, or still running when the fuel runs out. */
  datatype Run<T> = Returned(value: T) | Raised(error: PyError) | Diverged

  // ---------------------------------------------------------------
  // Heights of pairs and triples
  // ---------------------------------------------------------------

  predicate Dim(G: seq<seq<int>>, gens: seq<Vec>)
  {
    IsGram(G) && forall i :: 0 <= i < |gens| ==> |gens[i]| == |G|
  }

  /** h(P + Q) = h(P) + 2<P,Q> + h(Q). */
  lemma HeightSum(G: seq<seq<int>>, p: Vec, q: Vec)
    requires IsGram(G) && |p| == |G| && |q| == |G|
    ensures Height(G, Add(p, q)) == Height(G, p) + 2 * Pair(G, p, q) + Height(G, q)
  {
    CombUnits(p, q);
    HeightComb(G, 1, p, 1, q);
  }

  /** The source's `((P+Q).height() - h(P) - h(Q)) / 2`, which is the
      exact pairing. */
  function PairingFromHeights(G: seq<seq<int>>, p: Vec, q: Vec): (h: int)
    requires IsGram(G) && |p| == |G| && |q| == |G|
    ensures h == Pair(G, p, q)
  {
    HeightSum(G, p, q);
    DivModUnique(2 * Pair(G, p, q), 2, Pair(G, p, q), 0);
    (Height(G, Add(p, q)) - Height(G, p) - Height(G, q)) / 2
  }

  /** The Gram determinant h(P) h(Q) - <P,Q>^2 of a pair. */
  function Det(h1: int, h2: int, h12: int): int
  {
    h1 * h2 - h12 * h12
  }

  /** The binary form h(xP + yQ) is positive definite: P and Q are
      independent points of positive height. */
  predicate PosDefPair(G: seq<seq<int>>, p: Vec, q: Vec)
    requires IsGram(G) && |p| == |G| && |q| == |G|
  {
    Height(G, p) > 0 && Det(Height(G, p), Height(G, q), Pair(G, p, q)) > 0
  }

  /** Every non-trivial combination of P, Q, R has positive height: the
      three points are independent modulo torsion. */
  ghost predicate PosDefTriple(G: seq<seq<int>>, p: Vec, q: Vec, s: Vec)
    requires IsGram(G) && |p| == |G| && |q| == |G| && |s| == |G|
  {
    forall a, b, c :: (a != 0 || b != 0 || c != 0) ==> Height(G, Comb3(a, p, b, q, c, s)) > 0
  }

  predicate Unimodular(a: int, b: int, c: int, d: int)
  {
    a * d - b * c == 1 || a * d - b * c == -1
  }

  // ---------------------------------------------------------------
  // check_minkowski
  // ---------------------------------------------------------------

  /** `check_minkowski(gens)`: true for fewer than 2 or more than 3
      points; for 2 points h1 < h2 < h(P1+P2) < 2 h1 + h2; for 3 points
      every pair passes and P3 cannot be shortened by +-(P1+P2) or
      +-(P1-P2). */
  function CheckMinkowski(G: seq<seq<int>>, gens: seq<Vec>): bool
    requires Dim(G, gens)
    decreases |gens|
  {
    var r := |gens|;
    if r < 2 || r > 3 then true
    else if r == 2 then
      var h1 := Height(G, gens[0]);
      var h2 := Height(G, gens[1]);
      var h3 := Height(G, Add(gens[0], gens[1]));
      h1 < h2 && h2 < h3 && h3 < 2 * h1 + h2
    else if !CheckMinkowski(G, gens[..2]) then false
    else if !CheckMinkowski(G, gens[1..]) then false
    else if !CheckMinkowski(G, [gens[0], gens[2]]) then false
    else
      var h3 := Height(G, gens[2]);
      var p4 := Add(gens[0], gens[1]);
      if h3 > Height(G, Add(gens[2], p4)) || h3 > Height(G, Sub(gens[2], p4)) then false
      else
        var p5 := Sub(gens[0], gens[1]);
        h3 < Height(G, Add(gens[2], p5)) && h3 < Height(G, Sub(gens[2], p5))
  }

  /** For two points the check says exactly: h1 < h2 and 2|<P1,P2>| < h1. */
  lemma CheckMinkowskiPair(G: seq<seq<int>>, p: Vec, q: Vec)
    requires IsGram(G) && |p| == |G| && |q| == |G|
    ensures CheckMinkowski(G, [p, q])
        <==> Height(G, p) < Height(G, q) && 2 * Abs(Pair(G, p, q)) < Height(G, p)
  {
    HeightSum(G, p, q);
  }

  /** A triple that passes the check has strictly increasing heights. */
  lemma CheckMinkowskiTripleHeights(G: seq<seq<int>>, gens: seq<Vec>)
    requires |gens| == 3 && Dim(G, gens) && CheckMinkowski(G, gens)
    ensures Height(G, gens[0]) < Height(G, gens[1]) < Height(G, gens[2])
  {
    assert gens[..2] == [gens[0], gens[1]];
    assert gens[1..] == [gens[1], gens[2]];
    assert CheckMinkowski(G, [gens[0], gens[1]]);
    assert CheckMinkowski(G, [gens[1], gens[2]]);
  }

  // ---------------------------------------------------------------
  // The 2-D Gauss loop (mreduce_gens with two points)
  // ---------------------------------------------------------------

  lemma StepAlgebra(h1: int, h2: int, h12: int, x: int, y: int)
    requires y == h12 - x * h1
    ensures (-x) * (-x) * h1 + 2 * (-x) * 1 * h12 + 1 * 1 * h2 == h2 - x * (y + h12)
    ensures Det(h2 - x * (y + h12), h1, y) == Det(h1, h2, h12)
  {
  }

  lemma PositiveFromDet(h1: int, h2: int, h12: int)
    requires h2 > 0 && Det(h1, h2, h12) > 0
    ensures h1 > 0
  {
    if h1 <= 0 {
      MulNonPos(h1, h2);
    }
  }

  lemma MulNonPos(a: int, b: int)
    requires a <= 0 && b > 0
    ensures a * b <= 0
  {
  }

  /** One swap step: P1' = P2 - x P1, P2' = P1, with the heights the
      source's update formulas give. */
  lemma GaussStep(G: seq<seq<int>>, p1: Vec, p2: Vec, h1: int, h2: int, h12: int, x: int, y: int)
    requires IsGram(G) && |p1| == |G| && |p2| == |G|
    requires h1 == Height(G, p1) && h2 == Height(G, p2) && h12 == Pair(G, p1, p2)
    requires h1 > 0 && Det(h1, h2, h12) > 0
    requires y == h12 - x * h1
    ensures Height(G, Sub(p2, Scale(x, p1))) == h2 - x * (y + h12)
    ensures Pair(G, Sub(p2, Scale(x, p1)), p1) == y
    ensures Det(h2 - x * (y + h12), h1, y) == Det(h1, h2, h12)
    ensures h2 - x * (y + h12) > 0
  {
    SubScaleIsComb(x, p1, p2);
    HeightComb(G, -x, p1, 1, p2);
    PairCombL(G, -x, p1, 1, p2, p1);
    PairSym(G, p2, p1);
    StepAlgebra(h1, h2, h12, x, y);
    PositiveFromDet(h2 - x * (y + h12), h1, y);
  }

  lemma UnimodularStep(x: int, a: int, b: int, c: int, d: int, c': int, d': int)
    requires Unimodular(a, b, c, d) && c' == c - x * a && d' == d - x * b
    ensures Unimodular(c', d', a, b) && Unimodular(a, b, c', d')
  {
    assert c' * b - d' * a == c * b - d * a;
  }

  lemma UnimodularSwap(a: int, b: int, c: int, d: int)
    requires Unimodular(a, b, c, d)
    ensures Unimodular(c, d, a, b)
  {
  }

  lemma DetSwap(h1: int, h2: int, h12: int)
    ensures Det(h2, h1, h12) == Det(h1, h2, h12)
  {
  }

  /** The loop state (p1, p2, h1, h2, h12) of the 2-D loop: the numbers
      are the heights and pairing of the current pair, the Gram
      determinant is the initial one, and (p1, p2) is the image of
      (P1, P2) under the unimodular matrix (m11 m12; m21 m22). */
  ghost predicate Tracks(G: seq<seq<int>>, P1: Vec, P2: Vec, p1: Vec, p2: Vec,
                         h1: int, h2: int, h12: int, delta: int,
                         m11: int, m12: int, m21: int, m22: int)
    requires IsGram(G) && |P1| == |G| && |P2| == |G|
  {
    |p1| == |G| && |p2| == |G| &&
    h1 == Height(G, p1) && h2 == Height(G, p2) && h12 == Pair(G, p1, p2) &&
    h1 > 0 && delta > 0 && Det(h1, h2, h12) == delta &&
    p1 == Comb(m11, P1, m12, P2) && p2 == Comb(m21, P1, m22, P2) &&
    Unimodular(m11, m12, m21, m22)
  }

  /** What the 2-D loop promises of the pair (A, B) it returns: heights
      in increasing order, a pairing at most half the smaller height,
      the Gram determinant of (P1, P2), and a unimodular change of basis
      from (P1, P2), so the lattice they span is unchanged. */
  ghost predicate GaussReduced(G: seq<seq<int>>, P1: Vec, P2: Vec, A: Vec, B: Vec,
                               a: int, b: int, c: int, d: int)
    requires IsGram(G) && |P1| == |G| && |P2| == |G|
  {
    |A| == |G| && |B| == |G| &&
    Height(G, A) < Height(G, B) && 2 * Abs(Pair(G, A, B)) <= Height(G, A) &&
    Det(Height(G, A), Height(G, B), Pair(G, A, B))
      == Det(Height(G, P1), Height(G, P2), Pair(G, P1, P2)) &&
    Unimodular(a, b, c, d) && A == Comb(a, P1, b, P2) && B == Comb(c, P1, d, P2)
  }

  lemma StepTracks(G: seq<seq<int>>, P1: Vec, P2: Vec, p1: Vec, p2: Vec,
                   h1: int, h2: int, h12: int, delta: int,
                   m11: int, m12: int, m21: int, m22: int, x: int, y: int, n1: int, n2: int)
    requires IsGram(G) && |P1| == |G| && |P2| == |G|
    requires Tracks(G, P1, P2, p1, p2, h1, h2, h12, delta, m11, m12, m21, m22)
    requires y == h12 - x * h1 && n1 == m21 - x * m11 && n2 == m22 - x * m12
    ensures Tracks(G, P1, P2, Sub(p2, Scale(x, p1)), p1, h2 - x * (y + h12), h1, y, delta,
                   n1, n2, m11, m12)
  {
    GaussStep(G, p1, p2, h1, h2, h12, x, y);
    SubScaleComb(x, m11, m12, m21, m22, P1, P2);
    UnimodularStep(x, m11, m12, m21, m22, n1, n2);
  }

  lemma ExitReduced(G: seq<seq<int>>, P1: Vec, P2: Vec, p1: Vec, p2: Vec,
                    h1: int, h2: int, h12: int, delta: int,
                    m11: int, m12: int, m21: int, m22: int)
    requires IsGram(G) && |P1| == |G| && |P2| == |G| && PosDefPair(G, P1, P2)
    requires delta == Det(Height(G, P1), Height(G, P2), Pair(G, P1, P2))
    requires Tracks(G, P1, P2, p1, p2, h1, h2, h12, delta, m11, m12, m21, m22)
    requires h1 > h2 && 2 * Abs(h12) <= h2
    ensures GaussReduced(G, P1, P2, p2, p1, m21, m22, m11, m12)
  {
    PairSym(G, p1, p2);
    DetSwap(h1, h2, h12);
    UnimodularSwap(m11, m12, m21, m22);
  }

  /** One pass of the 2-D loop on the numbers: x = round(h12/h1),
      y = h12 - x h1, and (h1, h2, h12) := (h2 - x(y + h12), h1, y). */
  function GaussNext(t: (int, int, int)): (int, int, int)
    requires t.0 != 0
  {
    var x := RoundDiv(t.2, t.0);
    var y := t.2 - x * t.0;
    (t.1 - x * (y + t.2), t.0, y)
  }

  /** The numbers (h1, h2, h12) after k passes of the 2-D loop body,
      ignoring its exit test. */
  function GaussIter(t: (int, int, int), k: nat): (int, int, int)
  {
    if k == 0 then t
    else if GaussIter(t, k - 1).0 == 0 then GaussIter(t, k - 1)
    else GaussNext(GaussIter(t, k - 1))
  }

  /** After one of the first n passes the two heights were equal: from
      then on the source's loop never leaves. */
  ghost predicate TieWithin(h1: int, h2: int, h12: int, n: nat)
  {
    n > 0 &&
    (TieWithin(h1, h2, h12, n - 1) || GaussIter((h1, h2, h12), n).0 == GaussIter((h1, h2, h12), n).1)
  }

  /** One pass of the 2-D loop body: P1, P2 := P2 - x P1, P1 with the
      source's update of h1, h2, h12. */
  method GaussPass(G: seq<seq<int>>, P1: Vec, P2: Vec, p1: Vec, p2: Vec, h1: int, h2: int, h12: int,
                   ghost delta: int, ghost m11: int, ghost m12: int, ghost m21: int, ghost m22: int,
                   ghost t: (int, int, int), ghost n: nat)
    returns (q1: Vec, q2: Vec, g1: int, g2: int, g12: int,
             ghost n11: int, ghost n12: int, ghost n21: int, ghost n22: int)
    requires IsGram(G) && |P1| == |G| && |P2| == |G|
    requires Tracks(G, P1, P2, p1, p2, h1, h2, h12, delta, m11, m12, m21, m22)
    requires GaussIter(t, n) == (h1, h2, h12)
    ensures Tracks(G, P1, P2, q1, q2, g1, g2, g12, delta, n11, n12, n21, n22)
    ensures GaussIter(t, n + 1) == (g1, g2, g12) && g2 == h1 && 2 * Abs(g12) <= g2
  {
    var x := RoundDiv(h12, h1);
    var y := h12 - x * h1;
    assert 2 * Abs(y) <= h1;
    n11, n12 := m21 - x * m11, m22 - x * m12;
    StepTracks(G, P1, P2, p1, p2, h1, h2, h12, delta, m11, m12, m21, m22, x, y, n11, n12);
    q1, q2 := Sub(p2, Scale(x, p1)), p1;
    n21, n22 := m11, m12;
    g1, g2 := h2, h1;
    g1 := g1 - x * (y + h12);
    g12 := y;
  }

  /** A pass that does not leave the loop either ties the heights or
      lowers the first one, which starts at h(P1). */
  lemma Progress(H1: int, H2: int, H12: int, n: nat, oldH1: int, h1: int, h2: int, h12: int)
    requires TieWithin(H1, H2, H12, n) || oldH1 + n <= H1
    requires GaussIter((H1, H2, H12), n + 1) == (h1, h2, h12)
    requires h1 <= h2 && h2 == oldH1
    ensures TieWithin(H1, H2, H12, n + 1) || h1 + (n + 1) <= H1
  {
  }

  /** When the passes run out without a tie, h(P1) exceeded their
      number. */
  lemma OutOfPasses(H1: int, H2: int, H12: int, n: nat, h1: int)
    requires TieWithin(H1, H2, H12, n) || h1 + n <= H1
    requires h1 > 0
    ensures n < H1 || TieWithin(H1, H2, H12, n)
  {
  }

  /** `mreduce_gens([P1, P2])`: the loop swaps P1, P2 := P2 - x P1, P1
      with x = round(<P1,P2>/h(P1)) until the new first height exceeds
      the second, then returns the pair in increasing height order.
      Each pass that neither leaves nor ties lowers h(P1), so the loop
      returns within h(P1) passes unless the heights tie; a tie makes
      the source loop forever. */
  method Gauss2(G: seq<seq<int>>, P1: Vec, P2: Vec, fuel: nat)
    returns (r: Run<(Vec, Vec)>, ghost a: int, ghost b: int, ghost c: int, ghost d: int)
    requires IsGram(G) && |P1| == |G| && |P2| == |G| && PosDefPair(G, P1, P2)
    ensures !r.Raised?
    ensures r.Returned? ==> GaussReduced(G, P1, P2, r.value.0, r.value.1, a, b, c, d)
    ensures Height(G, P1) <= fuel && !TieWithin(Height(G, P1), Height(G, P2), Pair(G, P1, P2), fuel) ==>
      r.Returned?
  {
    var p1, p2 := P1, P2;
    var h1 := Height(G, P1);
    var h2 := Height(G, P2);
    var h12 := PairingFromHeights(G, P1, P2);
    ghost var delta := Det(h1, h2, h12);
    ghost var h1in, h2in, h12in := h1, h2, h12;
    ghost var m11, m12, m21, m22 := 1, 0, 0, 1;
    CombUnits(P1, P2);
    a, b, c, d := 1, 0, 0, 1;
    var k := fuel;
    ghost var n: nat := 0;
    while k > 0
      invariant 0 <= k && n + k == fuel
      invariant Tracks(G, P1, P2, p1, p2, h1, h2, h12, delta, m11, m12, m21, m22)
      invariant GaussIter((h1in, h2in, h12in), n) == (h1, h2, h12)
      invariant TieWithin(h1in, h2in, h12in, n) || h1 + n <= h1in
    {
      ghost var oldH1 := h1;
      p1, p2, h1, h2, h12, m11, m12, m21, m22 :=
        GaussPass(G, P1, P2, p1, p2, h1, h2, h12, delta, m11, m12, m21, m22, (h1in, h2in, h12in), n);
      if h1 > h2 {
        ExitReduced(G, P1, P2, p1, p2, h1, h2, h12, delta, m11, m12, m21, m22);
        r := Returned((p2, p1));
        a, b, c, d := m21, m22, m11, m12;
        return;
      }
      Progress(h1in, h2in, h12in, n, oldH1, h1, h2, h12);
      k := k - 1;
      n := n + 1;
    }
    OutOfPasses(h1in, h2in, h12in, n, h1);
    assert n == fuel;
    assert h1in == Height(G, P1) && h2in == Height(G, P2) && h12in == Pair(G, P1, P2);
    r := Diverged;
  }

  // ---------------------------------------------------------------
  // reduce_mod_2d
  // ---------------------------------------------------------------

  lemma DetPositive(h1: int, h2: int, h12: int)
    requires 0 < h1 <= h2 && 2 * Abs(h12) <= h1
    ensures Det(h1, h2, h12) > 0
  {
    assert 4 * (h12 * h12) <= h1 * h1 by { SquareMono(2 * Abs(h12), h1); }
    assert h1 * h1 <= h1 * h2;
  }

  lemma SquareMono(a: int, b: int)
    requires 0 <= a <= b
    ensures a * a <= b * b
  {
    assert a * a <= a * b <= b * b;
  }

  /** (n1, n2): the coordinates (y1, y2) of the orthogonal projection of
      P3 on the plane of P1, P2, each rounded half away from zero. With
      d the Gram determinant, y1 = num1/d and y2 = num2/d. */
  function RoundedProjection(G: seq<seq<int>>, P3: Vec, P1: Vec, P2: Vec): (n: (int, int))
    requires IsGram(G) && |P1| == |G| && |P2| == |G| && |P3| == |G|
    requires Det(Height(G, P1), Height(G, P2), Pair(G, P1, P2)) > 0
    ensures var d := Det(Height(G, P1), Height(G, P2), Pair(G, P1, P2));
      var (num1, num2) := ProjectionNumerators(G, P3, P1, P2);
      IsRounding(num1, d, n.0) && IsRounding(num2, d, n.1)
  {
    var d := Det(Height(G, P1), Height(G, P2), PairingFromHeights(G, P1, P2));
    var (num1, num2) := ProjectionNumerators(G, P3, P1, P2);
    (RoundDiv(num1, d), RoundDiv(num2, d))
  }

  /** d*y1 and d*y2 for the source's y1, y2, computed from heights as
      the source does. */
  function ProjectionNumerators(G: seq<seq<int>>, P3: Vec, P1: Vec, P2: Vec): (int, int)
    requires IsGram(G) && |P1| == |G| && |P2| == |G| && |P3| == |G|
  {
    var h1 := Height(G, P1);
    var h2 := Height(G, P2);
    var h12 := PairingFromHeights(G, P1, P2);
    var h13 := PairingFromHeights(G, P1, P3);
    var h23 := PairingFromHeights(G, P2, P3);
    (h2 * h13 - h12 * h23, h1 * h23 - h12 * h13)
  }

  lemma GramAlgebra(h1: int, h2: int, h12: int, h13: int, h23: int)
    ensures h1 * (h2 * h13 - h12 * h23) + h12 * (h1 * h23 - h12 * h13) == Det(h1, h2, h12) * h13
    ensures h12 * (h2 * h13 - h12 * h23) + h2 * (h1 * h23 - h12 * h13) == Det(h1, h2, h12) * h23
  {
  }

  /** (y1, y2) solves the Gram system h1 y1 + h12 y2 = <P1,P3>,
      h12 y1 + h2 y2 = <P2,P3>: y1 P1 + y2 P2 is the orthogonal
      projection of P3 (both equations multiplied by d). */
  lemma ProjectionSolvesGramSystem(G: seq<seq<int>>, P3: Vec, P1: Vec, P2: Vec)
    requires IsGram(G) && |P1| == |G| && |P2| == |G| && |P3| == |G|
    ensures var h1, h2, h12 := Height(G, P1), Height(G, P2), Pair(G, P1, P2);
      var (num1, num2) := ProjectionNumerators(G, P3, P1, P2);
      h1 * num1 + h12 * num2 == Det(h1, h2, h12) * Pair(G, P1, P3) &&
      h12 * num1 + h2 * num2 == Det(h1, h2, h12) * Pair(G, P2, P3)
  {
    GramAlgebra(Height(G, P1), Height(G, P2), Pair(G, P1, P2), Pair(G, P1, P3), Pair(G, P2, P3));
  }

  /** The candidate list of reduce_mod_2d, in the source's order. */
  function Candidates(Q3: Vec, P1: Vec, P2: Vec): (cs: seq<Vec>)
    requires |Q3| == |P1| == |P2|
    ensures |cs| == 9 && forall i :: 0 <= i < 9 ==> |cs[i]| == |P1|
  {
    var P12 := Add(P1, P2);
    var P21 := Sub(P1, P2);
    [Q3, Sub(Q3, P1), Add(Q3, P1), Sub(Q3, P2), Add(Q3, P2),
     Sub(Q3, P12), Add(Q3, P12), Sub(Q3, P21), Add(Q3, P21)]
  }

  /** Candidate i is Q3 + e1 P1 + e2 P2 for Shifts[i] = (e1, e2). */
  const Shifts: seq<(int, int)> :=
    [(0, 0), (-1, 0), (1, 0), (0, -1), (0, 1), (-1, -1), (1, 1), (-1, 1), (1, -1)]

  function Heights(G: seq<seq<int>>, vs: seq<Vec>): (hs: seq<int>)
    requires Dim(G, vs)
    ensures |hs| == |vs| && forall i :: 0 <= i < |vs| ==> hs[i] == Height(G, vs[i])
  {
    seq(|vs|, i requires 0 <= i < |vs| => Height(G, vs[i]))
  }

  lemma ShiftArith(n1: int, n2: int, e1: int, e2: int, p: int, q: int, s: int)
    ensures (s - (n1 * p + n2 * q)) + (e1 * p + e2 * q) == (e1 - n1) * p + (e2 - n2) * q + 1 * s
  {
  }

  lemma CandidatesAreShifts(P3: Vec, P1: Vec, P2: Vec, n1: int, n2: int)
    requires |P1| == |P2| == |P3|
    ensures var cs := Candidates(Sub(P3, Add(Scale(n1, P1), Scale(n2, P2))), P1, P2);
      forall i :: 0 <= i < 9 ==> cs[i] == Comb3(Shifts[i].0 - n1, P1, Shifts[i].1 - n2, P2, 1, P3)
  {
    var Q3 := Sub(P3, Add(Scale(n1, P1), Scale(n2, P2)));
    var cs := Candidates(Q3, P1, P2);
    forall i | 0 <= i < 9
      ensures cs[i] == Comb3(Shifts[i].0 - n1, P1, Shifts[i].1 - n2, P2, 1, P3)
    {
      var (e1, e2) := Shifts[i];
      assert forall j :: 0 <= j < |P1| ==> cs[i][j] == Q3[j] + e1 * P1[j] + e2 * P2[j];
      ShiftedCandidate(P3, P1, P2, n1, n2, Q3, cs[i], e1, e2);
    }
  }

  /** A vector Q3 + e1 P1 + e2 P2, with Q3 = P3 - n1 P1 - n2 P2. */
  lemma ShiftedCandidate(P3: Vec, P1: Vec, P2: Vec, n1: int, n2: int, Q3: Vec, C: Vec, e1: int, e2: int)
    requires |P1| == |P2| == |P3| == |Q3| == |C|
    requires Q3 == Sub(P3, Add(Scale(n1, P1), Scale(n2, P2)))
    requires forall j :: 0 <= j < |P1| ==> C[j] == Q3[j] + e1 * P1[j] + e2 * P2[j]
    ensures C == Comb3(e1 - n1, P1, e2 - n2, P2, 1, P3)
  {
    forall j | 0 <= j < |P1|
      ensures C[j] == Comb3(e1 - n1, P1, e2 - n2, P2, 1, P3)[j]
    {
      ShiftArith(n1, n2, e1, e2, P1[j], P2[j], P3[j]);
    }
  }

  /** Q is P3 + (e1 - n1) P1 + (e2 - n2) P2 for the i-th shift, of
      least height among the nine, and strictly lower than every earlier
      one. */
  ghost predicate BestShift(G: seq<seq<int>>, P3: Vec, P1: Vec, P2: Vec, n1: int, n2: int, Q: Vec, i: int)
    requires IsGram(G) && |P1| == |G| && |P2| == |G| && |P3| == |G|
  {
    0 <= i < 9 &&
    Q == Comb3(Shifts[i].0 - n1, P1, Shifts[i].1 - n2, P2, 1, P3) &&
    (forall j :: 0 <= j < 9 ==>
       Height(G, Q) <= Height(G, Comb3(Shifts[j].0 - n1, P1, Shifts[j].1 - n2, P2, 1, P3))) &&
    (forall j :: 0 <= j < i ==>
       Height(G, Q) < Height(G, Comb3(Shifts[j].0 - n1, P1, Shifts[j].1 - n2, P2, 1, P3)))
  }

  lemma FirstMinIsBest(G: seq<seq<int>>, P3: Vec, P1: Vec, P2: Vec, n1: int, n2: int)
    requires IsGram(G) && |P1| == |G| && |P2| == |G| && |P3| == |G|
    ensures var cs := Candidates(Sub(P3, Add(Scale(n1, P1), Scale(n2, P2))), P1, P2);
      BestShift(G, P3, P1, P2, n1, n2, cs[FirstMin(Heights(G, cs))], FirstMin(Heights(G, cs)))
  {
    var cs := Candidates(Sub(P3, Add(Scale(n1, P1), Scale(n2, P2))), P1, P2);
    var hs := Heights(G, cs);
    var i := FirstMin(hs);
    CandidatesAreShifts(P3, P1, P2, n1, n2);
    forall j | 0 <= j < 9
      ensures hs[j] == Height(G, Comb3(Shifts[j].0 - n1, P1, Shifts[j].1 - n2, P2, 1, P3))
    {
    }
  }

  /** `reduce_mod_2d(P3, P1, P2)` for a reduced pair (the source asserts
      h1 <= h2 and 2|h12| <= h1; h1 > 0 holds for a non-torsion point).
      The result is P3 - n1 P1 - n2 P2 + e1 P1 + e2 P2 where (n1, n2) is
      the rounded projection and (e1, e2) one of the nine shifts, with
      height no larger than any of the nine candidates, and the first
      such in the source's order. */
  function ReduceMod2D(G: seq<seq<int>>, P3: Vec, P1: Vec, P2: Vec): (Q: Vec)
    requires IsGram(G) && |P1| == |G| && |P2| == |G| && |P3| == |G|
    requires 0 < Height(G, P1) <= Height(G, P2) && 2 * Abs(Pair(G, P1, P2)) <= Height(G, P1)
    ensures |Q| == |G|
    ensures Det(Height(G, P1), Height(G, P2), Pair(G, P1, P2)) > 0
    ensures exists i :: BestShift(G, P3, P1, P2, RoundedProjection(G, P3, P1, P2).0,
                                  RoundedProjection(G, P3, P1, P2).1, Q, i)
  {
    DetPositive(Height(G, P1), Height(G, P2), Pair(G, P1, P2));
    var (n1, n2) := RoundedProjection(G, P3, P1, P2);
    var Q3 := Sub(P3, Add(Scale(n1, P1), Scale(n2, P2)));
    var cs := Candidates(Q3, P1, P2);
    var i := FirstMin(Heights(G, cs));
    FirstMinIsBest(G, P3, P1, P2, n1, n2);
    cs[i]
  }

  // ---------------------------------------------------------------
  // Independence of a triple is kept by the rank-3 loop
  // ---------------------------------------------------------------

  lemma TwoOfThree(p: Vec, q: Vec, s: Vec, a: int, b: int)
    requires |p| == |q| == |s|
    ensures Comb3(a, p, b, q, 0, s) == Comb(a, p, b, q)
  {
  }

  lemma CauchyAlgebra(h1: int, h2: int, h12: int, hc: int)
    requires h1 > 0 && hc > 0
    requires hc == h12 * h12 * h1 + 2 * h12 * (-h1) * h12 + (-h1) * (-h1) * h2
    ensures Det(h1, h2, h12) > 0
  {
    assert hc == h1 * Det(h1, h2, h12);
    if Det(h1, h2, h12) <= 0 {
      MulNonPos(Det(h1, h2, h12), h1);
    }
  }

  /** The first two points of an independent triple form an independent
      pair: h(P) > 0 and h(P) h(Q) > <P,Q>^2. */
  lemma PairOfTriple(G: seq<seq<int>>, p: Vec, q: Vec, s: Vec)
    requires IsGram(G) && |p| == |G| && |q| == |G| && |s| == |G|
    requires PosDefTriple(G, p, q, s)
    ensures PosDefPair(G, p, q)
  {
    var h1, h2, h12 := Height(G, p), Height(G, q), Pair(G, p, q);
    TwoOfThree(p, q, s, 1, 0);
    CombUnits(p, q);
    assert h1 > 0 by { assert Height(G, Comb3(1, p, 0, q, 0, s)) > 0; }
    TwoOfThree(p, q, s, h12, -h1);
    assert Height(G, Comb3(h12, p, -h1, q, 0, s)) > 0;
    HeightComb(G, h12, p, -h1, q);
    CauchyAlgebra(h1, h2, h12, Height(G, Comb(h12, p, -h1, q)));
  }

  lemma PermuteArith(x: int, y: int, z: int, p: int, q: int, s: int)
    ensures x * p + y * s + z * q == x * p + z * q + y * s
    ensures x * s + y * p + z * q == y * p + z * q + x * s
  {
  }

  /** Reordering a triple to (P1, P3, P2) or (P3, P1, P2) keeps it
      independent. */
  lemma TriplePermute(G: seq<seq<int>>, p: Vec, q: Vec, s: Vec)
    requires IsGram(G) && |p| == |G| && |q| == |G| && |s| == |G|
    requires PosDefTriple(G, p, q, s)
    ensures PosDefTriple(G, p, s, q) && PosDefTriple(G, s, p, q)
  {
    forall x, y, z | x != 0 || y != 0 || z != 0
      ensures Height(G, Comb3(x, p, y, s, z, q)) > 0 && Height(G, Comb3(x, s, y, p, z, q)) > 0
    {
      forall i | 0 <= i < |p|
        ensures Comb3(x, p, y, s, z, q)[i] == Comb3(x, p, z, q, y, s)[i]
        ensures Comb3(x, s, y, p, z, q)[i] == Comb3(y, p, z, q, x, s)[i]
      {
        PermuteArith(x, y, z, p[i], q[i], s[i]);
      }
      assert Comb3(x, p, y, s, z, q) == Comb3(x, p, z, q, y, s);
      assert Comb3(x, s, y, p, z, q) == Comb3(y, p, z, q, x, s);
    }
  }

  lemma BasisArith(x: int, y: int, z: int, a: int, b: int, c: int, d: int, p: int, q: int, s: int)
    ensures x * (a * p + b * q) + y * (c * p + d * q) + z * s
         == (x * a + y * c) * p + (x * b + y * d) * q + z * s
  {
  }

  lemma UnimodularInjective(x: int, y: int, a: int, b: int, c: int, d: int)
    requires Unimodular(a, b, c, d) && x * a + y * c == 0 && x * b + y * d == 0
    ensures x == 0 && y == 0
  {
    assert (x * a + y * c) * d - (x * b + y * d) * c == x * (a * d - b * c);
    assert (x * b + y * d) * a - (x * a + y * c) * b == y * (a * d - b * c);
  }

  lemma {:induction false} BasisComb(p: Vec, q: Vec, s: Vec, a: int, b: int, c: int, d: int, x: int, y: int, z: int)
    requires |p| == |q| == |s|
    ensures Comb3(x, Comb(a, p, b, q), y, Comb(c, p, d, q), z, s)
         == Comb3(x * a + y * c, p, x * b + y * d, q, z, s)
  {
    forall i | 0 <= i < |p|
      ensures Comb3(x, Comb(a, p, b, q), y, Comb(c, p, d, q), z, s)[i]
           == Comb3(x * a + y * c, p, x * b + y * d, q, z, s)[i]
    {
      BasisArith(x, y, z, a, b, c, d, p[i], q[i], s[i]);
    }
  }

  /** A unimodular change of basis of the first two points keeps a triple
      independent. */
  lemma TripleUnimodular(G: seq<seq<int>>, p: Vec, q: Vec, s: Vec, a: int, b: int, c: int, d: int)
    requires IsGram(G) && |p| == |G| && |q| == |G| && |s| == |G|
    requires PosDefTriple(G, p, q, s) && Unimodular(a, b, c, d)
    ensures PosDefTriple(G, Comb(a, p, b, q), Comb(c, p, d, q), s)
  {
    var p', q' := Comb(a, p, b, q), Comb(c, p, d, q);
    forall x, y, z | x != 0 || y != 0 || z != 0
      ensures Height(G, Comb3(x, p', y, q', z, s)) > 0
    {
      BasisComb(p, q, s, a, b, c, d, x, y, z);
      if x * a + y * c == 0 && x * b + y * d == 0 && z == 0 {
        UnimodularInjective(x, y, a, b, c, d);
      }
    }
  }

  lemma ShiftArith3(x: int, y: int, z: int, k1: int, k2: int, p: int, q: int, s: int)
    ensures x * p + y * q + z * (k1 * p + k2 * q + 1 * s)
         == (x + z * k1) * p + (y + z * k2) * q + z * s
  {
  }

  lemma {:induction false} ShiftComb(p: Vec, q: Vec, s: Vec, k1: int, k2: int, x: int, y: int, z: int)
    requires |p| == |q| == |s|
    ensures Comb3(x, p, y, q, z, Comb3(k1, p, k2, q, 1, s)) == Comb3(x + z * k1, p, y + z * k2, q, z, s)
  {
    forall i | 0 <= i < |p|
      ensures Comb3(x, p, y, q, z, Comb3(k1, p, k2, q, 1, s))[i] == Comb3(x + z * k1, p, y + z * k2, q, z, s)[i]
    {
      ShiftArith3(x, y, z, k1, k2, p[i], q[i], s[i]);
    }
  }

  /** Replacing P3 by P3 + k1 P1 + k2 P2 keeps a triple independent. */
  lemma TripleShift(G: seq<seq<int>>, p: Vec, q: Vec, s: Vec, k1: int, k2: int)
    requires IsGram(G) && |p| == |G| && |q| == |G| && |s| == |G|
    requires PosDefTriple(G, p, q, s)
    ensures PosDefTriple(G, p, q, Comb3(k1, p, k2, q, 1, s))
  {
    var s' := Comb3(k1, p, k2, q, 1, s);
    forall x, y, z | x != 0 || y != 0 || z != 0
      ensures Height(G, Comb3(x, p, y, q, z, s')) > 0
    {
      ShiftComb(p, q, s, k1, k2, x, y, z);
      assert x + z * k1 != 0 || y + z * k2 != 0 || z != 0;
    }
  }

  // ---------------------------------------------------------------
  // mreduce_gens
  // ---------------------------------------------------------------

  /** What one pass of the rank-3 loop establishes before its exit
      test: (Q1, Q2) is a reduced pair, Q3 is P3 reduced modulo it, the
      triple is still independent, and (Q1, Q2, Q3) generates the same
      subgroup as (P1, P2, P3). */
  ghost predicate Rank3Pass(G: seq<seq<int>>, P1: Vec, P2: Vec, P3: Vec, Q1: Vec, Q2: Vec, Q3: Vec)
    requires IsGram(G) && |P1| == |G| && |P2| == |G| && |P3| == |G|
  {
    |Q1| == |G| && |Q2| == |G| && |Q3| == |G| && PosDefTriple(G, Q1, Q2, Q3) &&
    0 < Height(G, Q1) < Height(G, Q2) && 2 * Abs(Pair(G, Q1, Q2)) <= Height(G, Q1) &&
    Det(Height(G, Q1), Height(G, Q2), Pair(G, Q1, Q2)) > 0 &&
    (exists i :: BestShift(G, P3, Q1, Q2, RoundedProjection(G, P3, Q1, Q2).0,
                           RoundedProjection(G, P3, Q1, Q2).1, Q3, i)) &&
    SameSpan3(P1, P2, P3, Q1, Q2, Q3)
  }

  /** The pass changes (P1, P2) by a unimodular matrix and then shifts
      P3 by a combination of the new pair: the triple keeps its
      independence and its subgroup. */
  lemma PassKeepsTriple(G: seq<seq<int>>, P1: Vec, P2: Vec, P3: Vec,
                        a: int, b: int, c: int, d: int, k1: int, k2: int)
    requires IsGram(G) && |P1| == |G| && |P2| == |G| && |P3| == |G|
    requires PosDefTriple(G, P1, P2, P3) && Unimodular(a, b, c, d)
    ensures PosDefTriple(G, Comb(a, P1, b, P2), Comb(c, P1, d, P2), P3)
    ensures PosDefTriple(G, Comb(a, P1, b, P2), Comb(c, P1, d, P2),
                         Comb3(k1, Comb(a, P1, b, P2), k2, Comb(c, P1, d, P2), 1, P3))
    ensures SameSpan3(P1, P2, P3, Comb(a, P1, b, P2), Comb(c, P1, d, P2),
                      Comb3(k1, Comb(a, P1, b, P2), k2, Comb(c, P1, d, P2), 1, P3))
  {
    var Q1, Q2 := Comb(a, P1, b, P2), Comb(c, P1, d, P2);
    TripleUnimodular(G, P1, P2, P3, a, b, c, d);
    TripleShift(G, Q1, Q2, P3, k1, k2);
    SameSpan3Unimodular(P1, P2, P3, a, b, c, d);
    SameSpan3Shift(Q1, Q2, P3, k1, k2);
    SameSpan3Trans(P1, P2, P3, Q1, Q2, P3, Q1, Q2, Comb3(k1, Q1, k2, Q2, 1, P3));
  }

  lemma Rank3PassHolds(G: seq<seq<int>>, P1: Vec, P2: Vec, P3: Vec, Q1: Vec, Q2: Vec,
                       a: int, b: int, c: int, d: int)
    requires IsGram(G) && |P1| == |G| && |P2| == |G| && |P3| == |G|
    requires PosDefTriple(G, P1, P2, P3) && PosDefPair(G, P1, P2)
    requires GaussReduced(G, P1, P2, Q1, Q2, a, b, c, d)
    ensures PosDefPair(G, Q1, Q2)
    ensures Rank3Pass(G, P1, P2, P3, Q1, Q2, ReduceMod2D(G, P3, Q1, Q2))
  {
    var Q3 := ReduceMod2D(G, P3, Q1, Q2);
    var n := RoundedProjection(G, P3, Q1, Q2);
    var i :| BestShift(G, P3, Q1, Q2, n.0, n.1, Q3, i);
    var k1, k2 := Shifts[i].0 - n.0, Shifts[i].1 - n.1;
    assert Q3 == Comb3(k1, Q1, k2, Q2, 1, P3);
    PassKeepsTriple(G, P1, P2, P3, a, b, c, d, k1, k2);
    PairOfTriple(G, Q1, Q2, P3);
  }

  /** One pass of the rank-3 loop body up to the exit test: reduce
      (P1, P2), then reduce P3 modulo the new pair; `ok` is false only
      when the 2-D loop ran out of fuel. */
  method Rank3Step(G: seq<seq<int>>, P1: Vec, P2: Vec, P3: Vec, fuel: nat)
    returns (ok: bool, Q1: Vec, Q2: Vec, Q3: Vec)
    requires IsGram(G) && |P1| == |G| && |P2| == |G| && |P3| == |G|
    requires PosDefTriple(G, P1, P2, P3)
    ensures ok ==> Rank3Pass(G, P1, P2, P3, Q1, Q2, Q3)
    ensures !ok ==> fuel < Height(G, P1) || TieWithin(Height(G, P1), Height(G, P2), Pair(G, P1, P2), fuel)
  {
    PairOfTriple(G, P1, P2, P3);
    var pr, a, b, c, d := Gauss2(G, P1, P2, fuel);
    if pr.Diverged? {
      return false, P1, P2, P3;
    }
    Q1, Q2 := pr.value.0, pr.value.1;
    Rank3PassHolds(G, P1, P2, P3, Q1, Q2, a, b, c, d);
    Q3 := ReduceMod2D(G, P3, Q1, Q2);
    ok := true;
  }

  /** `mreduce_gens(gens)` for three points. An already reduced triple
      comes back unchanged. Otherwise each pass reduces (P1, P2) and
      then P3 modulo them; the loop returns only once h(P3) >= h(P2) and
      the triple passes `check_minkowski`, raises RuntimeError when it
      does not, and otherwise reorders to (P1, P3, P2) when h(P1) < h(P3)
      and to (P3, P1, P2) else. The triple stays independent and keeps
      generating the same subgroup. */
  method MReduce3(G: seq<seq<int>>, gens: seq<Vec>, fuel: nat) returns (r: Run<seq<Vec>>)
    requires |gens| == 3 && Dim(G, gens) && PosDefTriple(G, gens[0], gens[1], gens[2])
    ensures CheckMinkowski(G, gens) ==> r == Returned(gens)
    ensures r.Returned? ==>
      |r.value| == 3 && Dim(G, r.value) && CheckMinkowski(G, r.value) &&
      Height(G, r.value[2]) >= Height(G, r.value[1]) &&
      PosDefTriple(G, r.value[0], r.value[1], r.value[2]) &&
      SameSpan3(gens[0], gens[1], gens[2], r.value[0], r.value[1], r.value[2])
    ensures r.Raised? ==> r.error == RuntimeError
  {
    if CheckMinkowski(G, gens) {
      CheckMinkowskiTripleHeights(G, gens);
      SameSpan3Refl(gens[0], gens[1], gens[2]);
      return Returned(gens);
    }
    var P1, P2, P3 := gens[0], gens[1], gens[2];
    SameSpan3Refl(P1, P2, P3);
    var k := fuel;
    while k > 0
      invariant |P1| == |G| && |P2| == |G| && |P3| == |G| && PosDefTriple(G, P1, P2, P3)
      invariant SameSpan3(gens[0], gens[1], gens[2], P1, P2, P3)
    {
      var ok, Q1, Q2, Q3 := Rank3Step(G, P1, P2, P3, fuel);
      if !ok {
        return Diverged;
      }
      SameSpan3Trans(gens[0], gens[1], gens[2], P1, P2, P3, Q1, Q2, Q3);
      P1, P2, P3 := Q1, Q2, Q3;
      var h3 := Height(G, P3);
      if h3 >= Height(G, P2) {
        var newgens := [P1, P2, P3];
        assert newgens[1] == P2 && newgens[2] == P3;
        if !CheckMinkowski(G, newgens) {
          return Raised(RuntimeError);
        }
        return Returned(newgens);
      }
      TriplePermute(G, P1, P2, P3);
      SameSpan3Permute(P1, P2, P3);
      if Height(G, P1) < h3 {
        SameSpan3Trans(gens[0], gens[1], gens[2], P1, P2, P3, P1, P3, P2);
        P1, P2, P3 := P1, P3, P2;
      } else {
        SameSpan3Trans(gens[0], gens[1], gens[2], P1, P2, P3, P3, P1, P2);
        P1, P2, P3 := P3, P1, P2;
      }
      k := k - 1;
    }
    r := Diverged;
  }

  /** Independence of the generators the source expects of its caller:
      a pair or triple whose non-trivial combinations have positive
      height. */
  ghost predicate Independent(G: seq<seq<int>>, gens: seq<Vec>)
    requires Dim(G, gens)
  {
    (|gens| == 2 ==> PosDefPair(G, gens[0], gens[1])) &&
    (|gens| == 3 ==> PosDefTriple(G, gens[0], gens[1], gens[2]))
  }

  /** What `mreduce_gens` promises of its output `red` for input `gens`:
      ranks other than 2 and 3 are passed through; at rank 2 and 3 the
      output generates the same subgroup as the input, rank 2 is Gauss
      reduced with strictly increasing heights and rank 3 passes the
      Minkowski check. */
  ghost predicate MinkowskiReduced(G: seq<seq<int>>, gens: seq<Vec>, red: seq<Vec>)
  {
    |red| == |gens| && Dim(G, red) && Dim(G, gens) &&
    (|gens| < 2 || |gens| > 3 ==> red == gens) &&
    (|gens| == 2 ==>
      Height(G, red[0]) < Height(G, red[1]) &&
      2 * Abs(Pair(G, red[0], red[1])) <= Height(G, red[0]) &&
      SameSpan2(gens[0], gens[1], red[0], red[1])) &&
    (|gens| == 3 ==>
      CheckMinkowski(G, red) && SameSpan3(gens[0], gens[1], gens[2], red[0], red[1], red[2]))
  }

  /** `mreduce_gens(gens)`: unchanged for fewer than 2 or more than 3
      points; otherwise the 2-D loop or the rank-3 loop. */
  method MReduce(G: seq<seq<int>>, gens: seq<Vec>, fuel: nat) returns (r: Run<seq<Vec>>)
    requires Dim(G, gens) && Independent(G, gens)
    ensures |gens| < 2 || |gens| > 3 ==> r == Returned(gens)
    ensures r.Returned? ==> MinkowskiReduced(G, gens, r.value)
    ensures r.Raised? ==> |gens| == 3 && r.error == RuntimeError
    ensures |gens| == 2 && Height(G, gens[0]) <= fuel &&
            !TieWithin(Height(G, gens[0]), Height(G, gens[1]), Pair(G, gens[0], gens[1]), fuel) ==>
      r.Returned?
  {
    if |gens| < 2 || |gens| > 3 {
      return Returned(gens);
    }
    if |gens| == 2 {
      var pr, a, b, c, d := Gauss2(G, gens[0], gens[1], fuel);
      if pr.Diverged? {
        return Diverged;
      }
      SameSpan2Unimodular(gens[0], gens[1], a, b, c, d);
      return Returned([pr.value.0, pr.value.1]);
    }
    r := MReduce3(G, gens, fuel);
  }
}
