/** The second half of red_gens.py: choosing torsion generators of least
    string weight (`reduce_tgens`) and normalising the generators mod
    torsion (`reduce_gens`, with its inner `reduce_one`).

    A point of E(Q) is an integer vector whose last two coordinates are
    its torsion part in Z/c1 x Z/c2 and whose other coordinates are its
    coordinates mod torsion; the Gram matrix of the height pairing has
    zero rows and columns on the torsion coordinates. The string weight
    `len(str(P))` is a function parameter `wt` read on the canonical
    vector of P, and the x-coordinate order used for [2,2] torsion is a
    function parameter `xkey` with the same order as the x-coordinates. */
module RedTors {
  import opened Wrappers
  import opened Arith
  import opened Lattice
  import opened MinKey
  import opened Torsion
  import opened RedGens

  datatype Curve = Curve(gram: seq<seq<int>>, group: Group)

  /** A Gram matrix whose last two coordinates (the torsion part) carry
      no height, and a valid torsion group. */
  predicate ValidCurve(E: Curve)
  {
    IsGram(E.gram) && |E.gram| >= 2 && ValidGroup(E.group) &&
    forall i :: 0 <= i < |E.gram| ==> E.gram[i][|E.gram| - 2] == 0 && E.gram[i][|E.gram| - 1] == 0
  }

  /** The torsion point t as a point of E(Q). */
  function Lift(E: Curve, t: Tors): (L: Vec)
    requires |E.gram| >= 2
    ensures |L| == |E.gram| && L[|L| - 2] == t.a && L[|L| - 1] == t.b
    ensures forall i :: 0 <= i < |L| - 2 ==> L[i] == 0
  {
    Zero(|E.gram| - 2) + [t.a, t.b]
  }

  /** The canonical coordinates of a point: torsion part reduced. */
  function Canon(E: Curve, P: Vec): (Q: Vec)
    requires ValidCurve(E) && |P| == |E.gram|
    ensures |Q| == |P| && forall i :: 0 <= i < |P| - 2 ==> Q[i] == P[i]
    ensures Q[|P| - 2] == P[|P| - 2] % E.group.c1 && Q[|P| - 1] == P[|P| - 1] % E.group.c2
  {
    P[..|P| - 2] + [P[|P| - 2] % E.group.c1, P[|P| - 1] % E.group.c2]
  }

  /** `pt_wt` of a torsion point. */
  function TWeight(E: Curve, wt: Vec -> int, t: Tors): int
    requires |E.gram| >= 2
  {
    wt(Lift(E, t))
  }

  // ---------------------------------------------------------------
  // Torsion carries no height
  // ---------------------------------------------------------------

  lemma {:induction false} DotDisjoint(u: Vec, v: Vec)
    requires |u| == |v| && forall j :: 0 <= j < |u| ==> u[j] == 0 || v[j] == 0
    ensures Dot(u, v) == 0
    decreases |u|
  {
    if |u| > 0 {
      DotDisjoint(u[1..], v[1..]);
    }
  }

  /** A vector supported on the torsion coordinates pairs to zero with
      everything. */
  lemma TorsionPairsToZero(E: Curve, u: Vec, L: Vec)
    requires ValidCurve(E) && |u| == |E.gram| && |L| == |E.gram|
    requires forall i :: 0 <= i < |L| - 2 ==> L[i] == 0
    ensures Pair(E.gram, u, L) == 0
  {
    var G := E.gram;
    forall i | 0 <= i < |G|
      ensures MatVec(G, L)[i] == 0
    {
      DotDisjoint(G[i], L);
    }
    assert MatVec(G, L) == Zero(|G|);
    DotComm(u, Zero(|G|));
    DotZero(u);
  }

  /** Two points that differ only in their torsion part have the same
      height. */
  lemma SameFreePartSameHeight(E: Curve, u: Vec, v: Vec)
    requires ValidCurve(E) && |u| == |E.gram| && |v| == |E.gram|
    requires forall i :: 0 <= i < |u| - 2 ==> u[i] == v[i]
    ensures Height(E.gram, u) == Height(E.gram, v)
  {
    var L := Sub(v, u);
    assert Add(u, L) == v;
    HeightSum(E.gram, u, L);
    TorsionPairsToZero(E, u, L);
    TorsionPairsToZero(E, L, L);
  }

  lemma NegHeight(G: seq<seq<int>>, P: Vec)
    requires IsGram(G) && |P| == |G|
    ensures Height(G, Scale(-1, P)) == Height(G, P)
  {
    assert Comb(-1, P, 0, P) == Scale(-1, P);
    HeightComb(G, -1, P, 0, P);
  }

  // ---------------------------------------------------------------
  // reduce_tgens, cyclic case
  // ---------------------------------------------------------------

  /** `[i for i in range(1, k) if n.gcd(i) == 1]`, in increasing order. */
  function CoprimeMultiples(n: nat, k: nat): (ks: seq<nat>)
    ensures forall i :: i in ks <==> 1 <= i < k && Gcd(n, i) == 1
    ensures forall a, b :: 0 <= a < b < |ks| ==> ks[a] < ks[b]
    decreases k
  {
    if k <= 1 then []
    else
      var ks := CoprimeMultiples(n, k - 1);
      forall a | 0 <= a < |ks| ensures ks[a] < k - 1 {
        assert ks[a] in ks;
      }
      ks + (if Gcd(n, k - 1) == 1 then [k - 1] else [])
  }

  /** The weights of the multiples k P1 for k in ks. */
  function MultipleWeights(E: Curve, wt: Vec -> int, P1: Tors, ks: seq<nat>): (ws: seq<int>)
    requires ValidCurve(E)
    ensures |ws| == |ks|
    ensures forall t :: 0 <= t < |ks| ==> ws[t] == TWeight(E, wt, TMul(E.group, ks[t], P1))
  {
    seq(|ks|, t requires 0 <= t < |ks| => TWeight(E, wt, TMul(E.group, ks[t], P1)))
  }

  /** `reduce_tgens` for one generator P1 of order n1 != 2: the multiple
      i P1 (1 <= i < n1, gcd(n1, i) = 1) first in weight order. */
  function ReduceCyclic(E: Curve, P1: Tors, wt: Vec -> int): Result<Tors>
    requires ValidCurve(E)
  {
    var ks := CoprimeMultiples(Order(E.group, P1), Order(E.group, P1));
    if |ks| == 0 then Err(IndexError)
    else Ok(TMul(E.group, ChosenUnit(E, P1, wt), P1))
  }

  /** The unit i whose multiple i P1 comes first in weight order. */
  function ChosenUnit(E: Curve, P1: Tors, wt: Vec -> int): nat
    requires ValidCurve(E) && |CoprimeMultiples(Order(E.group, P1), Order(E.group, P1))| > 0
  {
    var ks := CoprimeMultiples(Order(E.group, P1), Order(E.group, P1));
    ks[FirstMin(MultipleWeights(E, wt, P1, ks))]
  }

  /** The cyclic choice fails, with IndexError, exactly for a generator
      of order 1. */
  lemma ReduceCyclicFails(E: Curve, P1: Tors, wt: Vec -> int)
    requires ValidCurve(E)
    ensures ReduceCyclic(E, P1, wt).Err? <==> Order(E.group, P1) == 1
    ensures ReduceCyclic(E, P1, wt).Err? ==> ReduceCyclic(E, P1, wt).error == IndexError
  {
    var n1 := Order(E.group, P1);
    if n1 >= 2 {
      GcdOne(n1);
      assert 1 in CoprimeMultiples(n1, n1);
    }
  }

  /** Otherwise it is a multiple of P1 by a unit mod n1 of least weight,
      every smaller unit giving a heavier point. */
  lemma ReduceCyclicChoice(E: Curve, P1: Tors, wt: Vec -> int)
    requires ValidCurve(E) && ReduceCyclic(E, P1, wt).Ok?
    ensures
      var n1, Q := Order(E.group, P1), ReduceCyclic(E, P1, wt).value;
      (exists k: nat :: 1 <= k < n1 && Gcd(n1, k) == 1 && Q == TMul(E.group, k, P1) &&
         forall k': nat :: 1 <= k' < k && Gcd(n1, k') == 1 ==>
           TWeight(E, wt, TMul(E.group, k', P1)) > TWeight(E, wt, Q)) &&
      forall k: nat :: 1 <= k < n1 && Gcd(n1, k) == 1 ==>
        TWeight(E, wt, Q) <= TWeight(E, wt, TMul(E.group, k, P1))
  {
    var n1 := Order(E.group, P1);
    var k0 := ChosenUnit(E, P1, wt);
    ChosenUnitIsUnit(E, P1, wt);
    forall k: nat | 1 <= k < n1 && Gcd(n1, k) == 1
      ensures TWeight(E, wt, TMul(E.group, k0, P1)) <= TWeight(E, wt, TMul(E.group, k, P1))
    {
      ChosenUnitLightest(E, P1, wt, k);
    }
    forall k': nat | 1 <= k' < k0 && Gcd(n1, k') == 1
      ensures TWeight(E, wt, TMul(E.group, k', P1)) > TWeight(E, wt, TMul(E.group, k0, P1))
    {
      EarlierUnitHeavier(E, P1, wt, k');
    }
  }

  lemma ChosenUnitIsUnit(E: Curve, P1: Tors, wt: Vec -> int)
    requires ValidCurve(E) && |CoprimeMultiples(Order(E.group, P1), Order(E.group, P1))| > 0
    ensures 1 <= ChosenUnit(E, P1, wt) < Order(E.group, P1) && Gcd(Order(E.group, P1), ChosenUnit(E, P1, wt)) == 1
  {
    var ks := CoprimeMultiples(Order(E.group, P1), Order(E.group, P1));
    assert ks[FirstMin(MultipleWeights(E, wt, P1, ks))] in ks;
  }

  lemma ChosenUnitLightest(E: Curve, P1: Tors, wt: Vec -> int, k: nat)
    requires ValidCurve(E) && 1 <= k < Order(E.group, P1) && Gcd(Order(E.group, P1), k) == 1
    ensures |CoprimeMultiples(Order(E.group, P1), Order(E.group, P1))| > 0
    ensures TWeight(E, wt, TMul(E.group, ChosenUnit(E, P1, wt), P1)) <= TWeight(E, wt, TMul(E.group, k, P1))
  {
    var ks := CoprimeMultiples(Order(E.group, P1), Order(E.group, P1));
    var ws := MultipleWeights(E, wt, P1, ks);
    assert k in ks;
    var t :| 0 <= t < |ks| && ks[t] == k;
    assert ws[FirstMin(ws)] <= ws[t];
  }

  lemma EarlierUnitHeavier(E: Curve, P1: Tors, wt: Vec -> int, k: nat)
    requires ValidCurve(E) && |CoprimeMultiples(Order(E.group, P1), Order(E.group, P1))| > 0
    requires 1 <= k < ChosenUnit(E, P1, wt) && Gcd(Order(E.group, P1), k) == 1
    ensures TWeight(E, wt, TMul(E.group, k, P1)) > TWeight(E, wt, TMul(E.group, ChosenUnit(E, P1, wt), P1))
  {
    var ks := CoprimeMultiples(Order(E.group, P1), Order(E.group, P1));
    var ws := MultipleWeights(E, wt, P1, ks);
    var f := FirstMin(ws);
    ChosenUnitIsUnit(E, P1, wt);
    assert k in ks;
    var t :| 0 <= t < |ks| && ks[t] == k;
    IncreasingIndex(ks, t, f);
  }

  /** In a strictly increasing list a smaller entry sits earlier. */
  lemma IncreasingIndex(ks: seq<nat>, t: int, f: int)
    requires forall a, b :: 0 <= a < b < |ks| ==> ks[a] < ks[b]
    requires 0 <= t < |ks| && 0 <= f < |ks|
    ensures ks[t] < ks[f] ==> t < f
  {
    if f <= t {
      assert ks[f] <= ks[t];
    }
  }

  // ---------------------------------------------------------------
  // reduce_tgens, two generators: the candidate pairs
  // ---------------------------------------------------------------

  /** i P1 + j P2 */
  function Cell(g: Group, P1: Tors, P2: Tors, i: nat, j: nat): Tors
    requires ValidGroup(g)
  {
    TAdd(g, TMul(g, i, P1), TMul(g, j, P2))
  }

  /** `[P1, P1a, P1b]`: the three points of order 2, with P1a = m P2. */
  function TwoTorsion(g: Group, P1: Tors, P2: Tors, n2: nat): seq<Tors>
    requires ValidGroup(g)
  {
    var P1a := TMul(g, n2 / 2, P2);
    [P1, P1a, TAdd(g, P1, P1a)]
  }

  /** The pairs (P, Q) for P in Ps, P != Q2, in the order of Ps. */
  function PairsWith(Ps: seq<Tors>, Q2: Tors, Q: Tors): (ps: seq<(Tors, Tors)>)
    ensures forall x :: x in ps <==> x.1 == Q && x.0 in Ps && x.0 != Q2
  {
    if |Ps| == 0 then []
    else
      var last := Ps[|Ps| - 1];
      assert Ps == Ps[..|Ps| - 1] + [last];
      PairsWith(Ps[..|Ps| - 1], Q2, Q) + (if last != Q2 then [(last, Q)] else [])
  }

  /** The pairs the innermost loop appends for one (i, j). */
  function CellPairs(g: Group, P1: Tors, P2: Tors, n2: nat, i: nat, j: nat): seq<(Tors, Tors)>
    requires ValidGroup(g)
  {
    var Q := Cell(g, P1, P2, i, j);
    if Order(g, Q) != n2 then [] else PairsWith(TwoTorsion(g, P1, P2, n2), TMul(g, n2 / 2, Q), Q)
  }

  /** The concatenation of a list of lists, in order. */
  function Concat<T>(xss: seq<seq<T>>): seq<T>
  {
    if |xss| == 0 then [] else Concat(xss[..|xss| - 1]) + xss[|xss| - 1]
  }

  lemma {:induction false} ConcatMember<T>(xss: seq<seq<T>>, x: T)
    ensures x in Concat(xss) <==> exists k :: 0 <= k < |xss| && x in xss[k]
  {
    if |xss| > 0 {
      var init := xss[..|xss| - 1];
      ConcatMember(init, x);
      if exists k :: 0 <= k < |xss| && x in xss[k] {
        var k :| 0 <= k < |xss| && x in xss[k];
        if k < |xss| - 1 {
          assert init[k] == xss[k];
        }
      }
    }
  }

  /** The pairs the inner loop appends for one j, one list per i. */
  function RowCells(g: Group, P1: Tors, P2: Tors, n1: nat, n2: nat, j: nat): seq<seq<(Tors, Tors)>>
    requires ValidGroup(g)
  {
    seq(n1, i requires 0 <= i < n1 => CellPairs(g, P1, P2, n2, i, j))
  }

  /** One list per row j. */
  function Rows(g: Group, P1: Tors, P2: Tors, n1: nat, n2: nat): seq<seq<(Tors, Tors)>>
    requires ValidGroup(g)
  {
    seq(n2, j requires 0 <= j < n2 => Concat(RowCells(g, P1, P2, n1, n2, j)))
  }

  /** `gen_pairs` as the loops leave it. */
  function AllPairs(g: Group, P1: Tors, P2: Tors, n1: nat, n2: nat): seq<(Tors, Tors)>
    requires ValidGroup(g)
  {
    Concat(Rows(g, P1, P2, n1, n2))
  }

  /** What the source means a generator pair to be: Q = i P1 + j P2 of
      order n2, and P a point of order 2 outside <Q>. */
  ghost predicate GoodPair(g: Group, P1: Tors, P2: Tors, n1: nat, n2: nat, x: (Tors, Tors))
    requires ValidGroup(g)
  {
    exists i: nat, j: nat :: i < n1 && 0 <= j < n2 && x.1 == Cell(g, P1, P2, i, j) &&
      Order(g, x.1) == n2 && x.0 in TwoTorsion(g, P1, P2, n2) && x.0 != TMul(g, n2 / 2, x.1)
  }

  /** `gen_pairs` holds exactly the good pairs. */
  lemma GenPairsAreGood(g: Group, P1: Tors, P2: Tors, n1: nat, n2: nat, x: (Tors, Tors))
    requires ValidGroup(g)
    ensures x in AllPairs(g, P1, P2, n1, n2) <==> GoodPair(g, P1, P2, n1, n2, x)
  {
    if x in AllPairs(g, P1, P2, n1, n2) {
      ListedPairIsGood(g, P1, P2, n1, n2, x);
    }
    if GoodPair(g, P1, P2, n1, n2, x) {
      GoodPairIsListed(g, P1, P2, n1, n2, x);
    }
  }

  /** The pairs of one cell: Q of order n2, P of order 2 outside <Q>. */
  lemma CellPairsMember(g: Group, P1: Tors, P2: Tors, n2: nat, i: nat, j: nat, x: (Tors, Tors))
    requires ValidGroup(g)
    ensures x in CellPairs(g, P1, P2, n2, i, j) <==>
              x.1 == Cell(g, P1, P2, i, j) && Order(g, x.1) == n2 &&
              x.0 in TwoTorsion(g, P1, P2, n2) && x.0 != TMul(g, n2 / 2, x.1)
  { }

  lemma ListedPairIsGood(g: Group, P1: Tors, P2: Tors, n1: nat, n2: nat, x: (Tors, Tors))
    requires ValidGroup(g) && x in AllPairs(g, P1, P2, n1, n2)
    ensures GoodPair(g, P1, P2, n1, n2, x)
  {
    var rows := Rows(g, P1, P2, n1, n2);
    ConcatMember(rows, x);
    var j :| 0 <= j < n2 && x in rows[j];
    ConcatMember(RowCells(g, P1, P2, n1, n2, j), x);
    var i :| 0 <= i < n1 && x in RowCells(g, P1, P2, n1, n2, j)[i];
    CellPairsMember(g, P1, P2, n2, i, j, x);
  }

  lemma GoodPairIsListed(g: Group, P1: Tors, P2: Tors, n1: nat, n2: nat, x: (Tors, Tors))
    requires ValidGroup(g) && GoodPair(g, P1, P2, n1, n2, x)
    ensures x in AllPairs(g, P1, P2, n1, n2)
  {
    var rows := Rows(g, P1, P2, n1, n2);
    var i: nat, j: nat :| i < n1 && 0 <= j < n2 && x.1 == Cell(g, P1, P2, i, j) &&
      Order(g, x.1) == n2 && x.0 in TwoTorsion(g, P1, P2, n2) && x.0 != TMul(g, n2 / 2, x.1);
    CellPairsMember(g, P1, P2, n2, i, j, x);
    assert x in RowCells(g, P1, P2, n1, n2, j)[i];
    ConcatMember(RowCells(g, P1, P2, n1, n2, j), x);
    assert x in rows[j];
    ConcatMember(rows, x);
  }

  /** The innermost loop: append (P, Q) for each P in Ps other than Q2. */
  method AppendPairs(pairs: seq<(Tors, Tors)>, Ps: seq<Tors>, Q2: Tors, Q: Tors)
    returns (pairs': seq<(Tors, Tors)>)
    ensures pairs' == pairs + PairsWith(Ps, Q2, Q)
  {
    pairs' := pairs;
    for k := 0 to |Ps|
      invariant pairs' == pairs + PairsWith(Ps[..k], Q2, Q)
    {
      assert Ps[..k + 1][..k] == Ps[..k];
      var P := Ps[k];
      if P != Q2 {
        pairs' := pairs' + [(P, Q)];
      }
    }
    assert Ps[..|Ps|] == Ps;
  }

  /** The middle loop, over i, for one j. */
  method AppendRow(pairs: seq<(Tors, Tors)>, g: Group, P1: Tors, P2: Tors, n1: nat, n2: nat, j: nat)
    returns (pairs': seq<(Tors, Tors)>)
    requires ValidGroup(g)
    ensures pairs' == pairs + Concat(RowCells(g, P1, P2, n1, n2, j))
  {
    var m := n2 / 2;
    var P1a := TMul(g, m, P2);
    var Ps := [P1, P1a, TAdd(g, P1, P1a)];
    var jP2 := TMul(g, j, P2);
    ghost var cells := RowCells(g, P1, P2, n1, n2, j);
    pairs' := pairs;
    for i := 0 to n1
      invariant pairs' == pairs + Concat(cells[..i])
    {
      var Q := TAdd(g, TMul(g, i, P1), jP2);
      assert Q == Cell(g, P1, P2, i, j);
      ConcatExtend(pairs, cells, i);
      if Order(g, Q) != n2 {
        assert cells[i] == [];
        assert pairs' + cells[i] == pairs';
        continue;
      }
      var Q2 := TMul(g, m, Q);
      pairs' := AppendPairs(pairs', Ps, Q2, Q);
      assert cells[i] == PairsWith(Ps, Q2, Q);
    }
    assert cells[..n1] == cells;
  }

  /** The concatenation grows by one list at a time. */
  lemma ConcatExtend<T>(base: seq<T>, xss: seq<seq<T>>, i: nat)
    requires i < |xss|
    ensures base + Concat(xss[..i + 1]) == (base + Concat(xss[..i])) + xss[i]
  {
    assert xss[..i + 1][..i] == xss[..i];
  }

  /** The nested loops that build `gen_pairs`. */
  method GenPairs(g: Group, P1: Tors, P2: Tors, n1: nat, n2: nat) returns (pairs: seq<(Tors, Tors)>)
    requires ValidGroup(g)
    ensures pairs == AllPairs(g, P1, P2, n1, n2)
  {
    ghost var rows := Rows(g, P1, P2, n1, n2);
    pairs := [];
    for j := 0 to n2
      invariant pairs == Concat(rows[..j])
    {
      pairs := AppendRow(pairs, g, P1, P2, n1, n2, j);
      assert rows[..j + 1][..j] == rows[..j];
    }
    assert rows[..n2] == rows;
  }

  /** `gen_pairs` is never empty once the source's assertion on the
      orders holds: (P1, P2) or (P1b, P2) is a good pair. */
  lemma GenPairsNonEmpty(g: Group, P1: Tors, P2: Tors, n1: nat, n2: nat)
    requires ValidGroup(g) && InGroup(g, P1) && InGroup(g, P2)
    requires n1 == Order(g, P1) == 2 && n2 == Order(g, P2) && n2 >= 2
    ensures |AllPairs(g, P1, P2, n1, n2)| > 0
  {
    var m := n2 / 2;
    var P1a := TMul(g, m, P2);
    MulZeroOne(g, P1);
    MulZeroOne(g, P2);
    AddIdentity(g, P2);
    assert Cell(g, P1, P2, 0, 1) == P2;
    OrderIsLeast(g, P2, m);
    var P := if P1 != P1a then P1 else TAdd(g, P1, P1a);
    if P == P1a {
      AddSelfIdentity(g, P1a);
    }
    assert GoodPair(g, P1, P2, n1, n2, (P, P2));
    GenPairsAreGood(g, P1, P2, n1, n2, (P, P2));
  }

  function PairWeights(E: Curve, wt: Vec -> int, ps: seq<(Tors, Tors)>): (ws: seq<int>)
    requires |E.gram| >= 2
    ensures |ws| == |ps|
    ensures forall t :: 0 <= t < |ps| ==> ws[t] == TWeight(E, wt, ps[t].0) + TWeight(E, wt, ps[t].1)
  {
    seq(|ps|, t requires 0 <= t < |ps| => TWeight(E, wt, ps[t].0) + TWeight(E, wt, ps[t].1))
  }

  /** The generators as the source orders them before the search: by
      increasing order. */
  function SortByOrder(g: Group, ts: seq<Tors>): seq<Tors>
    requires ValidGroup(g) && |ts| == 2
  {
    if Order(g, ts[0]) > Order(g, ts[1]) then [ts[1], ts[0]] else ts
  }

  /** For [2,2] the pair is put in x-coordinate order. */
  function OrderByX(E: Curve, xkey: Vec -> int, n2: nat, best: (Tors, Tors)): seq<Tors>
    requires |E.gram| >= 2
  {
    if n2 == 2 && xkey(Lift(E, best.1)) < xkey(Lift(E, best.0)) then [best.1, best.0]
    else [best.0, best.1]
  }

  /** `reduce_tgens(tgens)` as a value. */
  function ReducedTorsion(E: Curve, ts: seq<Tors>, wt: Vec -> int, xkey: Vec -> int): Result<seq<Tors>>
    requires ValidCurve(E)
  {
    if |ts| == 0 then Ok(ts)
    else if |ts| == 1 then
      if Order(E.group, ts[0]) == 2 then Ok(ts)
      else
        var c := ReduceCyclic(E, ts[0], wt);
        if c.Err? then Err(c.error) else Ok([c.value])
    else if |ts| != 2 then Err(AssertionError)
    else
      var ps := SortByOrder(E.group, ts);
      var n1, n2 := Order(E.group, ps[0]), Order(E.group, ps[1]);
      if !(n1 == 2 && n2 in {2, 4, 6, 8}) then Err(AssertionError)
      else
        var pairs := AllPairs(E.group, ps[0], ps[1], n1, n2);
        if |pairs| == 0 then Err(IndexError)
        else Ok(OrderByX(E, xkey, n2, pairs[FirstMin(PairWeights(E, wt, pairs))]))
  }

  /** The two assertions of the source: more than two generators, or two
      whose orders are not 2 and one of 2, 4, 6, 8, raise
      AssertionError; otherwise the result is a good pair of least total
      weight, first among the pairs of that weight in loop order, and
      for [2,2] in x-coordinate order. */
  lemma ReducedTorsionPair(E: Curve, ts: seq<Tors>, wt: Vec -> int, xkey: Vec -> int)
    requires ValidCurve(E) && |ts| >= 2 && forall i :: 0 <= i < |ts| ==> InGroup(E.group, ts[i])
    ensures |ts| > 2 ==> ReducedTorsion(E, ts, wt, xkey) == Err(AssertionError)
    ensures |ts| == 2 ==>
      var ps := SortByOrder(E.group, ts);
      var n1, n2 := Order(E.group, ps[0]), Order(E.group, ps[1]);
      var pairs := AllPairs(E.group, ps[0], ps[1], n1, n2);
      var r := ReducedTorsion(E, ts, wt, xkey);
      (r == Err(AssertionError) <==> !(n1 == 2 && n2 in {2, 4, 6, 8})) &&
      (r.Ok? ==>
         exists t :: 0 <= t < |pairs| &&
           GoodPair(E.group, ps[0], ps[1], n1, n2, pairs[t]) &&
           r.value == OrderByX(E, xkey, n2, pairs[t]) &&
           (forall s :: 0 <= s < |pairs| ==> PairWeights(E, wt, pairs)[t] <= PairWeights(E, wt, pairs)[s]) &&
           (forall s :: 0 <= s < t ==> PairWeights(E, wt, pairs)[s] > PairWeights(E, wt, pairs)[t]))
  {
    if |ts| == 2 {
      var ps := SortByOrder(E.group, ts);
      var n1, n2 := Order(E.group, ps[0]), Order(E.group, ps[1]);
      var pairs := AllPairs(E.group, ps[0], ps[1], n1, n2);
      if n1 == 2 && n2 in {2, 4, 6, 8} {
        assert InGroup(E.group, ps[0]) && InGroup(E.group, ps[1]);
        LightestPairIsGood(E, ps[0], ps[1], wt);
        var t := FirstMin(PairWeights(E, wt, pairs));
        assert ReducedTorsion(E, ts, wt, xkey) == Ok(OrderByX(E, xkey, n2, pairs[t]));
      }
    }
  }

  /** The first pair of least weight exists and is good. */
  lemma LightestPairIsGood(E: Curve, P1: Tors, P2: Tors, wt: Vec -> int)
    requires ValidCurve(E) && InGroup(E.group, P1) && InGroup(E.group, P2)
    requires Order(E.group, P1) == 2 && Order(E.group, P2) >= 2
    ensures var n1, n2 := Order(E.group, P1), Order(E.group, P2);
      var pairs := AllPairs(E.group, P1, P2, n1, n2);
      |pairs| > 0 && GoodPair(E.group, P1, P2, n1, n2, pairs[FirstMin(PairWeights(E, wt, pairs))])
  {
    var n1, n2 := Order(E.group, P1), Order(E.group, P2);
    var pairs := AllPairs(E.group, P1, P2, n1, n2);
    GenPairsNonEmpty(E.group, P1, P2, n1, n2);
    GenPairsAreGood(E.group, P1, P2, n1, n2, pairs[FirstMin(PairWeights(E, wt, pairs))]);
  }

  /** One generator of order 2, or none: returned as given. */
  lemma ReducedTorsionSmall(E: Curve, ts: seq<Tors>, wt: Vec -> int, xkey: Vec -> int)
    requires ValidCurve(E) && |ts| <= 1
    ensures |ts| == 0 || Order(E.group, ts[0]) == 2 ==> ReducedTorsion(E, ts, wt, xkey) == Ok(ts)
    ensures |ts| == 1 && Order(E.group, ts[0]) == 1 ==> ReducedTorsion(E, ts, wt, xkey) == Err(IndexError)
    ensures |ts| == 1 && Order(E.group, ts[0]) > 2 ==>
      ReduceCyclic(E, ts[0], wt).Ok? && ReducedTorsion(E, ts, wt, xkey) == Ok([ReduceCyclic(E, ts[0], wt).value])
  {
    if |ts| == 1 {
      ReduceCyclicFails(E, ts[0], wt);
    }
  }

  /** `reduce_tgens(tgens)`: two generators are put in order of
      increasing order in place (`tgens.reverse()`) before the search. */
  method ReduceTGens(E: Curve, tgens: array<Tors>, wt: Vec -> int, xkey: Vec -> int)
    returns (r: Result<seq<Tors>>)
    requires ValidCurve(E)
    modifies tgens
    ensures r == ReducedTorsion(E, old(tgens[..]), wt, xkey)
    ensures tgens[..] == if tgens.Length == 2 then SortByOrder(E.group, old(tgens[..])) else old(tgens[..])
  {
    var g := E.group;
    var len := tgens.Length;
    if len == 0 {
      return Ok(tgens[..]);
    }
    if len == 1 {
      var P1 := tgens[0];
      var n1 := Order(g, P1);
      if n1 == 2 {
        return Ok(tgens[..]);
      }
      var c := ReduceCyclic(E, P1, wt);
      if c.Err? {
        return Err(c.error);
      }
      return Ok([c.value]);
    }
    if len != 2 {
      return Err(AssertionError);
    }
    if Order(g, tgens[0]) > Order(g, tgens[1]) {
      tgens[0], tgens[1] := tgens[1], tgens[0];
    }
    assert tgens[..] == SortByOrder(g, old(tgens[..]));
    var P1, P2 := tgens[0], tgens[1];
    var n1, n2 := Order(g, P1), Order(g, P2);
    if !(n1 == 2 && n2 in {2, 4, 6, 8}) {
      return Err(AssertionError);
    }
    var pairs := GenPairs(g, P1, P2, n1, n2);
    if |pairs| == 0 {
      return Err(IndexError);
    }
    var best := pairs[FirstMin(PairWeights(E, wt, pairs))];
    r := Ok(OrderByX(E, xkey, n2, best));
  }

  // ---------------------------------------------------------------
  // reduce_gens
  // ---------------------------------------------------------------

  /** `[P + T for T in Tlist] + [-P + T for T in Tlist]` */
  function Translates(E: Curve, P: Vec, Tlist: seq<Tors>): (cs: seq<Vec>)
    requires ValidCurve(E) && |P| == |E.gram|
    ensures |cs| == 2 * |Tlist|
    ensures forall k :: 0 <= k < |Tlist| ==>
      cs[k] == Add(P, Lift(E, Tlist[k])) && cs[|Tlist| + k] == Add(Scale(-1, P), Lift(E, Tlist[k]))
  {
    seq(|Tlist|, k requires 0 <= k < |Tlist| => Add(P, Lift(E, Tlist[k]))) +
    seq(|Tlist|, k requires 0 <= k < |Tlist| => Add(Scale(-1, P), Lift(E, Tlist[k])))
  }

  function PointWeights(E: Curve, wt: Vec -> int, cs: seq<Vec>): (ws: seq<int>)
    requires ValidCurve(E) && forall k :: 0 <= k < |cs| ==> |cs[k]| == |E.gram|
    ensures |ws| == |cs| && forall k :: 0 <= k < |cs| ==> ws[k] == wt(Canon(E, cs[k]))
  {
    seq(|cs|, k requires 0 <= k < |cs| => wt(Canon(E, cs[k])))
  }

  /** A translate of P or -P by a torsion point keeps the height. */
  lemma TranslateHeight(E: Curve, P: Vec, s: int, L: Vec)
    requires ValidCurve(E) && |P| == |E.gram| && |L| == |E.gram| && (s == 1 || s == -1)
    requires forall i :: 0 <= i < |L| - 2 ==> L[i] == 0
    ensures Height(E.gram, Canon(E, Add(Scale(s, P), L))) == Height(E.gram, P)
  {
    var X := Add(Scale(s, P), L);
    SameFreePartSameHeight(E, Canon(E, X), X);
    SameFreePartSameHeight(E, X, Scale(s, P));
    if s == -1 {
      NegHeight(E.gram, P);
    } else {
      assert Scale(s, P) == P;
    }
  }

  /** Q is the i-th of the points cs, of least weight, and every earlier
      one is heavier. */
  ghost predicate FirstLightest(E: Curve, wt: Vec -> int, cs: seq<Vec>, Q: Vec, i: int)
    requires ValidCurve(E) && forall k :: 0 <= k < |cs| ==> |cs[k]| == |E.gram|
  {
    0 <= i < |cs| && Q == Canon(E, cs[i]) &&
    (forall k :: 0 <= k < |cs| ==> wt(Q) <= wt(Canon(E, cs[k]))) &&
    (forall k :: 0 <= k < i ==> wt(Canon(E, cs[k])) > wt(Q))
  }

  lemma FirstMinLightest(E: Curve, wt: Vec -> int, cs: seq<Vec>)
    requires ValidCurve(E) && |cs| > 0 && forall k :: 0 <= k < |cs| ==> |cs[k]| == |E.gram|
    ensures var i := FirstMin(PointWeights(E, wt, cs)); FirstLightest(E, wt, cs, Canon(E, cs[i]), i)
  {
  }

  /** `reduce_one(P)`: of the points +-P + T, T in Tlist (listed by
      `Translates`), the first of least weight; it has the height of P. */
  function ReduceOne(E: Curve, P: Vec, Tlist: seq<Tors>, wt: Vec -> int): (Q: Vec)
    requires ValidCurve(E) && |P| == |E.gram| && |Tlist| > 0
    ensures |Q| == |P| && Height(E.gram, Q) == Height(E.gram, P)
    ensures exists i :: FirstLightest(E, wt, Translates(E, P, Tlist), Q, i)
  {
    var cs := Translates(E, P, Tlist);
    var i := FirstMin(PointWeights(E, wt, cs));
    TranslatesHeight(E, P, Tlist, i);
    FirstMinLightest(E, wt, cs);
    Canon(E, cs[i])
  }

  lemma TranslatesHeight(E: Curve, P: Vec, Tlist: seq<Tors>, i: int)
    requires ValidCurve(E) && |P| == |E.gram| && 0 <= i < 2 * |Tlist|
    ensures Height(E.gram, Canon(E, Translates(E, P, Tlist)[i])) == Height(E.gram, P)
  {
    assert Scale(1, P) == P;
    if i < |Tlist| {
      TranslateHeight(E, P, 1, Lift(E, Tlist[i]));
    } else {
      TranslateHeight(E, P, -1, Lift(E, Tlist[i - |Tlist|]));
    }
  }

  /** Without torsion generators the only translate is by 0, so
      `reduce_one` picks P or -P. */
  lemma ReduceOneWithoutTorsion(E: Curve, P: Vec, wt: Vec -> int)
    requires ValidCurve(E) && |P| == |E.gram|
    ensures ReduceOne(E, P, [Identity], wt) == Canon(E, P) ||
            ReduceOne(E, P, [Identity], wt) == Canon(E, Scale(-1, P))
  {
    assert Lift(E, Identity) == Zero(|E.gram|);
    var cs := Translates(E, P, [Identity]);
    assert cs[0] == P && cs[1] == Scale(-1, P);
  }

  /** `reduce_gens(gens, tgens)`. The LLL reduction of `gens` (a call
      into Sage) is the parameter `lllGens`, the list of all torsion
      points is `torsionPoints`; the result is the pair (new generators
      mod torsion, new torsion generators). */
  method ReduceGens(E: Curve, gens: seq<Vec>, tgens: array<Tors>, lllGens: seq<Vec>,
                    torsionPoints: seq<Tors>, wt: Vec -> int, xkey: Vec -> int, fuel: nat)
    returns (r: Run<(seq<Vec>, seq<Tors>)>, ghost reduced: seq<Vec>)
    requires ValidCurve(E) && |torsionPoints| > 0
    requires |lllGens| == |gens| && Dim(E.gram, lllGens) && Independent(E.gram, lllGens)
    modifies tgens
    ensures tgens[..] == if tgens.Length == 2 then SortByOrder(E.group, old(tgens[..])) else old(tgens[..])
    ensures ReducedTorsion(E, old(tgens[..]), wt, xkey).Err? ==>
      r == Raised(ReducedTorsion(E, old(tgens[..]), wt, xkey).error)
    ensures r.Returned? ==> ReducedTorsion(E, old(tgens[..]), wt, xkey) == Ok(r.value.1)
    ensures r.Raised? ==> ReducedTorsion(E, old(tgens[..]), wt, xkey).Err? || (|gens| == 3 && r.error == RuntimeError)
    ensures |gens| == 0 && ReducedTorsion(E, old(tgens[..]), wt, xkey).Ok? ==> r.Returned? && r.value.0 == []
    ensures r.Returned? && |gens| > 0 ==>
      var Tlist := if tgens.Length > 0 then torsionPoints else [Identity];
      MinkowskiReduced(E.gram, lllGens, reduced) && |r.value.0| == |gens| &&
      forall k :: 0 <= k < |gens| ==> r.value.0[k] == ReduceOne(E, reduced[k], Tlist, wt)
  {
    reduced := [];
    var rtgens := ReduceTGens(E, tgens, wt, xkey);
    if rtgens.Err? {
      return Raised(rtgens.error), reduced;
    }
    if |gens| == 0 {
      return Returned(([], rtgens.value)), reduced;
    }
    var Tlist := if tgens.Length > 0 then torsionPoints else [Identity];
    var newgens;
    newgens, reduced := ReduceFree(E, lllGens, Tlist, wt, fuel);
    r := match newgens
      case Returned(v) => Returned((v, rtgens.value))
      case Raised(e) => Raised(e)
      case Diverged => Diverged;
  }

  /** The generators' part of `reduce_gens`: Minkowski reduction of the
      LLL-reduced generators, then `reduce_one` on each of them. */
  method ReduceFree(E: Curve, lllGens: seq<Vec>, Tlist: seq<Tors>, wt: Vec -> int, fuel: nat)
    returns (r: Run<seq<Vec>>, ghost reduced: seq<Vec>)
    requires ValidCurve(E) && |Tlist| > 0
    requires Dim(E.gram, lllGens) && Independent(E.gram, lllGens)
    ensures r.Raised? ==> |lllGens| == 3 && r.error == RuntimeError
    ensures r.Returned? ==>
      MinkowskiReduced(E.gram, lllGens, reduced) && |r.value| == |lllGens| &&
      forall k :: 0 <= k < |lllGens| ==> r.value[k] == ReduceOne(E, reduced[k], Tlist, wt)
  {
    reduced := [];
    var m := MReduce(E.gram, lllGens, fuel);
    if !m.Returned? {
      r := if m.Raised? then Raised(m.error) else Diverged;
      return;
    }
    var red := m.value;
    reduced := red;
    r := Returned(seq(|red|, k requires 0 <= k < |red| => ReduceOne(E, red[k], Tlist, wt)));
  }
}
