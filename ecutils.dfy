/** scripts/ec_utils.py: `map_points` with the largest prime isogeny
    degree and resaturation, and the generator search `get_gens` with
    its rank-1 fallbacks. Saturation, point search and Heegner points
    are Sage/PARI/Magma calls and come in as parameters; the mwrank
    working precision is a global the code sets and restores. */
module EcUtils {
  import opened Wrappers
  import opened Arith
  import Ecdb
  import opened MagmaCounter

  /** `mwrank_saturation_precision` and `mwrank_saturation_maxprime`. */
  const SaturationPrecision: int := 1000
  const SaturationMaxPrime: nat := 1000

  /** mwrank's global working precision. */
  class Mwrank {
    var precision: int

    constructor(p: int)
      ensures precision == p
    {
      precision := p;
    }
  }

  /** A saturation call `E.saturation(points, max_prime=p)` made at
      working precision `prec`; only the saturated points are kept. */
  type Saturate<!Pt> = (seq<Pt>, nat, int) -> seq<Pt>

  // ---------------------------------------------------------------
  // maxp
  // ---------------------------------------------------------------

  predicate PositiveDegrees<Pt>(maps: Ecdb.IsogenyMatrix<Pt>)
  {
    forall i, j :: 0 <= i < |maps| && 0 <= j < |maps[i]| && maps[i][j].Some? ==> maps[i][j].value.degree >= 1
  }

  /** A prime dividing the degree of the map at (i, j). */
  predicate DividesDegree<Pt>(maps: Ecdb.IsogenyMatrix<Pt>, i: int, j: int, q: int)
  {
    0 <= i < |maps| && 0 <= j < |maps[i]| && maps[i][j].Some? && q >= 1 && maps[i][j].value.degree % q == 0
  }

  /** `max(phi.degree().support(), default=0) if phi else 0`. */
  function EntryMaxPrime<Pt>(e: Option<Ecdb.Isogeny<Pt>>): (p: nat)
    requires e.Some? ==> e.value.degree >= 1
  {
    if e.None? then 0 else LargestPrimeFactor(e.value.degree)
  }

  /** The largest prime over the first k entries of a row. */
  function RowMaxPrime<Pt>(maps: Ecdb.IsogenyMatrix<Pt>, i: nat, k: nat): (p: nat)
    requires PositiveDegrees(maps) && i < |maps| && k <= |maps[i]|
    ensures p == 0 || (IsPrime(p) && exists j :: 0 <= j < k && DividesDegree(maps, i, j, p))
    ensures forall j, q :: 0 <= j < k && IsPrime(q) && DividesDegree(maps, i, j, q) ==> q <= p
  {
    if k == 0 then 0
    else
      var rest := RowMaxPrime(maps, i, k - 1);
      var e := EntryMaxPrime(maps[i][k - 1]);
      assert e != 0 ==> IsPrime(e) && DividesDegree(maps, i, k - 1, e);
      assert forall q :: IsPrime(q) && DividesDegree(maps, i, k - 1, q) ==> q <= e;
      if e > rest then e else rest
  }

  /** The largest prime over the first k rows. */
  function MaxPrimeRows<Pt>(maps: Ecdb.IsogenyMatrix<Pt>, k: nat): (p: nat)
    requires PositiveDegrees(maps) && k <= |maps|
    ensures p == 0 || (IsPrime(p) && exists i, j :: 0 <= i < k && DividesDegree(maps, i, j, p))
    ensures forall i, j, q :: 0 <= i < k && IsPrime(q) && DividesDegree(maps, i, j, q) ==> q <= p
  {
    if k == 0 then 0
    else
      var rest := MaxPrimeRows(maps, k - 1);
      var r := RowMaxPrime(maps, k - 1, |maps[k - 1]|);
      if r > rest then r else rest
  }

  /** `maxp`: the largest prime dividing the degree of any map present
      (0 when there is none). */
  function MaxP<Pt>(maps: Ecdb.IsogenyMatrix<Pt>): (p: nat)
    requires PositiveDegrees(maps)
    ensures p == 0 || (IsPrime(p) && exists i, j :: DividesDegree(maps, i, j, p))
    ensures forall i, j, q :: IsPrime(q) && DividesDegree(maps, i, j, q) ==> q <= p
  {
    MaxPrimeRows(maps, |maps|)
  }

  // ---------------------------------------------------------------
  // map_points
  // ---------------------------------------------------------------

  /** The propagation loop of ec_utils `map_points`: the ecdb.py loop,
      but leaving by `break` when nfill == ncurves is seen at the top of
      row i, and otherwise running all rows. */
  function FillUntilFull<Pt>(maps: Ecdb.IsogenyMatrix<Pt>, Plist: seq<Pt>, i: nat): (st: Ecdb.Fill<Pt>)
    requires Ecdb.IsSquare(maps) && 1 <= |maps|
    ensures |st.lists| == |maps|
    decreases |maps| - i
  {
    if i >= |maps| then Ecdb.FillRows(maps, Plist, |maps|)
    else if Ecdb.FillRows(maps, Plist, i).nfill == |maps| then Ecdb.FillRows(maps, Plist, i)
    else FillUntilFull(maps, Plist, i + 1)
  }

  /** The saturated lists: entry 0 kept, every other list saturated at
      primes up to maxp. */
  function SaturateAll<Pt>(Q: seq<seq<Pt>>, maxp: nat, saturate: Saturate<Pt>): (R: seq<seq<Pt>>)
    requires |Q| >= 1
    ensures |R| == |Q| && R[0] == Q[0]
    ensures forall i :: 1 <= i < |Q| ==> R[i] == saturate(Q[i], maxp, SaturationPrecision)
  {
    [Q[0]] + seq(|Q| - 1, i requires 0 <= i < |Q| - 1 => saturate(Q[i + 1], maxp, SaturationPrecision))
  }

  /** ec_utils `map_points` as a value: resaturating curve i >= 1 reads
      `Qlists[i][0]` first, so a list left empty by the loop raises
      IndexError. */
  function MapPointsSatSpec<Pt>(maps: Ecdb.IsogenyMatrix<Pt>, Plist: seq<Pt>, saturate: Saturate<Pt>)
    : Result<seq<seq<Pt>>>
    requires Ecdb.IsSquare(maps) && PositiveDegrees(maps)
  {
    if |Plist| == 0 then Ok(seq(|maps|, _ => []))
    else if |maps| <= 1 then Ok([Plist])
    else
      var Q := FillUntilFull(maps, Plist, 0).lists;
      if exists i :: 1 <= i < |maps| && Q[i] == [] then Err(IndexError)
      else Ok(SaturateAll(Q, MaxP(maps), saturate))
  }

  /** ec_utils `map_points`. */
  method MapPointsSat<Pt>(maps: Ecdb.IsogenyMatrix<Pt>, Plist: seq<Pt>, saturate: Saturate<Pt>, mw: Mwrank)
    returns (r: Result<seq<seq<Pt>>>)
    requires Ecdb.IsSquare(maps) && PositiveDegrees(maps)
    modifies mw
    ensures r == MapPointsSatSpec(maps, Plist, saturate)
    ensures r.Ok? ==> mw.precision == old(mw.precision)
    ensures r.Err? ==> mw.precision == SaturationPrecision
  {
    var n := |maps|;
    if |Plist| == 0 {
      return Ok(seq(n, _ => []));
    }
    if n <= 1 {
      // for n == 0 the list is [Plist] + [] and both loops are empty
      return Ok([Plist]);
    }
    var maxp := MaxP(maps);
    var Q := FillPass(maps, Plist);
    r := Resaturate(Q, maxp, saturate, mw);
  }

  /** The saturation loop: precision set to `mwrank_saturation_precision`,
      each list i >= 1 saturated in turn, precision restored at the end
      but not when reading `Qlists[i][0]` raises. */
  method Resaturate<Pt>(Q: seq<seq<Pt>>, maxp: nat, saturate: Saturate<Pt>, mw: Mwrank)
    returns (r: Result<seq<seq<Pt>>>)
    requires |Q| >= 1
    modifies mw
    ensures (exists i :: 1 <= i < |Q| && Q[i] == []) ==> r == Err(IndexError) && mw.precision == SaturationPrecision
    ensures (forall i :: 1 <= i < |Q| ==> Q[i] != []) ==>
      r == Ok(SaturateAll(Q, maxp, saturate)) && mw.precision == old(mw.precision)
  {
    var prec0 := mw.precision;
    mw.precision := SaturationPrecision;
    var R := Q;
    for i := 1 to |Q|
      invariant |R| == |Q| && R[0] == Q[0] && mw.precision == SaturationPrecision
      invariant forall k :: 1 <= k < i ==> Q[k] != [] && R[k] == saturate(Q[k], maxp, SaturationPrecision)
      invariant forall k :: i <= k < |Q| ==> R[k] == Q[k]
    {
      if R[i] == [] {
        return Err(IndexError);
      }
      R := R[i := saturate(R[i], maxp, mw.precision)];
    }
    mw.precision := prec0;
    r := Ok(R);
    assert R == SaturateAll(Q, maxp, saturate);
  }

  /** The nested loops with `break`. */
  method FillPass<Pt>(maps: Ecdb.IsogenyMatrix<Pt>, Plist: seq<Pt>) returns (Q: seq<seq<Pt>>)
    requires Ecdb.IsSquare(maps) && 1 <= |maps|
    ensures Q == FillUntilFull(maps, Plist, 0).lists
  {
    var n := |maps|;
    Q := [Plist] + seq(n - 1, _ => []);
    var nfill := 1;
    var i := 0;
    while i < n
      invariant 0 <= i <= n
      invariant Ecdb.Fill(Q, nfill) == Ecdb.FillRows(maps, Plist, i)
      invariant FillUntilFull(maps, Plist, 0) == FillUntilFull(maps, Plist, i)
    {
      if nfill == n {
        break;
      }
      for j := 1 to n
        invariant Ecdb.Fill(Q, nfill) == Ecdb.FillRow(maps, Ecdb.FillRows(maps, Plist, i), i, j)
      {
        if maps[i][j].Some? && Q[j] == [] {
          Q := Q[j := Ecdb.Image(maps[i][j].value.apply, Q[i])];
          nfill := nfill + 1;
        }
      }
      i := i + 1;
    }
  }

  /** Where the ecdb.py loop returns, the ec_utils loop breaks with the
      same lists. */
  lemma {:induction false} BreakAgreesWithReturn<Pt>(maps: Ecdb.IsogenyMatrix<Pt>, Plist: seq<Pt>, i: nat)
    requires Ecdb.IsSquare(maps) && 1 <= |maps| && Ecdb.ReturnAtFull(maps, Plist, i).Some?
    ensures Ecdb.ReturnAtFull(maps, Plist, i).value == FillUntilFull(maps, Plist, i).lists
    decreases |maps| - i
  {
    if Ecdb.FillRows(maps, Plist, i).nfill != |maps| {
      BreakAgreesWithReturn(maps, Plist, i + 1);
    }
  }

  /** The lists the ec_utils loop leaves are consistent with the maps:
      entry 0 is Plist and every other non-empty entry is the image of
      another entry. */
  lemma {:induction false} FillUntilFullConsistent<Pt>(maps: Ecdb.IsogenyMatrix<Pt>, Plist: seq<Pt>, i: nat)
    requires Ecdb.IsSquare(maps) && 1 <= |maps|
    ensures Ecdb.Consistent(maps, Plist, FillUntilFull(maps, Plist, i).lists)
    decreases |maps| - i
  {
    if i >= |maps| {
      Ecdb.FillRowsConsistent(maps, Plist, |maps|);
    } else if Ecdb.FillRows(maps, Plist, i).nfill == |maps| {
      Ecdb.FillRowsConsistent(maps, Plist, i);
    } else {
      FillUntilFullConsistent(maps, Plist, i + 1);
    }
  }

  /** On the class where the ecdb.py loop falls off its end (maps
      0 -> 2 -> 1), the ec_utils loop runs all rows and fills every
      list. */
  lemma FallsOffFilledHere()
    ensures FillUntilFull(Ecdb.Links(3, {(0, 2), (2, 1)}), [5], 0).lists == [[5], [5], [5]]
  {
    var maps := Ecdb.Links(3, {(0, 2), (2, 1)});
    Ecdb.MapPointsFallsOff();
    assert Ecdb.FillRows(maps, [5], 0).nfill == 1;
    assert Ecdb.FillRows(maps, [5], 1).nfill == 2;
    assert Ecdb.FillRows(maps, [5], 2).nfill == 2;
  }

  /** On the class where the ecdb.py loop stops with curves 1 and 2
      still empty, the ec_utils version raises IndexError when it
      resaturates curve 1. */
  lemma LeavesEmptyRaises(saturate: Saturate<int>)
    ensures MapPointsSatSpec(Ecdb.Links(4, {(0, 3), (3, 0), (3, 1), (1, 3), (1, 2), (2, 1)}), [5], saturate) ==
            Err(IndexError)
  {
    var maps := Ecdb.Links(4, {(0, 3), (3, 0), (3, 1), (1, 3), (1, 2), (2, 1)});
    LeavesEmptyFill();
    var Q := FillUntilFull(maps, [5], 0).lists;
    assert 1 <= 1 < |maps| && Q[1] == [];
  }

  lemma LeavesEmptyFill()
    ensures FillUntilFull(Ecdb.Links(4, {(0, 3), (3, 0), (3, 1), (1, 3), (1, 2), (2, 1)}), [5], 0) ==
            Ecdb.Fill([[5], [], [], [5]], 4)
  {
    var maps := Ecdb.Links(4, {(0, 3), (3, 0), (3, 1), (1, 3), (1, 2), (2, 1)});
    Ecdb.MapPointsLeavesEmpty();
    assert FillUntilFull(maps, [5], 3) == Ecdb.Fill([[5], [], [], [5]], 4);
    assert FillUntilFull(maps, [5], 2) == FillUntilFull(maps, [5], 3);
    assert FillUntilFull(maps, [5], 1) == FillUntilFull(maps, [5], 2);
    assert FillUntilFull(maps, [5], 0) == FillUntilFull(maps, [5], 1);
  }

  // ---------------------------------------------------------------
  // get_gens
  // ---------------------------------------------------------------

  /** `get_rank1_gens`: the point search result if non-empty, otherwise
      the PARI Heegner point (whose exceptions are not caught). */
  function Rank1Gens<Pt>(pointSearch: seq<Pt>, pariHeegner: Result<Pt>): (r: Result<seq<Pt>>)
  {
    if pointSearch != [] then Ok(pointSearch)
    else if pariHeegner.Err? then Err(pariHeegner.error)
    else Ok([pariHeegner.value])
  }

  /** A successful rank-1 search never returns an empty list, so the
      `if gens:` after the PARI call always holds and the Magma and
      mwrank fallbacks after it are never reached. */
  lemma Rank1GensNonEmpty<Pt>(pointSearch: seq<Pt>, pariHeegner: Result<Pt>)
    ensures Rank1Gens(pointSearch, pariHeegner).Ok? ==> Rank1Gens(pointSearch, pariHeegner).value != []
    ensures Rank1Gens(pointSearch, pariHeegner).Err? <==> pointSearch == [] && pariHeegner.Err?
  {
  }

  /** The generators before saturation: rank 1 through
      `get_rank1_gens`, higher rank from Magma's Mordell-Weil search. */
  function RawGens<Pt>(ar: nat, pointSearch: seq<Pt>, pariHeegner: Result<Pt>, magmaGens: seq<Pt>)
    : Result<seq<Pt>>
    requires ar >= 1
  {
    if ar == 1 then Rank1Gens(pointSearch, pariHeegner) else Ok(magmaGens)
  }

  /** `get_gens(E, ar)`. */
  method GetGens<Pt>(ar: nat, server: MagmaServer, mw: Mwrank,
                     pointSearch: seq<Pt>, pariHeegner: Result<Pt>, magmaGens: seq<Pt>, saturate: Saturate<Pt>)
    returns (r: Result<seq<Pt>>)
    requires server.Valid()
    modifies server, mw
    ensures server.Valid() && mw.precision == old(mw.precision)
    ensures ar == 0 ==> r == Ok([]) && server.count == old(server.count) && server.instance == old(server.instance)
    ensures ar >= 1 ==>
      (server.count, server.instance) == Step(old(server.count), old(server.instance), server.countMax)
    ensures ar >= 1 && RawGens(ar, pointSearch, pariHeegner, magmaGens).Err? ==>
      r == Err(RawGens(ar, pointSearch, pariHeegner, magmaGens).error)
    ensures ar >= 1 && RawGens(ar, pointSearch, pariHeegner, magmaGens).Ok? ==>
      r == Ok(saturate(RawGens(ar, pointSearch, pariHeegner, magmaGens).value, SaturationMaxPrime, SaturationPrecision))
  {
    if ar == 0 {
      return Ok([]);
    }
    var _ := server.GetMagma();
    var gens: seq<Pt>;
    if ar == 1 {
      var g := Rank1Gens(pointSearch, pariHeegner);
      if g.Err? {
        return Err(g.error);
      }
      gens := g.value;
    } else {
      gens := magmaGens;
    }
    var prec0 := mw.precision;
    mw.precision := SaturationPrecision;
    gens := saturate(gens, SaturationMaxPrime, mw.precision);
    mw.precision := prec0;
    return Ok(gens);
  }
}
