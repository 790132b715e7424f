/** scripts/intpts.py (and the same function in scripts/ec_utils.py):
    integral points found by both Magma and Sage, merged. The two
    x-coordinate lists are what the external searches return. */
module Intpts {
  import opened SortedSeqs
  import opened MagmaCounter

  /** The result list and whether the warning is printed. */
  datatype IntegralPoints = IntegralPoints(xs: seq<int>, warned: bool)

  /** `x_list = list(Set(x_list_sage) + Set(x_list_magma)); x_list.sort()`,
      with the warning exactly when the two lists differ. */
  function MergePoints(xsMagma: seq<int>, xsSage: seq<int>): (r: IntegralPoints)
    ensures StrictlySorted(r.xs)
    ensures Elems(r.xs) == Elems(xsMagma) + Elems(xsSage)
    ensures r.warned <==> xsMagma != xsSage
  {
    assert Elems(xsSage + xsMagma) == Elems(xsMagma) + Elems(xsSage) by {
      forall k ensures k in Elems(xsSage + xsMagma) <==> k in Elems(xsMagma) + Elems(xsSage) {
        ElemsMember(xsSage + xsMagma, k);
        ElemsMember(xsMagma, k);
        ElemsMember(xsSage, k);
      }
    }
    IntegralPoints(SortedSetOf(xsSage + xsMagma), xsMagma != xsSage)
  }

  /** Whatever order the two searches list their points in, the result
      is the one ascending list of the union. */
  lemma MergePointsCanonical(xsMagma: seq<int>, xsSage: seq<int>, ys: seq<int>)
    requires StrictlySorted(ys) && Elems(ys) == Elems(xsMagma) + Elems(xsSage)
    ensures MergePoints(xsMagma, xsSage).xs == ys
  {
    SortedUnique(MergePoints(xsMagma, xsSage).xs, ys);
  }

  /** Agreeing searches give their common list, sorted, and no warning. */
  lemma MergePointsAgree(xs: seq<int>)
    requires StrictlySorted(xs)
    ensures MergePoints(xs, xs) == IntegralPoints(xs, false)
  {
    SortedUnique(MergePoints(xs, xs).xs, xs);
  }

  /** `get_integral_points(E, gens)`: the Magma search takes one
      `get_magma()` call, then the Sage search runs. */
  method GetIntegralPoints(server: MagmaServer, xsMagma: seq<int>, xsSage: seq<int>)
    returns (r: IntegralPoints)
    requires server.Valid()
    modifies server
    ensures server.Valid()
    ensures (server.count, server.instance) == Step(old(server.count), old(server.instance), server.countMax)
    ensures r == MergePoints(xsMagma, xsSage)
  {
    var _ := server.GetMagma();
    r := MergePoints(xsMagma, xsSage);
  }
}
