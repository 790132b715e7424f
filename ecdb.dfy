/** scripts/ecdb.py: propagating points through an isogeny class
    (`map_points`), the point and list string helpers (`pointstr`,
    `pointPtoA`, `liststr`, `matstr`, `wstr`) and the merge of two
    sorted generator files (`compare`, `merge_gens`). */
module Ecdb {
  import opened Wrappers
  import opened Text
  import opened Arith

  // ---------------------------------------------------------------
  // map_points
  // ---------------------------------------------------------------

  /** An isogeny: its degree and its action on points. Points are an
      abstract type. */
  datatype Isogeny<!Pt> = Isogeny(degree: nat, apply: Pt -> Pt)

  /** `maps[i][j]` is the isogeny from curve i to curve j, or None where
      the source has 0. */
  type IsogenyMatrix<!Pt> = seq<seq<Option<Isogeny<Pt>>>>

  predicate IsSquare<Pt>(maps: IsogenyMatrix<Pt>)
  {
    forall i :: 0 <= i < |maps| ==> |maps[i]| == |maps|
  }

  /** `[phi(P) for P in ps]` */
  function Image<Pt>(f: Pt -> Pt, ps: seq<Pt>): (qs: seq<Pt>)
    ensures |qs| == |ps| && forall k :: 0 <= k < |ps| ==> qs[k] == f(ps[k])
  {
    seq(|ps|, k requires 0 <= k < |ps| => f(ps[k]))
  }

  /** The loop state: `Qlists` and `nfill`. */
  datatype Fill<Pt> = Fill(lists: seq<seq<Pt>>, nfill: nat)

  function Start<Pt>(n: nat, Plist: seq<Pt>): (st: Fill<Pt>)
    requires n >= 1
    ensures |st.lists| == n
  {
    Fill([Plist] + seq(n - 1, _ => []), 1)
  }

  /** The body of the inner loop for (i, j). */
  function FillStep<Pt>(maps: IsogenyMatrix<Pt>, st: Fill<Pt>, i: nat, j: nat): (st': Fill<Pt>)
    requires IsSquare(maps) && i < |maps| && j < |maps| && |st.lists| == |maps|
    ensures |st'.lists| == |maps|
  {
    if maps[i][j].Some? && st.lists[j] == [] then
      Fill(st.lists[j := Image(maps[i][j].value.apply, st.lists[i])], st.nfill + 1)
    else st
  }

  /** The inner loop of row i over 1 <= j < k. */
  function FillRow<Pt>(maps: IsogenyMatrix<Pt>, st: Fill<Pt>, i: nat, k: nat): (st': Fill<Pt>)
    requires IsSquare(maps) && i < |maps| && k <= |maps| && |st.lists| == |maps|
    ensures |st'.lists| == |maps|
  {
    if k <= 1 then st else FillStep(maps, FillRow(maps, st, i, k - 1), i, k - 1)
  }

  /** The state after rows 0 <= i < k. */
  function FillRows<Pt>(maps: IsogenyMatrix<Pt>, Plist: seq<Pt>, k: nat): (st: Fill<Pt>)
    requires IsSquare(maps) && 1 <= |maps| && k <= |maps|
    ensures |st.lists| == |maps|
  {
    if k == 0 then Start(|maps|, Plist)
    else FillRow(maps, FillRows(maps, Plist, k - 1), k - 1, |maps|)
  }

  /** The ecdb.py loop from row i on: return when nfill == ncurves is
      seen at the top of an iteration, else fall off the end (None). */
  function ReturnAtFull<Pt>(maps: IsogenyMatrix<Pt>, Plist: seq<Pt>, i: nat): Option<seq<seq<Pt>>>
    requires IsSquare(maps)
    decreases |maps| - i
  {
    if i >= |maps| then None
    else if FillRows(maps, Plist, i).nfill == |maps| then Some(FillRows(maps, Plist, i).lists)
    else ReturnAtFull(maps, Plist, i + 1)
  }

  /** ecdb.py `map_points(maps, Plist)` as a value. */
  function MapPointsSpec<Pt>(maps: IsogenyMatrix<Pt>, Plist: seq<Pt>): Option<seq<seq<Pt>>>
    requires IsSquare(maps)
  {
    if |Plist| == 0 then Some(seq(|maps|, _ => []))
    else if |maps| == 1 then Some([Plist])
    else ReturnAtFull(maps, Plist, 0)
  }

  /** ecdb.py `map_points`. */
  method MapPoints<Pt>(maps: IsogenyMatrix<Pt>, Plist: seq<Pt>) returns (r: Option<seq<seq<Pt>>>)
    requires IsSquare(maps)
    ensures r == MapPointsSpec(maps, Plist)
  {
    var n := |maps|;
    if |Plist| == 0 {
      return Some(seq(n, _ => []));
    }
    if n == 1 {
      return Some([Plist]);
    }
    if n == 0 {
      // `[[]]*(ncurves-1)` is empty and the loop body never runs
      return None;
    }
    var Q: seq<seq<Pt>> := [Plist] + seq(n - 1, _ => []);
    var nfill := 1;
    for i := 0 to n
      invariant Fill(Q, nfill) == FillRows(maps, Plist, i)
      invariant MapPointsSpec(maps, Plist) == ReturnAtFull(maps, Plist, i)
    {
      if nfill == n {
        return Some(Q);
      }
      for j := 1 to n
        invariant Fill(Q, nfill) == FillRow(maps, FillRows(maps, Plist, i), i, j)
      {
        if maps[i][j].Some? && Q[j] == [] {
          Q := Q[j := Image(maps[i][j].value.apply, Q[i])];
          nfill := nfill + 1;
        }
      }
    }
    return None;
  }

  /** Every list is Plist (entry 0), empty, or the pointwise image of
      another entry under a map of the class, with as many points as
      Plist. */
  ghost predicate Consistent<Pt>(maps: IsogenyMatrix<Pt>, Plist: seq<Pt>, Q: seq<seq<Pt>>)
    requires IsSquare(maps)
  {
    |Q| == |maps| >= 1 && Q[0] == Plist &&
    forall j :: 1 <= j < |Q| && Q[j] != [] ==>
      |Q[j]| == |Plist| &&
      exists i :: 0 <= i < |Q| && maps[i][j].Some? && Q[j] == Image(maps[i][j].value.apply, Q[i])
  }

  lemma StepConsistent<Pt>(maps: IsogenyMatrix<Pt>, Plist: seq<Pt>, st: Fill<Pt>, i: nat, j: nat)
    requires IsSquare(maps) && i < |maps| && 1 <= j < |maps| && |st.lists| == |maps|
    requires Consistent(maps, Plist, st.lists)
    ensures Consistent(maps, Plist, FillStep(maps, st, i, j).lists)
  {
    var Q := st.lists;
    if maps[i][j].Some? && Q[j] == [] {
      var Q' := FillStep(maps, st, i, j).lists;
      forall j2 | 1 <= j2 < |Q'| && Q'[j2] != []
        ensures |Q'[j2]| == |Plist| &&
          exists i2 :: 0 <= i2 < |Q'| && maps[i2][j2].Some? && Q'[j2] == Image(maps[i2][j2].value.apply, Q'[i2])
      {
        if j2 == j {
          assert Q[i] != [] && i != j;
          assert Q'[i] == Q[i];
        } else {
          var i2 :| 0 <= i2 < |Q| && maps[i2][j2].Some? && Q[j2] == Image(maps[i2][j2].value.apply, Q[i2]);
          assert i2 != j;
          assert Q'[i2] == Q[i2];
        }
      }
    }
  }

  lemma {:induction false} RowConsistent<Pt>(maps: IsogenyMatrix<Pt>, Plist: seq<Pt>, st: Fill<Pt>, i: nat, k: nat)
    requires IsSquare(maps) && i < |maps| && k <= |maps| && |st.lists| == |maps|
    requires Consistent(maps, Plist, st.lists)
    ensures Consistent(maps, Plist, FillRow(maps, st, i, k).lists)
  {
    if k > 1 {
      RowConsistent(maps, Plist, st, i, k - 1);
      StepConsistent(maps, Plist, FillRow(maps, st, i, k - 1), i, k - 1);
    }
  }

  /** The loop keeps every list consistent with the maps. */
  lemma {:induction false} FillRowsConsistent<Pt>(maps: IsogenyMatrix<Pt>, Plist: seq<Pt>, k: nat)
    requires IsSquare(maps) && 1 <= |maps| && k <= |maps|
    ensures Consistent(maps, Plist, FillRows(maps, Plist, k).lists)
  {
    if k > 0 {
      FillRowsConsistent(maps, Plist, k - 1);
      RowConsistent(maps, Plist, FillRows(maps, Plist, k - 1), k - 1, |maps|);
    }
  }

  lemma {:induction false} RowKeeps<Pt>(maps: IsogenyMatrix<Pt>, st: Fill<Pt>, i: nat, k: nat, j: nat)
    requires IsSquare(maps) && i < |maps| && k <= |maps| && |st.lists| == |maps| && j < |maps|
    requires st.lists[j] != []
    ensures FillRow(maps, st, i, k).lists[j] == st.lists[j]
  {
    if k > 1 {
      RowKeeps(maps, st, i, k - 1, j);
    }
  }

  /** A list, once non-empty, is never overwritten. */
  lemma {:induction false} FillRowsKeep<Pt>(maps: IsogenyMatrix<Pt>, Plist: seq<Pt>, k: nat, k': nat, j: nat)
    requires IsSquare(maps) && 1 <= |maps| && k <= k' <= |maps| && j < |maps|
    requires FillRows(maps, Plist, k).lists[j] != []
    ensures FillRows(maps, Plist, k').lists[j] == FillRows(maps, Plist, k).lists[j]
    decreases k' - k
  {
    if k < k' {
      RowKeeps(maps, FillRows(maps, Plist, k), k, |maps|, j);
      FillRowsKeep(maps, Plist, k + 1, k', j);
    }
  }

  lemma {:induction false} ReturnAtFullConsistent<Pt>(maps: IsogenyMatrix<Pt>, Plist: seq<Pt>, i: nat)
    requires IsSquare(maps) && ReturnAtFull(maps, Plist, i).Some?
    ensures Consistent(maps, Plist, ReturnAtFull(maps, Plist, i).value)
    decreases |maps| - i
  {
    if FillRows(maps, Plist, i).nfill == |maps| {
      FillRowsConsistent(maps, Plist, i);
    } else {
      ReturnAtFullConsistent(maps, Plist, i + 1);
    }
  }

  /** What `map_points` returns, when it returns, is consistent: entry 0
      is Plist and every non-empty entry is the image of another one. */
  lemma MapPointsConsistent<Pt>(maps: IsogenyMatrix<Pt>, Plist: seq<Pt>)
    requires IsSquare(maps) && |Plist| > 0 && MapPointsSpec(maps, Plist).Some?
    ensures Consistent(maps, Plist, MapPointsSpec(maps, Plist).value)
  {
    if |maps| != 1 {
      ReturnAtFullConsistent(maps, Plist, 0);
    }
  }

  // ---------------------------------------------------------------
  // What the loop does on two small classes
  // ---------------------------------------------------------------

  /** The matrix with the identity map exactly at the given positions. */
  function Links(n: nat, edges: set<(int, int)>): (maps: IsogenyMatrix<int>)
    ensures |maps| == n && IsSquare(maps)
  {
    seq(n, i => seq(n, j => if (i, j) in edges then Some(Isogeny(2, (x: int) => x)) else None))
  }

  lemma LinksImage(n: nat, edges: set<(int, int)>, i: nat, j: nat)
    requires i < n && j < n && (i, j) in edges
    ensures Links(n, edges)[i][j].Some? && Image(Links(n, edges)[i][j].value.apply, [5]) == [5]
  {
  }

  /** Three curves linked 0 -> 2 -> 1: every list is filled during the
      pass, but the last fill happens in the last row, so nfill == 3 is
      never seen at the top of the loop and ecdb.py returns nothing. */
  lemma MapPointsFallsOff()
    ensures MapPointsSpec(Links(3, {(0, 2), (2, 1)}), [5]) == None
    ensures FillRows(Links(3, {(0, 2), (2, 1)}), [5], 3).lists == [[5], [5], [5]]
  {
    var E := {(0, 2), (2, 1)};
    var maps: IsogenyMatrix<int> := Links(3, E);
    LinksImage(3, E, 0, 2);
    LinksImage(3, E, 2, 1);
    var s0 := FillRows(maps, [5], 0);
    assert s0 == Fill([[5], [], []], 1);
    assert FillRow(maps, s0, 0, 2) == s0;
    var s1 := FillRows(maps, [5], 1);
    assert s1 == FillStep(maps, s0, 0, 2);
    assert s1 == Fill([[5], [], [5]], 2);
    var s2 := FillRows(maps, [5], 2);
    assert FillRow(maps, s1, 1, 2) == s1;
    assert s2 == s1;
    var s3 := FillRows(maps, [5], 3);
    assert FillRow(maps, s2, 2, 2) == Fill([[5], [5], [5]], 3);
    assert s3 == Fill([[5], [5], [5]], 3);
  }

  /** Four curves linked 0 - 3 - 1 - 2 (both directions): row 1 copies the
      still-empty list of curve 1 to curve 2 and row 2 copies it back,
      both counted in nfill, so the loop stops with curves 1 and 2
      empty. */
  lemma MapPointsLeavesEmpty()
    ensures MapPointsSpec(Links(4, {(0, 3), (3, 0), (3, 1), (1, 3), (1, 2), (2, 1)}), [5]) ==
            Some([[5], [], [], [5]])
    ensures FillRows(Links(4, {(0, 3), (3, 0), (3, 1), (1, 3), (1, 2), (2, 1)}), [5], 0).nfill == 1
    ensures FillRows(Links(4, {(0, 3), (3, 0), (3, 1), (1, 3), (1, 2), (2, 1)}), [5], 1).nfill == 2
    ensures FillRows(Links(4, {(0, 3), (3, 0), (3, 1), (1, 3), (1, 2), (2, 1)}), [5], 2).nfill == 3
    ensures FillRows(Links(4, {(0, 3), (3, 0), (3, 1), (1, 3), (1, 2), (2, 1)}), [5], 3) == Fill([[5], [], [], [5]], 4)
  {
    var E := {(0, 3), (3, 0), (3, 1), (1, 3), (1, 2), (2, 1)};
    var maps: IsogenyMatrix<int> := Links(4, E);
    LinksImage(4, E, 0, 3);
    assert Image(maps[1][2].value.apply, []) == [];
    assert Image(maps[2][1].value.apply, []) == [];
    var s0 := FillRows(maps, [5], 0);
    assert s0 == Fill([[5], [], [], []], 1);
    assert FillRow(maps, s0, 0, 2) == s0;
    assert FillRow(maps, s0, 0, 3) == s0;
    var s1 := FillRows(maps, [5], 1);
    assert s1 == FillStep(maps, s0, 0, 3);
    assert s1 == Fill([[5], [], [], [5]], 2);
    assert FillRow(maps, s1, 1, 2) == s1;
    assert FillRow(maps, s1, 1, 3) == Fill([[5], [], [], [5]], 3);
    var s2 := FillRows(maps, [5], 2);
    assert s2 == Fill([[5], [], [], [5]], 3);
    assert FillRow(maps, s2, 2, 2) == Fill([[5], [], [], [5]], 4);
    assert FillRow(maps, s2, 2, 3) == Fill([[5], [], [], [5]], 4);
    var s3 := FillRows(maps, [5], 3);
    assert s3 == Fill([[5], [], [], [5]], 4);
  }

  // ---------------------------------------------------------------
  // Propagation that fills every reachable curve
  // ---------------------------------------------------------------

  /** Every map leads from a filled list to a filled list. */
  ghost predicate Closed<Pt>(maps: IsogenyMatrix<Pt>, Q: seq<seq<Pt>>)
    requires IsSquare(maps) && |Q| == |maps|
  {
    forall i, j :: 0 <= i < |Q| && 1 <= j < |Q| && Q[i] != [] && maps[i][j].Some? ==> Q[j] != []
  }

  /** A chain of maps from curve 0. */
  ghost predicate IsPath<Pt>(maps: IsogenyMatrix<Pt>, path: seq<nat>)
    requires IsSquare(maps)
  {
    |path| >= 1 && path[0] == 0 &&
    (forall k :: 0 <= k < |path| ==> path[k] < |maps|) &&
    forall k :: 0 <= k < |path| - 1 ==> maps[path[k]][path[k + 1]].Some?
  }

  /** In a closed state every curve reached by a chain of maps from curve
      0 has a non-empty list. */
  lemma {:induction false} ClosedReachesAll<Pt>(maps: IsogenyMatrix<Pt>, Q: seq<seq<Pt>>, path: seq<nat>)
    requires IsSquare(maps) && |Q| == |maps| >= 1 && Closed(maps, Q) && Q[0] != [] && IsPath(maps, path)
    ensures Q[path[|path| - 1]] != []
    decreases |path|
  {
    if |path| > 1 {
      var init := path[..|path| - 1];
      assert IsPath(maps, init) by {
        forall k | 0 <= k < |init| - 1 ensures maps[init[k]][init[k + 1]].Some? {
          assert init[k] == path[k] && init[k + 1] == path[k + 1];
        }
      }
      ClosedReachesAll(maps, Q, init);
      assert maps[path[|path| - 2]][path[|path| - 1]].Some?;
    }
  }

  function CountFilled<Pt>(Q: seq<seq<Pt>>): (c: nat)
    ensures c <= |Q|
  {
    if |Q| == 0 then 0 else CountFilled(Q[..|Q| - 1]) + (if Q[|Q| - 1] != [] then 1 else 0)
  }

  lemma {:induction false} FillingCounts<Pt>(Q: seq<seq<Pt>>, j: nat, v: seq<Pt>)
    requires j < |Q| && Q[j] == [] && v != []
    ensures CountFilled(Q[j := v]) == CountFilled(Q) + 1
    decreases |Q|
  {
    var Q' := Q[j := v];
    if j < |Q| - 1 {
      assert Q'[..|Q| - 1] == Q[..|Q| - 1][j := v];
      FillingCounts(Q[..|Q| - 1], j, v);
    } else {
      assert Q'[..|Q| - 1] == Q[..|Q| - 1];
    }
  }

  /** Row i leads only to filled lists, for targets j' < k. */
  ghost predicate RowClosed<Pt>(maps: IsogenyMatrix<Pt>, Q: seq<seq<Pt>>, i: nat, k: nat)
    requires IsSquare(maps) && |Q| == |maps| && i < |Q| && k <= |Q|
  {
    forall j :: 1 <= j < k && Q[i] != [] && maps[i][j].Some? ==> Q[j] != []
  }

  /** One row of a pass: fill from row i where the source list holds
      points and the target is still empty. */
  method PropagateRow<Pt>(maps: IsogenyMatrix<Pt>, Plist: seq<Pt>, Q: seq<seq<Pt>>, i: nat)
    returns (Q': seq<seq<Pt>>, grew: bool)
    requires IsSquare(maps) && i < |maps| && Consistent(maps, Plist, Q)
    ensures Consistent(maps, Plist, Q') && CountFilled(Q') >= CountFilled(Q)
    ensures grew ==> CountFilled(Q') > CountFilled(Q)
    ensures !grew ==> Q' == Q && RowClosed(maps, Q, i, |Q|)
  {
    var n := |maps|;
    Q', grew := Q, false;
    for j := 1 to n
      invariant Consistent(maps, Plist, Q') && CountFilled(Q') >= CountFilled(Q)
      invariant grew ==> CountFilled(Q') > CountFilled(Q)
      invariant !grew ==> Q' == Q && RowClosed(maps, Q, i, j)
    {
      if maps[i][j].Some? && Q'[i] != [] && Q'[j] == [] {
        var img := Image(maps[i][j].value.apply, Q'[i]);
        FillGrows(maps, Plist, Q', i, j);
        Q' := Q'[j := img];
        grew := true;
      } else if !grew {
        RowClosedStep(maps, Q, i, j);
      }
    }
  }

  /** Filling an empty list from a list that holds points keeps the
      state consistent and fills one more list. */
  lemma FillGrows<Pt>(maps: IsogenyMatrix<Pt>, Plist: seq<Pt>, Q: seq<seq<Pt>>, i: nat, j: nat)
    requires IsSquare(maps) && i < |maps| && 1 <= j < |maps| && Consistent(maps, Plist, Q)
    requires maps[i][j].Some? && Q[i] != [] && Q[j] == []
    ensures var Q' := Q[j := Image(maps[i][j].value.apply, Q[i])];
      Consistent(maps, Plist, Q') && CountFilled(Q') == CountFilled(Q) + 1
  {
    var img := Image(maps[i][j].value.apply, Q[i]);
    FillingCounts(Q, j, img);
    StepConsistent(maps, Plist, Fill(Q, 0), i, j);
  }

  /** A column the row does not fill keeps the row closed one column further. */
  lemma RowClosedStep<Pt>(maps: IsogenyMatrix<Pt>, Q: seq<seq<Pt>>, i: nat, j: nat)
    requires IsSquare(maps) && |Q| == |maps| && i < |Q| && 1 <= j < |Q| && RowClosed(maps, Q, i, j)
    requires !(maps[i][j].Some? && Q[i] != [] && Q[j] == [])
    ensures RowClosed(maps, Q, i, j + 1)
  {
  }

  /** One pass over all rows. */
  method PropagatePass<Pt>(maps: IsogenyMatrix<Pt>, Plist: seq<Pt>, Q: seq<seq<Pt>>)
    returns (Q': seq<seq<Pt>>, changed: bool)
    requires IsSquare(maps) && Consistent(maps, Plist, Q)
    ensures Consistent(maps, Plist, Q')
    ensures changed ==> CountFilled(Q') > CountFilled(Q)
    ensures !changed ==> Q' == Q && Closed(maps, Q)
  {
    var n := |maps|;
    Q', changed := Q, false;
    for i := 0 to n
      invariant Consistent(maps, Plist, Q') && CountFilled(Q') >= CountFilled(Q)
      invariant changed ==> CountFilled(Q') > CountFilled(Q)
      invariant !changed ==> Q' == Q && RowsClosed(maps, Q, i)
    {
      var grew;
      Q', grew := PropagateRow(maps, Plist, Q', i);
      if grew {
        changed := true;
      } else if !changed {
        assert RowsClosed(maps, Q, i + 1) by {
          forall i' | 0 <= i' < i + 1 && i' < |Q| ensures RowClosed(maps, Q, i', |Q|) {
            if i' < i {
              assert RowsClosed(maps, Q, i);
            }
          }
        }
      }
    }
    if !changed {
      AllRowsClosed(maps, Q);
    }
  }

  /** Rows below k lead only to filled lists. */
  ghost predicate RowsClosed<Pt>(maps: IsogenyMatrix<Pt>, Q: seq<seq<Pt>>, k: nat)
    requires IsSquare(maps) && |Q| == |maps|
  {
    forall i :: 0 <= i < k && i < |Q| ==> RowClosed(maps, Q, i, |Q|)
  }

  lemma AllRowsClosed<Pt>(maps: IsogenyMatrix<Pt>, Q: seq<seq<Pt>>)
    requires IsSquare(maps) && |Q| == |maps| && RowsClosed(maps, Q, |Q|)
    ensures Closed(maps, Q)
  {
    forall i, j | 0 <= i < |Q| && 1 <= j < |Q| && Q[i] != [] && maps[i][j].Some?
      ensures Q[j] != []
    {
      assert RowClosed(maps, Q, i, |Q|);
    }
  }

  /** The evident intent of `map_points`: copy points along maps, only
      from lists that already hold points, pass after pass, until a pass
      adds nothing. The result is consistent with the maps and closed,
      so every curve reachable from curve 0 gets its points. */
  method PropagatePoints<Pt>(maps: IsogenyMatrix<Pt>, Plist: seq<Pt>) returns (Q: seq<seq<Pt>>)
    requires IsSquare(maps) && |maps| >= 1 && |Plist| > 0
    ensures Consistent(maps, Plist, Q) && Closed(maps, Q)
    ensures forall path :: IsPath(maps, path) ==> Q[path[|path| - 1]] != []
  {
    var n := |maps|;
    Q := [Plist] + seq(n - 1, _ => []);
    var changed := true;
    while changed
      invariant Consistent(maps, Plist, Q)
      invariant !changed ==> Closed(maps, Q)
      decreases n - CountFilled(Q), changed
    {
      Q, changed := PropagatePass(maps, Plist, Q);
    }
    forall path | IsPath(maps, path) ensures Q[path[|path| - 1]] != [] {
      ClosedReachesAll(maps, Q, path);
    }
  }

  // ---------------------------------------------------------------
  // pointstr / pointPtoA
  // ---------------------------------------------------------------

  /** Sage `str` of a rational: `n` for an integer, `n/d` otherwise. */
  function RatStr(q: Rat): string
  {
    if q.den == 1 then IntToStr(q.num) else IntToStr(q.num) + "/" + IntToStr(q.den)
  }

  /** The Sage product `z*q` of an integer and a rational. */
  function ScaleRat(z: int, q: Rat): (r: Rat)
    requires q.den > 0
    ensures Normalized(r) && r.num * q.den == z * q.num * r.den
  {
    MakeRat(z * q.num, q.den).value
  }

  /** `pointstr(P)` for the projective coordinates `list(P)` of a point:
      every coordinate scaled by the denominator of the second one and
      written as `[a:b:c]`. */
  function PointStr(P: seq<Rat>): string
    requires |P| == 3 && forall k :: 0 <= k < 3 ==> P[k].den > 0
  {
    var z := P[1].den;
    "[" + Join([RatStr(ScaleRat(z, P[0])), RatStr(ScaleRat(z, P[1])), RatStr(ScaleRat(z, P[2]))], ":") + "]"
  }

  /** `pointPtoA(s)`: '[x:y:z]' read back as the affine pair [x/z, y/z].
      Each piece goes through `Integer`, the unpacking needs exactly
      three pieces, and z = 0 divides by zero. */
  function PointPtoA(s: string): (r: Result<seq<Rat>>)
    ensures r.Ok? ==> |r.value| == 2 && Normalized(r.value[0]) && Normalized(r.value[1])
  {
    var cs := ProjInts(s);
    if cs.Err? then Err(cs.error)
    else
      var x, y := MakeRat(cs.value[0], cs.value[2]), MakeRat(cs.value[1], cs.value[2]);
      if x.Err? || y.Err? then Err(ZeroDivisionError) else Ok([x.value, y.value])
  }

  /** k*d/d is the integer k. */
  lemma MakeRatInt(k: int, d: int)
    requires d > 0
    ensures MakeRat(k * d, d) == Ok(FromInt(k))
  {
    MakeRatScaled(FromInt(k), d);
    assert d * k == k * d && d * 1 == d;
  }

  /** `pointPtoA(pointstr(P)) == [x, y]` for an affine point (x, y)
      whose x-denominator divides its y-denominator, as on an integral
      Weierstrass model (den x = c^2, den y = c^3). */
  lemma PointRoundTrip(x: Rat, y: Rat)
    requires Normalized(x) && Normalized(y) && y.den % x.den == 0
    ensures PointPtoA(PointStr([x, y, FromInt(1)])) == Ok([x, y])
  {
    var z := y.den;
    var m := z / x.den;
    DivExact(z, x.den);
    assert z == m * x.den;
    PosFactor(m, x.den, z);
    assert z * x.num == (m * x.num) * x.den;
    MakeRatInt(m * x.num, x.den);
    assert ScaleRat(z, x) == FromInt(m * x.num);
    assert z * y.num == y.num * y.den;
    MakeRatInt(y.num, y.den);
    assert ScaleRat(z, y) == FromInt(y.num);
    assert z * FromInt(1).num == z * 1;
    MakeRatInt(z, 1);
    assert ScaleRat(z, FromInt(1)) == FromInt(z);
    ProjIntsOfStr(m * x.num, y.num, z);
    MakeRatScaled(x, m);
    MakeRatScaled(y, 1);
    assert 1 * y.num == y.num && 1 * y.den == y.den;
  }

  /** The point at infinity, [0:1:0], cannot be read back. */
  lemma PointAtInfinity()
    ensures PointPtoA(PointStr([FromInt(0), FromInt(1), FromInt(0)])) == Err(ZeroDivisionError)
  {
    MakeRatInt(0, 1);
    MakeRatInt(1, 1);
    ProjIntsOfStr(0, 1, 0);
  }

  // ---------------------------------------------------------------
  // liststr, matstr
  // ---------------------------------------------------------------

  /** `liststr(l)`: `str(l)` with the spaces removed. */
  function Liststr(l: seq<int>): string
  {
    RemoveChar(ListStr(l), ' ')
  }

  /** `liststr` only removes the spaces after the commas. */
  lemma ListstrCompact(l: seq<int>)
    ensures Liststr(l) == CompactListStr(l)
  {
    RemoveSpacesList(l);
  }

  /** Sage `str` of a vector: `(1, 2, 3)`. */
  function VectorStr(v: seq<int>): string
  {
    "(" + Join(IntStrs(v), ", ") + ")"
  }

  /** `str(list(m))` for an integer matrix: its rows as vectors. */
  function RowsStr(m: seq<seq<int>>): string
  {
    "[" + Join(VectorStrs(m), ", ") + "]"
  }

  function VectorStrs(m: seq<seq<int>>): seq<string>
  {
    seq(|m|, k requires 0 <= k < |m| => VectorStr(m[k]))
  }

  function Bracket(c: char): char
  {
    if c == '(' then '[' else if c == ')' then ']' else c
  }

  /** `matstr(m)`: parentheses replaced by brackets, spaces removed. */
  function Matstr(m: seq<seq<int>>): string
  {
    RemoveChar(MapChar(MapChar(RowsStr(m), '(', '['), ')', ']'), ' ')
  }

  function MapBracket(s: string): (r: string)
    ensures |r| == |s| && forall i :: 0 <= i < |s| ==> r[i] == Bracket(s[i])
  {
    seq(|s|, i requires 0 <= i < |s| => Bracket(s[i]))
  }

  lemma MapBracketAppend(a: string, b: string)
    ensures MapBracket(a + b) == MapBracket(a) + MapBracket(b)
  {
  }

  /** Every piece with its parentheses made brackets. */
  function MapBracketEach(parts: seq<string>): (r: seq<string>)
    ensures |r| == |parts| && forall k :: 0 <= k < |parts| ==> r[k] == MapBracket(parts[k])
  {
    seq(|parts|, k requires 0 <= k < |parts| => MapBracket(parts[k]))
  }

  lemma {:induction false} MapBracketJoin(parts: seq<string>, sep: string)
    ensures MapBracket(Join(parts, sep)) == Join(MapBracketEach(parts), MapBracket(sep))
    decreases |parts|
  {
    var mapped := MapBracketEach(parts);
    if |parts| > 1 {
      MapBracketJoin(parts[1..], sep);
      assert mapped[1..] == MapBracketEach(parts[1..]);
      MapBracketAppend(parts[0] + sep, Join(parts[1..], sep));
      MapBracketAppend(parts[0], sep);
    }
  }

  lemma MapBracketInt(n: int)
    ensures MapBracket(IntToStr(n)) == IntToStr(n)
  {
    IntToStrChars(n);
  }

  lemma MapBracketVector(v: seq<int>)
    ensures MapBracket(VectorStr(v)) == ListStr(v)
  {
    var ss := IntStrs(v);
    assert MapBracket(Join(ss, ", ")) == Join(ss, ", ") by {
      MapBracketJoin(ss, ", ");
      forall k | 0 <= k < |ss| ensures MapBracket(ss[k]) == ss[k] {
        MapBracketInt(v[k]);
      }
      assert MapBracketEach(ss) == ss;
      assert MapBracket(", ") == ", ";
    }
    ParensToBrackets(Join(ss, ", "));
  }

  lemma ParensToBrackets(j: string)
    requires MapBracket(j) == j
    ensures MapBracket("(" + j + ")") == "[" + j + "]"
  {
    MapBracketAppend("(" + j, ")");
    MapBracketAppend("(", j);
  }

  /** `matstr(m)` writes the matrix as the compact list of its rows. */
  lemma MatstrCompact(m: seq<seq<int>>)
    ensures Matstr(m) == CompactListListStr(m)
  {
    var s := RowsStr(m);
    assert MapChar(MapChar(s, '(', '['), ')', ']') == MapBracket(s);
    var vs := VectorStrs(m);
    var ls := RowStrs(m);
    MapBracketJoin(vs, ", ");
    forall k | 0 <= k < |m| ensures MapBracket(vs[k]) == ls[k] {
      MapBracketVector(m[k]);
    }
    assert MapBracketEach(vs) == ls;
    assert MapBracket(", ") == ", ";
    MapBracketAppend("[" + Join(vs, ", "), "]");
    MapBracketAppend("[", Join(vs, ", "));
    assert MapBracket(s) == ListListStr(m);
    RemoveSpacesListList(m);
  }

  // ---------------------------------------------------------------
  // compare, merge_gens
  // ---------------------------------------------------------------

  /** A curve key: conductor, class code and curve number, as strings. */
  datatype Key = Key(cond: string, cl: string, cu: string)

  /** A comparison function on codes that is a total preorder:
      whichever way round, at least one direction is <= 0, and <= 0 is
      transitive. `cmp_code` (Sage label code order) is such a
      parameter. */
  ghost predicate Comparator(cmp: (string, string) -> int)
  {
    (forall a, b :: cmp(a, b) >= 0 ==> cmp(b, a) <= 0) &&
    (forall a, b, c :: cmp(a, b) <= 0 && cmp(b, c) <= 0 ==> cmp(a, c) <= 0)
  }

  /** `compare(Ncc1, Ncc2)`: the conductor difference if non-zero,
      otherwise `cmp_code` of class code plus curve number. */
  function Compare(k1: Key, k2: Key, cmpCode: (string, string) -> int): (r: Result<int>)
    ensures r.Ok? <==> SageInt(k1.cond).Ok? && SageInt(k2.cond).Ok?
  {
    var n1 := SageInt(k1.cond);
    var n2 := SageInt(k2.cond);
    if n1.Err? then Err(n1.error)
    else if n2.Err? then Err(n2.error)
    else if n1.value - n2.value != 0 then Ok(n1.value - n2.value)
    else Ok(cmpCode(k1.cl + k1.cu, k2.cl + k2.cu))
  }

  /** Conductor first: different conductors are ordered by size, and
      only equal conductors consult the code comparison. */
  lemma CompareConductorFirst(k1: Key, k2: Key, cmpCode: (string, string) -> int, n1: int, n2: int)
    requires SageInt(k1.cond) == Ok(n1) && SageInt(k2.cond) == Ok(n2)
    ensures n1 < n2 ==> Compare(k1, k2, cmpCode).value < 0
    ensures n1 > n2 ==> Compare(k1, k2, cmpCode).value > 0
    ensures n1 == n2 ==> Compare(k1, k2, cmpCode).value == cmpCode(k1.cl + k1.cu, k2.cl + k2.cu)
  {
  }

  /** `L.split(' ', 3)` unpacked into four names: the first three
      space-separated fields, or ValueError with fewer than three
      spaces. */
  function LineKey(line: string): (r: Result<Key>)
    ensures r.Ok? <==> |Split(line, ' ')| >= 4
  {
    var fs := Split(line, ' ');
    if |fs| >= 4 then Ok(Key(fs[0], fs[1], fs[2])) else Err(ValueError)
  }

  /** The outcome of comparing the heads of the two files. */
  function CompareLines(l1: string, l2: string, cmpCode: (string, string) -> int): Result<int>
  {
    var a := LineKey(l1);
    var b := LineKey(l2);
    if a.Err? then Err(a.error)
    else if b.Err? then Err(b.error)
    else Compare(a.value, b.value, cmpCode)
  }

  /** The lines `merge_gens` writes for the remaining lines f1 and f2. */
  function Merge(f1: seq<string>, f2: seq<string>, cmpCode: (string, string) -> int): Result<seq<string>>
    decreases |f1| + |f2|
  {
    if f1 == [] then Ok(f2)
    else if f2 == [] then Ok(f1)
    else
      var c := CompareLines(f1[0], f2[0], cmpCode);
      if c.Err? then Err(c.error)
      else if c.value < 0 then
        var rest := Merge(f1[1..], f2, cmpCode);
        if rest.Err? then rest else Ok([f1[0]] + rest.value)
      else
        var rest := Merge(f1, f2[1..], cmpCode);
        if rest.Err? then rest else Ok([f2[0]] + rest.value)
  }

  /** The lines already written in front of the outcome for the rest. */
  function Prepend(out: seq<string>, rest: Result<seq<string>>): Result<seq<string>>
  {
    if rest.Err? then rest else Ok(out + rest.value)
  }

  lemma PrependStep(out: seq<string>, line: string, rest: Result<seq<string>>)
    ensures Prepend(out, Prepend([line], rest)) == Prepend(out + [line], rest)
  {
    if rest.Ok? {
      assert out + ([line] + rest.value) == (out + [line]) + rest.value;
    }
  }

  /** The cursor loops of `merge_gens` over the two files' lines (each
      non-empty, as `readline` returns them before the end of a file). */
  method MergeLines(f1: seq<string>, f2: seq<string>, cmpCode: (string, string) -> int)
    returns (r: Result<seq<string>>)
    requires forall k :: 0 <= k < |f1| ==> f1[k] != []
    requires forall k :: 0 <= k < |f2| ==> f2[k] != []
    ensures r == Merge(f1, f2, cmpCode)
  {
    var out: seq<string> := [];
    var i, j := 0, 0;
    MergeStart(f1, f2, cmpCode);
    while i < |f1| && j < |f2|
      invariant 0 <= i <= |f1| && 0 <= j <= |f2|
      invariant Merge(f1, f2, cmpCode) == Prepend(out, Merge(f1[i..], f2[j..], cmpCode))
      decreases |f1| - i + |f2| - j
    {
      var c := CompareLines(f1[i], f2[j], cmpCode);
      if c.Err? {
        MergeFails(f1, f2, i, j, out, cmpCode);
        return Err(c.error);
      }
      if c.value < 0 {
        MergeTakes(f1, f2, i, j, out, cmpCode);
        out := out + [f1[i]];
        i := i + 1;
      } else {
        MergeTakes(f1, f2, i, j, out, cmpCode);
        out := out + [f2[j]];
        j := j + 1;
      }
    }
    while i < |f1|
      invariant 0 <= i <= |f1| && 0 <= j <= |f2| && (i < |f1| ==> j == |f2|)
      invariant Merge(f1, f2, cmpCode) == Prepend(out, Merge(f1[i..], f2[j..], cmpCode))
    {
      MergeDrains(f1, f2, i, j, out, cmpCode);
      out := out + [f1[i]];
      i := i + 1;
    }
    while j < |f2|
      invariant 0 <= j <= |f2| && i == |f1|
      invariant Merge(f1, f2, cmpCode) == Prepend(out, Merge(f1[i..], f2[j..], cmpCode))
    {
      MergeDrains(f1, f2, i, j, out, cmpCode);
      out := out + [f2[j]];
      j := j + 1;
    }
    MergeEnds(f1, f2, i, j, out, cmpCode);
    return Ok(out);
  }

  lemma MergeStart(f1: seq<string>, f2: seq<string>, cmpCode: (string, string) -> int)
    ensures Merge(f1, f2, cmpCode) == Prepend([], Merge(f1[0..], f2[0..], cmpCode))
  {
    assert f1[0..] == f1 && f2[0..] == f2;
    if Merge(f1, f2, cmpCode).Ok? {
      assert [] + Merge(f1, f2, cmpCode).value == Merge(f1, f2, cmpCode).value;
    }
  }

  /** A comparison that raises ends the merge with its error. */
  lemma MergeFails(f1: seq<string>, f2: seq<string>, i: nat, j: nat, out: seq<string>, cmpCode: (string, string) -> int)
    requires i < |f1| && j < |f2| && CompareLines(f1[i], f2[j], cmpCode).Err?
    requires Merge(f1, f2, cmpCode) == Prepend(out, Merge(f1[i..], f2[j..], cmpCode))
    ensures Merge(f1, f2, cmpCode) == Err(CompareLines(f1[i], f2[j], cmpCode).error)
  {
    assert f1[i..][0] == f1[i] && f2[j..][0] == f2[j];
  }

  /** The smaller head line is written next. */
  lemma MergeTakes(f1: seq<string>, f2: seq<string>, i: nat, j: nat, out: seq<string>, cmpCode: (string, string) -> int)
    requires i < |f1| && j < |f2| && CompareLines(f1[i], f2[j], cmpCode).Ok?
    requires Merge(f1, f2, cmpCode) == Prepend(out, Merge(f1[i..], f2[j..], cmpCode))
    ensures CompareLines(f1[i], f2[j], cmpCode).value < 0 ==>
      Merge(f1, f2, cmpCode) == Prepend(out + [f1[i]], Merge(f1[i + 1..], f2[j..], cmpCode))
    ensures CompareLines(f1[i], f2[j], cmpCode).value >= 0 ==>
      Merge(f1, f2, cmpCode) == Prepend(out + [f2[j]], Merge(f1[i..], f2[j + 1..], cmpCode))
  {
    assert f1[i..][0] == f1[i] && f2[j..][0] == f2[j];
    assert f1[i..][1..] == f1[i + 1..] && f2[j..][1..] == f2[j + 1..];
    if CompareLines(f1[i], f2[j], cmpCode).value < 0 {
      PrependStep(out, f1[i], Merge(f1[i + 1..], f2[j..], cmpCode));
    } else {
      PrependStep(out, f2[j], Merge(f1[i..], f2[j + 1..], cmpCode));
    }
  }

  /** Once one file is used up, the other is copied line by line. */
  lemma MergeDrains(f1: seq<string>, f2: seq<string>, i: nat, j: nat, out: seq<string>, cmpCode: (string, string) -> int)
    requires i <= |f1| && j <= |f2| && (i == |f1| || j == |f2|) && (i < |f1| || j < |f2|)
    requires Merge(f1, f2, cmpCode) == Prepend(out, Merge(f1[i..], f2[j..], cmpCode))
    ensures i < |f1| ==> Merge(f1, f2, cmpCode) == Prepend(out + [f1[i]], Merge(f1[i + 1..], f2[j..], cmpCode))
    ensures i == |f1| ==> Merge(f1, f2, cmpCode) == Prepend(out + [f2[j]], Merge(f1[i..], f2[j + 1..], cmpCode))
  {
    if i < |f1| {
      assert f1[i..] == [f1[i]] + f1[i + 1..] && f2[j..] == [];
      PrependStep(out, f1[i], Ok(f1[i + 1..]));
    } else {
      assert f2[j..] == [f2[j]] + f2[j + 1..] && f1[i..] == [];
      PrependStep(out, f2[j], Ok(f2[j + 1..]));
    }
  }

  lemma MergeEnds(f1: seq<string>, f2: seq<string>, i: nat, j: nat, out: seq<string>, cmpCode: (string, string) -> int)
    requires i == |f1| && j == |f2|
    requires Merge(f1, f2, cmpCode) == Prepend(out, Merge(f1[i..], f2[j..], cmpCode))
    ensures Merge(f1, f2, cmpCode) == Ok(out)
  {
    assert f1[i..] == [] && f2[j..] == [];
    assert out + [] == out;
  }

  /** `merge_gens(infile1, infile2)`: the input name must hold exactly
      one dot, and the merged lines go to `mallgens.<suffix>`. */
  method MergeGens(name1: string, f1: seq<string>, f2: seq<string>, cmpCode: (string, string) -> int)
    returns (r: Result<(string, seq<string>)>)
    requires forall k :: 0 <= k < |f1| ==> f1[k] != []
    requires forall k :: 0 <= k < |f2| ==> f2[k] != []
    ensures |Split(name1, '.')| != 2 ==> r == Err(ValueError)
    ensures |Split(name1, '.')| == 2 && Merge(f1, f2, cmpCode).Ok? ==>
      r == Ok(("mallgens." + Split(name1, '.')[1], Merge(f1, f2, cmpCode).value))
    ensures |Split(name1, '.')| == 2 && Merge(f1, f2, cmpCode).Err? ==>
      r == Err(Merge(f1, f2, cmpCode).error)
  {
    var nameParts := Split(name1, '.');
    if |nameParts| != 2 {
      return Err(ValueError);
    }
    var m := MergeLines(f1, f2, cmpCode);
    if m.Err? {
      return Err(m.error);
    }
    return Ok(("mallgens." + nameParts[1], m.value));
  }

  /** out is an interleaving of f1 and f2: every line of both exactly
      once, each file's lines in their own order. */
  ghost predicate Interleaving(out: seq<string>, f1: seq<string>, f2: seq<string>)
    decreases |out|
  {
    if out == [] then f1 == [] && f2 == []
    else
      (f1 != [] && out[0] == f1[0] && Interleaving(out[1..], f1[1..], f2)) ||
      (f2 != [] && out[0] == f2[0] && Interleaving(out[1..], f1, f2[1..]))
  }

  lemma {:induction false} InterleavingSelf(f: seq<string>, left: bool)
    ensures left ==> Interleaving(f, f, [])
    ensures !left ==> Interleaving(f, [], f)
    decreases |f|
  {
    if f != [] {
      InterleavingSelf(f[1..], left);
    }
  }

  /** `merge_gens` writes every line of both files exactly once and
      keeps each file's order. */
  lemma {:induction false} MergeInterleaves(f1: seq<string>, f2: seq<string>, cmpCode: (string, string) -> int)
    requires Merge(f1, f2, cmpCode).Ok?
    ensures Interleaving(Merge(f1, f2, cmpCode).value, f1, f2)
    ensures multiset(Merge(f1, f2, cmpCode).value) == multiset(f1) + multiset(f2)
    decreases |f1| + |f2|
  {
    var out := Merge(f1, f2, cmpCode).value;
    if f1 == [] {
      InterleavingSelf(f2, false);
    } else if f2 == [] {
      InterleavingSelf(f1, true);
    } else if CompareLines(f1[0], f2[0], cmpCode).value < 0 {
      MergeInterleaves(f1[1..], f2, cmpCode);
      assert out[1..] == Merge(f1[1..], f2, cmpCode).value;
      assert f1 == [f1[0]] + f1[1..];
    } else {
      MergeInterleaves(f1, f2[1..], cmpCode);
      assert out[1..] == Merge(f1, f2[1..], cmpCode).value;
      assert f2 == [f2[0]] + f2[1..];
    }
  }

  /** Ties go to the second file: the first file's head is written
      first exactly when it compares below the second's. */
  lemma MergeHead(f1: seq<string>, f2: seq<string>, cmpCode: (string, string) -> int)
    requires f1 != [] && f2 != [] && Merge(f1, f2, cmpCode).Ok?
    ensures CompareLines(f1[0], f2[0], cmpCode).Ok?
    ensures Merge(f1, f2, cmpCode).value[0] ==
            if CompareLines(f1[0], f2[0], cmpCode).value < 0 then f1[0] else f2[0]
  {
  }

  /** Every line parses and each compares <= 0 with the next. */
  ghost predicate SortedLines(f: seq<string>, cmpCode: (string, string) -> int)
  {
    (forall k :: 0 <= k < |f| ==> LineKey(f[k]).Ok? && SageInt(LineKey(f[k]).value.cond).Ok?) &&
    forall k :: 0 <= k < |f| - 1 ==> CompareLines(f[k], f[k + 1], cmpCode).value <= 0
  }

  /** `compare` is a total preorder on well-formed lines when `cmp_code`
      is one. */
  lemma CompareTotal(l1: string, l2: string, l3: string, cmpCode: (string, string) -> int)
    requires Comparator(cmpCode)
    requires forall l :: l in [l1, l2, l3] ==> LineKey(l).Ok? && SageInt(LineKey(l).value.cond).Ok?
    ensures CompareLines(l1, l2, cmpCode).value >= 0 ==> CompareLines(l2, l1, cmpCode).value <= 0
    ensures CompareLines(l1, l2, cmpCode).value <= 0 && CompareLines(l2, l3, cmpCode).value <= 0 ==>
            CompareLines(l1, l3, cmpCode).value <= 0
  {
    assert l1 in [l1, l2, l3] && l2 in [l1, l2, l3] && l3 in [l1, l2, l3];
  }

  /** Two sorted files merge into a sorted file. */
  lemma {:induction false} MergeSorted(f1: seq<string>, f2: seq<string>, cmpCode: (string, string) -> int)
    requires Comparator(cmpCode) && SortedLines(f1, cmpCode) && SortedLines(f2, cmpCode)
    ensures Merge(f1, f2, cmpCode).Ok?
    ensures SortedLines(Merge(f1, f2, cmpCode).value, cmpCode)
    ensures Merge(f1, f2, cmpCode).value != [] ==>
      (f1 != [] && Merge(f1, f2, cmpCode).value[0] == f1[0]) ||
      (f2 != [] && Merge(f1, f2, cmpCode).value[0] == f2[0])
    decreases |f1| + |f2|
  {
    if f1 != [] && f2 != [] {
      var c := CompareLines(f1[0], f2[0], cmpCode);
      if c.value < 0 {
        SortedTail(f1, cmpCode);
        MergeSorted(f1[1..], f2, cmpCode);
        var rest := Merge(f1[1..], f2, cmpCode).value;
        if rest != [] {
          if |f1| > 1 && rest[0] == f1[1] {
            assert CompareLines(f1[0], f1[1], cmpCode).value <= 0;
          } else {
            assert rest[0] == f2[0];
          }
        }
        SortedCons(f1[0], rest, cmpCode);
      } else {
        SortedTail(f2, cmpCode);
        MergeSorted(f1, f2[1..], cmpCode);
        var rest := Merge(f1, f2[1..], cmpCode).value;
        if rest != [] {
          if |f2| > 1 && rest[0] == f2[1] {
            assert CompareLines(f2[0], f2[1], cmpCode).value <= 0;
          } else {
            assert rest[0] == f1[0];
            CompareTotal(f1[0], f2[0], f2[0], cmpCode);
          }
        }
        SortedCons(f2[0], rest, cmpCode);
      }
    }
  }

  lemma SortedTail(f: seq<string>, cmpCode: (string, string) -> int)
    requires SortedLines(f, cmpCode) && f != []
    ensures SortedLines(f[1..], cmpCode)
  {
    forall k | 0 <= k < |f| - 2 ensures CompareLines(f[1..][k], f[1..][k + 1], cmpCode).value <= 0 {
      assert f[1..][k] == f[k + 1] && f[1..][k + 1] == f[k + 2];
    }
  }

  lemma SortedCons(x: string, rest: seq<string>, cmpCode: (string, string) -> int)
    requires SortedLines(rest, cmpCode) && LineKey(x).Ok? && SageInt(LineKey(x).value.cond).Ok?
    requires rest != [] ==> CompareLines(x, rest[0], cmpCode).value <= 0
    ensures SortedLines([x] + rest, cmpCode)
  {
    var f := [x] + rest;
    forall k | 0 <= k < |f| ensures LineKey(f[k]).Ok? && SageInt(LineKey(f[k]).value.cond).Ok? {
      if k > 0 { assert f[k] == rest[k - 1]; }
    }
    forall k | 0 <= k < |f| - 1 ensures CompareLines(f[k], f[k + 1], cmpCode).value <= 0 {
      if k > 0 { assert f[k] == rest[k - 1] && f[k + 1] == rest[k]; }
    }
  }
}
