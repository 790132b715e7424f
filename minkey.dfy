/** Python's `xs.sort(key=k); xs[0]`: a stable sort puts the first of
    the elements with the least key at the front, so taking the head of
    the sorted list selects the first index of minimal key. */
module MinKey {

  /** The first index holding the least value of `ws`. */
  function FirstMin(ws: seq<int>): (i: nat)
    requires |ws| > 0
    ensures i < |ws|
    ensures forall j :: 0 <= j < |ws| ==> ws[i] <= ws[j]
    ensures forall j :: 0 <= j < i ==> ws[j] > ws[i]
  {
    if |ws| == 1 then 0
    else
      var k := FirstMin(ws[..|ws| - 1]);
      if ws[|ws| - 1] < ws[k] then |ws| - 1 else k
  }
}
