/** Ascending duplicate-free lists of integers: what Python's
    `list(Set(xs)); sort()` produces. */
module SortedSeqs {

  function Elems(s: seq<int>): set<int>
  {
    set k | k in s
  }

  predicate StrictlySorted(s: seq<int>)
  {
    forall i, j :: 0 <= i < j < |s| ==> s[i] < s[j]
  }

  lemma ConsSorted(h: int, rest: seq<int>)
    requires StrictlySorted(rest) && forall i :: 0 <= i < |rest| ==> h < rest[i]
    ensures StrictlySorted([h] + rest)
  {
  }

  lemma ConsElems(h: int, rest: seq<int>)
    ensures Elems([h] + rest) == {h} + Elems(rest)
  {
    assert forall k :: k in [h] + rest <==> k == h || k in rest;
  }

  /** x inserted at its place in a strictly sorted list, unless present. */
  function Insert(x: int, s: seq<int>): (r: seq<int>)
    requires StrictlySorted(s)
    ensures StrictlySorted(r) && Elems(r) == Elems(s) + {x}
    decreases |s|
  {
    if s == [] then [x]
    else if x < s[0] then
      InsertFront(x, s);
      [x] + s
    else if x == s[0] then
      ElemsMember(s, s[0]);
      s
    else
      HeadTail(s);
      var rest := Insert(x, s[1..]);
      InsertLater(s[0], x, s[1..], rest);
      [s[0]] + rest
  }

  lemma InsertFront(x: int, s: seq<int>)
    requires StrictlySorted(s) && s != [] && x < s[0]
    ensures StrictlySorted([x] + s) && Elems([x] + s) == Elems(s) + {x}
  {
    ConsSorted(x, s);
    ConsElems(x, s);
  }

  lemma HeadTail(s: seq<int>)
    requires StrictlySorted(s) && s != []
    ensures StrictlySorted(s[1..]) && (forall i :: 0 <= i < |s| - 1 ==> s[0] < s[1..][i])
    ensures s == [s[0]] + s[1..]
  {
  }

  lemma InsertLater(h: int, x: int, t: seq<int>, rest: seq<int>)
    requires h < x && (forall i :: 0 <= i < |t| ==> h < t[i])
    requires StrictlySorted(rest) && Elems(rest) == Elems(t) + {x}
    ensures StrictlySorted([h] + rest) && Elems([h] + rest) == Elems([h] + t) + {x}
  {
    BoundKept(h, x, t, rest);
    ConsSorted(h, rest);
    ConsElems(h, rest);
    ConsElems(h, t);
  }

  /** A strict lower bound of s and of x bounds s with x added. */
  lemma BoundKept(h: int, x: int, s: seq<int>, r: seq<int>)
    requires h < x && Elems(r) == Elems(s) + {x}
    requires forall i :: 0 <= i < |s| ==> h < s[i]
    ensures forall i :: 0 <= i < |r| ==> h < r[i]
  {
    forall i | 0 <= i < |r| ensures h < r[i] {
      ElemsMember(r, r[i]);
      if r[i] != x {
        ElemsMember(s, r[i]);
      }
    }
  }

  /** The elements of xs, ascending and without repetition. */
  function SortedSetOf(xs: seq<int>): (r: seq<int>)
    ensures StrictlySorted(r) && Elems(r) == Elems(xs)
    decreases |xs|
  {
    if xs == [] then []
    else
      var r := Insert(xs[|xs| - 1], SortedSetOf(xs[..|xs| - 1]));
      assert xs == xs[..|xs| - 1] + [xs[|xs| - 1]];
      r
  }

  /** A strictly sorted list is determined by its set of elements, so
      any way of sorting the distinct elements gives SortedSetOf. */
  lemma ElemsMember(s: seq<int>, k: int)
    ensures k in Elems(s) <==> k in s
  {
  }

  lemma {:induction false} SortedUnique(a: seq<int>, b: seq<int>)
    requires StrictlySorted(a) && StrictlySorted(b)
    requires Elems(a) == Elems(b)
    ensures a == b
    decreases |a|
  {
    if a != [] && b != [] {
      ElemsMember(a, a[0]);
      ElemsMember(b, a[0]);
      ElemsMember(a, b[0]);
      ElemsMember(b, b[0]);
      assert a[0] == b[0];
      forall k | k in Elems(a[1..]) ensures k in Elems(b[1..]) {
        ElemsMember(a[1..], k);
        ElemsMember(a, k);
        ElemsMember(b, k);
        var i :| 1 <= i < |a| && a[i] == k;
        var j :| 0 <= j < |b| && b[j] == k;
        assert j != 0;
        assert b[j] in b[1..];
        ElemsMember(b[1..], k);
      }
      forall k | k in Elems(b[1..]) ensures k in Elems(a[1..]) {
        ElemsMember(b[1..], k);
        ElemsMember(a, k);
        ElemsMember(b, k);
        var j :| 1 <= j < |b| && b[j] == k;
        var i :| 0 <= i < |a| && a[i] == k;
        assert i != 0;
        assert a[i] in a[1..];
        ElemsMember(a[1..], k);
      }
      SortedUnique(a[1..], b[1..]);
      assert a == [a[0]] + a[1..] && b == [b[0]] + b[1..];
    } else if a != [] {
      ElemsMember(a, a[0]);
      ElemsMember(b, a[0]);
    } else if b != [] {
      ElemsMember(a, b[0]);
      ElemsMember(b, b[0]);
    }
  }
}
