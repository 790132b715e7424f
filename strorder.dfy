/** Python's comparison of strings (character by character, a proper
    prefix first), `sorted` on a list of strings and `list.remove`. */
module StrOrder {
  import opened Wrappers

  predicate Less(a: string, b: string)
    decreases |a|
  {
    if a == [] then b != []
    else if b == [] then false
    else if a[0] != b[0] then a[0] < b[0]
    else Less(a[1..], b[1..])
  }

  predicate Le(a: string, b: string) { a == b || Less(a, b) }

  lemma {:induction false} LessIrreflexive(a: string)
    ensures !Less(a, a)
    decreases |a|
  {
    if a != [] {
      LessIrreflexive(a[1..]);
    }
  }

  lemma {:induction false} LessTrans(a: string, b: string, c: string)
    requires Less(a, b) && Less(b, c)
    ensures Less(a, c)
    decreases |a|
  {
    if a != [] && b != [] && c != [] && a[0] == b[0] && b[0] == c[0] {
      LessTrans(a[1..], b[1..], c[1..]);
    }
  }

  lemma {:induction false} LessTotal(a: string, b: string)
    requires a != b
    ensures Less(a, b) || Less(b, a)
    decreases |a|
  {
    if a != [] && b != [] && a[0] == b[0] {
      LessTotal(a[1..], b[1..]);
    }
  }

  lemma LeTrans(a: string, b: string, c: string)
    requires Le(a, b) && Le(b, c)
    ensures Le(a, c)
  {
    if a != b && b != c {
      LessTrans(a, b, c);
    }
  }

  /** Less is a strict order: never both ways. */
  lemma LessAsym(a: string, b: string)
    requires Less(a, b)
    ensures !Less(b, a) && a != b
  {
    LessIrreflexive(a);
    if Less(b, a) {
      LessTrans(a, b, a);
    }
  }

  predicate Sorted(s: seq<string>)
  {
    forall i, j :: 0 <= i < j < |s| ==> Le(s[i], s[j])
  }

  /** x placed before the first element it does not exceed. */
  function Insert(x: string, s: seq<string>): (r: seq<string>)
    requires Sorted(s)
    ensures Sorted(r) && multiset(r) == multiset(s) + multiset{x}
    decreases |s|
  {
    if s == [] then [x]
    else if Le(x, s[0]) then
      assert forall j :: 0 <= j < |s| ==> Le(x, s[j]) by {
        forall j | 0 <= j < |s| ensures Le(x, s[j]) {
          LeTrans(x, s[0], s[j]);
        }
      }
      SortedCons(x, s);
      [x] + s
    else
      LessTotal(x, s[0]);
      SortedTail(s);
      var rest := Insert(x, s[1..]);
      assert forall j :: 0 <= j < |rest| ==> Le(s[0], rest[j]) by {
        forall j | 0 <= j < |rest| ensures Le(s[0], rest[j]) {
          assert rest[j] in multiset(rest);
          if rest[j] != x {
            BoundOfMember(s[0], s[1..], rest[j]);
          }
        }
      }
      SortedCons(s[0], rest);
      assert s == [s[0]] + s[1..];
      [s[0]] + rest
  }

  /** A lower bound of a sorted list can go in front of it. */
  lemma SortedCons(x: string, s: seq<string>)
    requires Sorted(s) && forall j :: 0 <= j < |s| ==> Le(x, s[j])
    ensures Sorted([x] + s)
  {
    var r := [x] + s;
    forall i, j | 0 <= i < j < |r| ensures Le(r[i], r[j]) {
      assert r[j] == s[j - 1];
      if i > 0 {
        assert r[i] == s[i - 1];
      }
    }
  }

  /** A lower bound of every element bounds each member. */
  lemma BoundOfMember(x: string, s: seq<string>, y: string)
    requires (forall j :: 0 <= j < |s| ==> Le(x, s[j])) && y in multiset(s)
    ensures Le(x, y)
  {
    var i :| 0 <= i < |s| && s[i] == y;
  }

  /** `sorted(xs)`: the elements of xs in non-decreasing order. */
  function Sort(xs: seq<string>): (r: seq<string>)
    ensures Sorted(r) && multiset(r) == multiset(xs)
    decreases |xs|
  {
    if xs == [] then []
    else
      assert xs == xs[..|xs| - 1] + [xs[|xs| - 1]];
      Insert(xs[|xs| - 1], Sort(xs[..|xs| - 1]))
  }

  /** A sorted list is determined by its elements: `sorted` gives the
      only ordering of them that is sorted. */
  lemma {:induction false} SortedUnique(a: seq<string>, b: seq<string>)
    requires Sorted(a) && Sorted(b) && multiset(a) == multiset(b)
    ensures a == b
    decreases |a|
  {
    if a != [] {
      SortedHeads(a, b);
      MultisetTail(a, b);
      SortedTail(a);
      SortedTail(b);
      SortedUnique(a[1..], b[1..]);
      assert a == [a[0]] + a[1..] && b == [b[0]] + b[1..];
    }
  }

  /** Two sorted lists with the same elements start alike. */
  lemma SortedHeads(a: seq<string>, b: seq<string>)
    requires Sorted(a) && Sorted(b) && multiset(a) == multiset(b) && a != []
    ensures b != [] && a[0] == b[0]
  {
    assert a[0] in multiset(b) && b[0] in multiset(a);
    var i :| 0 <= i < |b| && b[i] == a[0];
    var j :| 0 <= j < |a| && a[j] == b[0];
    assert Le(b[0], a[0]) && Le(a[0], b[0]);
    if a[0] != b[0] {
      LessAsym(a[0], b[0]);
    }
  }

  lemma MultisetTail(a: seq<string>, b: seq<string>)
    requires a != [] && b != [] && a[0] == b[0] && multiset(a) == multiset(b)
    ensures multiset(a[1..]) == multiset(b[1..])
  {
    assert a == [a[0]] + a[1..] && b == [b[0]] + b[1..];
    assert multiset(a) == multiset{a[0]} + multiset(a[1..]);
    assert multiset(b) == multiset{b[0]} + multiset(b[1..]);
    assert multiset(a[1..]) == multiset(a) - multiset{a[0]};
  }

  /** `s.remove(x)`: the first occurrence taken out, or ValueError. */
  function Remove(s: seq<string>, x: string): (r: Result<seq<string>>)
    ensures r.Err? <==> x !in s
    ensures r.Err? ==> r.error == ValueError
    ensures r.Ok? ==> multiset(r.value) == multiset(s) - multiset{x}
    decreases |s|
  {
    if s == [] then Err(ValueError)
    else if s[0] == x then
      assert s == [x] + s[1..];
      Ok(s[1..])
    else
      var rest := Remove(s[1..], x);
      assert s == [s[0]] + s[1..];
      if rest.Err? then Err(ValueError) else Ok([s[0]] + rest.value)
  }

  /** Removing from a list whose head is another string. */
  lemma RemoveCons(y: string, t: seq<string>, x: string)
    requires y != x && x in t
    ensures Remove([y] + t, x) == Ok([y] + Remove(t, x).value)
  {
    assert ([y] + t)[1..] == t;
  }

  lemma SortedTail(s: seq<string>)
    requires Sorted(s) && s != []
    ensures Sorted(s[1..])
    ensures forall j :: 1 <= j < |s| ==> Le(s[0], s[j])
  {
    forall i, j | 0 <= i < j < |s| - 1 ensures Le(s[1..][i], s[1..][j]) {
      assert s[1..][i] == s[i + 1] && s[1..][j] == s[j + 1];
    }
  }

  /** Removing an element keeps a sorted list sorted. */
  lemma {:induction false} RemoveSorted(s: seq<string>, x: string)
    requires Sorted(s) && x in s
    ensures Remove(s, x).Ok? && Sorted(Remove(s, x).value)
    decreases |s|
  {
    SortedTail(s);
    if s[0] != x {
      assert x in s[1..] by {
        var k :| 0 <= k < |s| && s[k] == x;
        assert s[1..][k - 1] == x;
      }
      RemoveSorted(s[1..], x);
      var rest := Remove(s[1..], x).value;
      forall j | 0 <= j < |rest| ensures Le(s[0], rest[j]) {
        assert rest[j] in multiset(rest);
        BoundOfMember(s[0], s[1..], rest[j]);
      }
      SortedCons(s[0], rest);
      assert Remove(s, x) == Ok([s[0]] + rest);
    }
  }
}
