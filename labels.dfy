/** The alllabels file: each curve of an isogeny class numbered in the
    class's own order (Cremona) and by the position of its
    a-invariants in ascending order (LMFDB). The isogeny class of a
    curve is computed outside the program and is a parameter here. */
module Labels {
  import opened Wrappers
  import opened Text

  type Ainvs = seq<int>

  /** Python's comparison of integer tuples: the first difference
      decides, and a proper prefix comes first. */
  predicate LexLess(a: Ainvs, b: Ainvs)
    decreases |a|
  {
    if a == [] then b != []
    else if b == [] then false
    else if a[0] != b[0] then a[0] < b[0]
    else LexLess(a[1..], b[1..])
  }

  predicate LexLe(a: Ainvs, b: Ainvs) { a == b || LexLess(a, b) }

  lemma {:induction false} LexIrreflexive(a: Ainvs)
    ensures !LexLess(a, a)
    decreases |a|
  {
    if a != [] {
      LexIrreflexive(a[1..]);
    }
  }

  lemma {:induction false} LexTrans(a: Ainvs, b: Ainvs, c: Ainvs)
    requires LexLess(a, b) && LexLess(b, c)
    ensures LexLess(a, c)
    decreases |a|
  {
    if a != [] && b != [] && c != [] && a[0] == b[0] && b[0] == c[0] {
      LexTrans(a[1..], b[1..], c[1..]);
    }
  }

  lemma {:induction false} LexTotal(a: Ainvs, b: Ainvs)
    requires a != b
    ensures LexLess(a, b) || LexLess(b, a)
    decreases |a|
  {
    if a != [] && b != [] && a[0] == b[0] {
      assert a == [a[0]] + a[1..] && b == [b[0]] + b[1..];
      LexTotal(a[1..], b[1..]);
    }
  }

  lemma LexAsym(a: Ainvs, b: Ainvs)
    requires LexLess(a, b)
    ensures !LexLess(b, a) && a != b
  {
    LexIrreflexive(a);
    if LexLess(b, a) {
      LexTrans(a, b, a);
    }
  }

  lemma LexLeTrans(a: Ainvs, b: Ainvs, c: Ainvs)
    requires LexLe(a, b) && LexLe(b, c)
    ensures LexLe(a, c)
  {
    if a != b && b != c {
      LexTrans(a, b, c);
    }
  }

  predicate Sorted(s: seq<Ainvs>)
  {
    forall i, j :: 0 <= i < j < |s| ==> LexLe(s[i], s[j])
  }

  /** No curve listed twice: the curves of an isogeny class have
      pairwise different a-invariants. */
  predicate Distinct(s: seq<Ainvs>)
  {
    forall i, j :: 0 <= i < j < |s| ==> s[i] != s[j]
  }

  /** x placed before the first element it does not exceed. */
  function Insert(x: Ainvs, s: seq<Ainvs>): (r: seq<Ainvs>)
    requires Sorted(s)
    ensures Sorted(r) && multiset(r) == multiset(s) + multiset{x}
    decreases |s|
  {
    if s == [] then [x]
    else if LexLe(x, s[0]) then
      assert forall j :: 0 <= j < |s| ==> LexLe(x, s[j]) by {
        forall j | 0 <= j < |s| ensures LexLe(x, s[j]) {
          LexLeTrans(x, s[0], s[j]);
        }
      }
      [x] + s
    else
      LexTotal(x, s[0]);
      var rest := Insert(x, s[1..]);
      assert forall j :: 0 <= j < |rest| ==> LexLe(s[0], rest[j]) by {
        forall j | 0 <= j < |rest| ensures LexLe(s[0], rest[j]) {
          assert rest[j] in multiset(rest);
          if rest[j] != x {
            assert rest[j] in multiset(s[1..]);
            var i :| 0 <= i < |s[1..]| && s[1..][i] == rest[j];
            assert s[i + 1] == rest[j];
          }
        }
      }
      assert s == [s[0]] + s[1..];
      [s[0]] + rest
  }

  /** `sorted(curves, key=a_invariants)`: the same curves in ascending
      order of their a-invariants. */
  function Sort(xs: seq<Ainvs>): (r: seq<Ainvs>)
    ensures Sorted(r) && multiset(r) == multiset(xs)
    decreases |xs|
  {
    if xs == [] then []
    else
      assert xs == xs[..|xs| - 1] + [xs[|xs| - 1]];
      Insert(xs[|xs| - 1], Sort(xs[..|xs| - 1]))
  }

  lemma SortLength(xs: seq<Ainvs>)
    ensures |Sort(xs)| == |xs|
  {
    assert |multiset(Sort(xs))| == |multiset(xs)|;
  }

  /** `s.index(x)`: the first position holding x. */
  function IndexOf(s: seq<Ainvs>, x: Ainvs): (r: nat)
    requires x in s
    ensures r < |s| && s[r] == x
    ensures forall i :: 0 <= i < r ==> s[i] != x
    decreases |s|
  {
    if s[0] == x then 0
    else
      assert x in s[1..] by {
        var k :| 0 <= k < |s| && s[k] == x;
        assert s[1..][k - 1] == x;
      }
      1 + IndexOf(s[1..], x)
  }

  /** `lab2`: each curve's position, counted from 1, in the sorted class. */
  function Lab2(curves: seq<Ainvs>): (lab: seq<int>)
    ensures |lab| == |curves|
  {
    var sorted := Sort(curves);
    seq(|curves|, j requires 0 <= j < |curves| =>
      assert curves[j] in multiset(sorted);
      1 + IndexOf(sorted, curves[j]))
  }

  /** A value held twice in a list is counted twice. */
  lemma TwiceCounted(s: seq<Ainvs>, i: int, j: int)
    requires 0 <= i < j < |s| && s[i] == s[j]
    ensures multiset(s)[s[i]] >= 2
  {
    assert s == s[..j] + [s[j]] + s[j + 1..];
    assert s[i] in multiset(s[..j]) by {
      assert s[..j][i] == s[i];
    }
  }

  /** In a list without repetitions each value is counted at most once. */
  lemma {:induction false} DistinctCount(s: seq<Ainvs>, x: Ainvs)
    requires Distinct(s)
    ensures multiset(s)[x] <= 1
    decreases |s|
  {
    if s != [] {
      var init := s[..|s| - 1];
      assert s == init + [s[|s| - 1]];
      assert Distinct(init) by {
        forall i, j | 0 <= i < j < |init| ensures init[i] != init[j] {
          assert init[i] == s[i] && init[j] == s[j];
        }
      }
      DistinctCount(init, x);
      if x == s[|s| - 1] {
        forall k | 0 <= k < |init| ensures init[k] != x {
          assert s[k] != s[|s| - 1];
        }
        assert x !in init;
      }
    }
  }

  /** Sorting distinct curves orders them strictly. */
  lemma SortStrict(curves: seq<Ainvs>)
    requires Distinct(curves)
    ensures forall i, j :: 0 <= i < j < |Sort(curves)| ==> LexLess(Sort(curves)[i], Sort(curves)[j])
  {
    var s := Sort(curves);
    forall i, j | 0 <= i < j < |s| ensures LexLess(s[i], s[j]) {
      if s[i] == s[j] {
        TwiceCounted(s, i, j);
        DistinctCount(curves, s[i]);
      }
    }
  }

  /** The LMFDB numbers follow the order of the a-invariants: curve i
      gets a smaller number than curve j exactly when its a-invariants
      come first. */
  lemma Lab2Monotone(curves: seq<Ainvs>, i: int, j: int)
    requires Distinct(curves) && 0 <= i < |curves| && 0 <= j < |curves|
    ensures Lab2(curves)[i] < Lab2(curves)[j] <==> LexLess(curves[i], curves[j])
  {
    var s := Sort(curves);
    SortStrict(curves);
    var lab := Lab2(curves);
    var a, b := lab[i] - 1, lab[j] - 1;
    assert s[a] == curves[i] && s[b] == curves[j];
    if a < b {
      assert LexLess(s[a], s[b]);
    } else if a == b {
      LexIrreflexive(curves[i]);
    } else {
      assert LexLess(s[b], s[a]);
      LexAsym(s[b], s[a]);
    }
  }

  /** The LMFDB numbers of a class of n distinct curves are a
      permutation of 1..n: each lies in 1..n, no two curves share one,
      and every number in 1..n is used. */
  lemma Lab2Permutation(curves: seq<Ainvs>)
    requires Distinct(curves)
    ensures forall j :: 0 <= j < |curves| ==> 1 <= Lab2(curves)[j] <= |curves|
    ensures forall i, j :: 0 <= i < j < |curves| ==> Lab2(curves)[i] != Lab2(curves)[j]
    ensures forall k :: 1 <= k <= |curves| ==> k in Lab2(curves)
  {
    SortLength(curves);
    Lab2Injective(curves);
    forall k | 1 <= k <= |curves| ensures k in Lab2(curves) {
      Lab2Onto(curves, k);
    }
  }

  lemma Lab2Injective(curves: seq<Ainvs>)
    ensures forall i, j :: 0 <= i < j < |curves| && curves[i] != curves[j] ==> Lab2(curves)[i] != Lab2(curves)[j]
  {
    var s := Sort(curves);
    var lab := Lab2(curves);
    forall i, j | 0 <= i < j < |curves| && curves[i] != curves[j] ensures lab[i] != lab[j] {
      assert s[lab[i] - 1] == curves[i] && s[lab[j] - 1] == curves[j];
    }
  }

  lemma Lab2Onto(curves: seq<Ainvs>, k: int)
    requires Distinct(curves) && 1 <= k <= |curves|
    ensures k in Lab2(curves)
  {
    var s := Sort(curves);
    var lab := Lab2(curves);
    SortLength(curves);
    SortStrict(curves);
    assert s[k - 1] in multiset(curves);
    var j :| 0 <= j < |curves| && curves[j] == s[k - 1];
    forall i | 0 <= i < |s| && i != k - 1 ensures s[i] != s[k - 1] {
      if i < k - 1 {
        LexAsym(s[i], s[k - 1]);
      } else {
        LexAsym(s[k - 1], s[i]);
      }
    }
    assert lab[j] == k;
  }

  /** The line written for curve j of class N cl:
      `N cl lab1 N cl lab2` with lab1 = j + 1. */
  function LabelLine(N: string, cl: string, curves: seq<Ainvs>, j: int): string
    requires 0 <= j < |curves|
  {
    LineOf(N, cl, j + 1, Lab2(curves)[j])
  }

  function LineOf(N: string, cl: string, lab1: int, lab2: int): string
  {
    Join([N, cl, IntToStr(lab1), N, cl, IntToStr(lab2)], " ")
  }

  lemma ClassLinesPrefix(N: string, cl: string, curves: seq<Ainvs>, j: int)
    requires 0 <= j < |curves|
    ensures ClassLines(N, cl, curves)[..j + 1] == ClassLines(N, cl, curves)[..j] + [LabelLine(N, cl, curves, j)]
  {
  }

  /** The lines written for one class, one per curve in class order. */
  function ClassLines(N: string, cl: string, curves: seq<Ainvs>): (ls: seq<string>)
    ensures |ls| == |curves|
    ensures forall j :: 0 <= j < |curves| ==> ls[j] == LabelLine(N, cl, curves, j)
  {
    seq(|curves|, j requires 0 <= j < |curves| => LabelLine(N, cl, curves, j))
  }

  /** The inner loop: one line per curve, appended to what is written. */
  method WriteClass(N: string, cl: string, curves: seq<Ainvs>, out0: seq<string>) returns (out: seq<string>)
    ensures out == out0 + ClassLines(N, cl, curves)
  {
    var lab2 := Lab2(curves);
    out := out0;
    for j := 0 to |curves|
      invariant out == out0 + ClassLines(N, cl, curves)[..j]
    {
      var line := LineOf(N, cl, j + 1, lab2[j]);
      ClassLinesPrefix(N, cl, curves, j);
      AppendAssoc(out0, ClassLines(N, cl, curves)[..j], [line]);
      out := out + [line];
    }
    assert ClassLines(N, cl, curves)[..|curves|] == ClassLines(N, cl, curves);
  }

  /** A line of the curves file: its seven whitespace-separated fields,
      of which the conductor, the class code and the a-invariants are
      used; any other number of fields is a ValueError. */
  function ParseCurveLine(L: string): (r: Result<(string, string, string)>)
    ensures r.Err? <==> |Words(L)| != 7
    ensures r.Err? ==> r.error == ValueError
    ensures r.Ok? ==> r.value == (Words(L)[0], Words(L)[1], Words(L)[3])
  {
    var ws := Words(L);
    if |ws| != 7 then Err(ValueError) else Ok((ws[0], ws[1], ws[3]))
  }

  /** What `make_alllabels` writes for the lines ls, and the error that
      stops it, if any: a line that does not split into seven fields
      stops the run after the lines written for the earlier ones. The
      isogeny class of the curve with a-invariants text a is
      isogClass(a). */
  function AllLabels(ls: seq<string>, isogClass: string -> seq<Ainvs>): (r: (seq<string>, Option<PyError>))
    decreases |ls|
  {
    if ls == [] then ([], None)
    else
      match ParseCurveLine(ls[0])
      case Err(e) => ([], Some(e))
      case Ok((N, cl, a)) =>
        var rest := AllLabels(ls[1..], isogClass);
        (ClassLines(N, cl, isogClass(a)) + rest.0, rest.1)
  }

  /** The run fails exactly when some line does not have seven fields,
      and then with a ValueError. */
  lemma {:induction false} AllLabelsFails(ls: seq<string>, isogClass: string -> seq<Ainvs>)
    ensures AllLabels(ls, isogClass).1.Some? <==> exists i :: 0 <= i < |ls| && ParseCurveLine(ls[i]).Err?
    ensures AllLabels(ls, isogClass).1.Some? ==> AllLabels(ls, isogClass).1.value == ValueError
    decreases |ls|
  {
    if ls != [] {
      var tail := ls[1..];
      AllLabelsFails(tail, isogClass);
      forall i | 0 < i < |ls| ensures ls[i] == tail[i - 1] { }
      if ParseCurveLine(ls[0]).Ok? {
        if exists i :: 0 <= i < |ls| && ParseCurveLine(ls[i]).Err? {
          var i :| 0 <= i < |ls| && ParseCurveLine(ls[i]).Err?;
          assert ParseCurveLine(tail[i - 1]).Err?;
        }
      }
    }
  }

  /** The output file name: the prefix, "alllabels." and the part of
      the input name after its one dot; a name without exactly one dot
      is a ValueError. */
  function OutputName(infilename: string, pref: string): (r: Result<string>)
    ensures r.Err? <==> |Split(infilename, '.')| != 2
    ensures r.Err? ==> r.error == ValueError
  {
    var parts := Split(infilename, '.');
    if |parts| != 2 then Err(ValueError) else Ok(pref + "alllabels." + parts[1])
  }

  /** `curves.230000-239999` gives `<pref>alllabels.230000-239999`. */
  lemma OutputNameOf(pre: string, suf: string, pref: string)
    requires '.' !in pre && '.' !in suf
    ensures OutputName(pre + "." + suf, pref) == Ok(pref + "alllabels." + suf)
  {
    SplitJoin([pre, suf], '.');
    assert Join([pre, suf], ['.']) == pre + "." + suf;
  }

  /** One step of the run: the first line's class lines, then the rest. */
  lemma AllLabelsCons(ls: seq<string>, isogClass: string -> seq<Ainvs>)
    requires ls != []
    ensures ParseCurveLine(ls[0]).Err? ==> AllLabels(ls, isogClass) == ([], Some(ParseCurveLine(ls[0]).error))
    ensures ParseCurveLine(ls[0]).Ok? ==>
      var (N, cl, a) := ParseCurveLine(ls[0]).value;
      AllLabels(ls, isogClass) == (ClassLines(N, cl, isogClass(a)) + AllLabels(ls[1..], isogClass).0, AllLabels(ls[1..], isogClass).1)
  {
  }

  /** `make_alllabels`: for each line of the curves file, the lines of
      its isogeny class, until a line fails to split into seven fields. */
  method MakeAllLabels(ls: seq<string>, isogClass: string -> seq<Ainvs>) returns (written: seq<string>, err: Option<PyError>)
    ensures written == AllLabels(ls, isogClass).0 && err == AllLabels(ls, isogClass).1
  {
    written := [];
    err := None;
    var i := 0;
    assert ls[0..] == ls;
    assert written + AllLabels(ls, isogClass).0 == AllLabels(ls, isogClass).0;
    while i < |ls|
      invariant 0 <= i <= |ls|
      invariant AllLabels(ls, isogClass).0 == written + AllLabels(ls[i..], isogClass).0
      invariant AllLabels(ls, isogClass).1 == AllLabels(ls[i..], isogClass).1
    {
      assert ls[i..][1..] == ls[i + 1..];
      AllLabelsCons(ls[i..], isogClass);
      var parsed := ParseCurveLine(ls[i]);
      if parsed.Err? {
        assert written + [] == written;
        err := Some(parsed.error);
        return;
      }
      var (N, cl, a) := parsed.value;
      AppendAssoc(written, ClassLines(N, cl, isogClass(a)), AllLabels(ls[i + 1..], isogClass).0);
      written := WriteClass(N, cl, isogClass(a), written);
      i := i + 1;
    }
    assert ls[i..] == [];
    assert written + [] == written;
  }

  /** A written line splits into the six fields `N cl lab1 N cl lab2`,
      and its numbers read back as lab1 and lab2. */
  lemma LineOfFields(N: string, cl: string, lab1: int, lab2: int)
    requires IsWord(N) && IsWord(cl)
    ensures var ws := Words(LineOf(N, cl, lab1, lab2));
      |ws| == 6 && ws[0] == N && ws[1] == cl && ws[3] == N && ws[4] == cl &&
      ParseInt(ws[2]) == Ok(lab1) && ParseInt(ws[5]) == Ok(lab2)
  {
    IntToStrChars(lab1);
    IntToStrChars(lab2);
    WordsJoin([N, cl, IntToStr(lab1), N, cl, IntToStr(lab2)]);
    ParseIntOfIntToStr(lab1);
    ParseIntOfIntToStr(lab2);
  }
}
