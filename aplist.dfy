/** scripts/aplist.py (repeated in scripts/ecdb.py and
    scripts/ec_utils.py): the line of an aplist file. For each prime
    p < 100 it holds a_p, or the sign of the local root number when p
    divides the discriminant, right-aligned in a column of width 2
    (p <= 23) or 3 (p > 23); then `+(q)` or `-(q)` for each prime q > 100
    dividing the discriminant. The curve's a_p and local root numbers,
    which Sage computes, are inputs of the model. */
module Aplist {
  import opened Wrappers
  import opened Text
  import opened Arith
  import opened SortedSeqs

  /** What the model needs of an elliptic curve: its discriminant, and
      a_p and the local root number at each prime. */
  datatype CurveData = CurveData(disc: int, ap: int -> int, rootNumber: int -> int)

  /** `my_ap(E, D, p)`: the local root number at a prime dividing D,
      a_p otherwise. */
  function MyAp(E: CurveData, D: int, p: int): int
    requires p > 0
  {
    if D % p == 0 then E.rootNumber(p) else E.ap(p)
  }

  /** The sign written for a root number: only 1 is '+'. */
  function SignChar(w: int): char { if w == 1 then '+' else '-' }

  /** The text of an entry without its padding: the sign of the root
      number at a bad prime, a_p in decimal at a good one. */
  function Token(E: CurveData, D: int, p: int): (t: string)
    requires p > 0
    ensures IsWord(t)
  {
    if D % p == 0 then [SignChar(MyAp(E, D, p))]
    else
      IntToStrChars(MyAp(E, D, p));
      IntToStr(MyAp(E, D, p))
  }

  function Spaces(n: nat): (r: string)
    ensures |r| == n
  {
    if n == 0 then "" else " " + Spaces(n - 1)
  }

  /** t preceded only by spaces. */
  predicate Padded(e: string, t: string)
  {
    |t| <= |e| && e == Spaces(|e| - |t|) + t
  }

  /** `wstr(n, w)` is `str(n)` preceded only by spaces. */
  lemma {:induction false} PaddedOfWStr(n: int, w: int)
    ensures Padded(WStr(n, w), IntToStr(n))
  {
    var r, a := WStr(n, w), IntToStr(n);
    var k := |r| - |a|;
    SpacesAll(k);
    assert r == r[..k] + r[k..];
    assert r[..k] == Spaces(k);
  }

  lemma {:induction false} SpacesAll(n: nat)
    ensures forall i :: 0 <= i < n ==> Spaces(n)[i] == ' '
  {
    if n > 0 {
      SpacesAll(n - 1);
      assert forall i :: 1 <= i < n ==> Spaces(n)[i] == Spaces(n - 1)[i - 1];
    }
  }

  /** `my_ap_str(E, D, p)`: ' +' or ' -' at a bad prime p <= 23 and
      '  +' or '  -' at a bad p > 23; at a good prime a_p padded to
      width 2 for p <= 23 and to width 3 for p > 23. */
  function MyApStr(E: CurveData, D: int, p: int): (r: string)
    requires p > 0
    ensures Padded(r, Token(E, D, p))
    ensures D % p == 0 ==> |r| == if p > 23 then 3 else 2
    ensures D % p != 0 ==> |r| >= if p > 23 then 3 else 2
  {
    if D % p == 0 then
      if E.rootNumber(p) == 1 then (if p > 23 then "  +" else " +")
      else (if p > 23 then "  -" else " -")
    else
      PaddedOfWStr(E.ap(p), 3);
      PaddedOfWStr(E.ap(p), 2);
      if p > 23 then WStr(E.ap(p), 3) else WStr(E.ap(p), 2)
  }

  /** A small integer takes at most two or three characters. */
  lemma IntToStrShort(n: int)
    requires -19 <= n <= 19
    ensures |IntToStr(n)| <= 3
    ensures -9 <= n <= 9 ==> |IntToStr(n)| <= 2
  {
    var m := if n < 0 then -n else n;
    if m >= 10 {
      assert NatToStr(m) == NatToStr(m / 10) + [DigitChar(m % 10)];
      assert m / 10 < 10;
    }
  }

  /** Within the Hasse bound a_p^2 <= 4p every entry for p < 100 has
      exactly its column width, so the columns of an aplist file line up. */
  lemma ApStrWidth(E: CurveData, D: int, p: int)
    requires 0 < p < 100
    requires D % p != 0 ==> E.ap(p) * E.ap(p) <= 4 * p
    ensures |MyApStr(E, D, p)| == if p > 23 then 3 else 2
  {
    if D % p != 0 {
      var a := E.ap(p);
      SquareGrows(a, 20);
      SquareGrows(a, 10);
      IntToStrShort(a);
    }
  }

  /** Squares grow with the distance from 0. */
  lemma SquareGrows(a: int, b: int)
    requires b >= 0
    ensures a >= b ==> a * a >= b * b
    ensures a <= -b ==> a * a >= b * b
  {
    if a >= b {
      assert a * a >= b * a;
    } else if a <= -b {
      assert a * a >= b * (-a);
    }
  }

  /** The entries for the primes ps, in their order. */
  function ApEntriesAt(E: CurveData, ps: seq<int>): (es: seq<string>)
    requires forall k :: 0 <= k < |ps| ==> ps[k] > 0
    ensures |es| == |ps| && forall k :: 0 <= k < |ps| ==> es[k] == MyApStr(E, E.disc, ps[k])
  {
    seq(|ps|, k requires 0 <= k < |ps| => MyApStr(E, E.disc, ps[k]))
  }

  /** The tokens of those entries, without their padding. */
  function TokensAt(E: CurveData, ps: seq<int>): (ts: seq<string>)
    requires forall k :: 0 <= k < |ps| ==> ps[k] > 0
    ensures |ts| == |ps| && forall k :: 0 <= k < |ps| ==> ts[k] == Token(E, E.disc, ps[k])
  {
    seq(|ps|, k requires 0 <= k < |ps| => Token(E, E.disc, ps[k]))
  }

  /** The entries for the primes below 100, in increasing order. */
  function ApEntries(E: CurveData): (es: seq<string>)
    ensures var ps := PrimeRange(2, 100);
      |es| == |ps| && forall k :: 0 <= k < |ps| ==> es[k] == MyApStr(E, E.disc, ps[k])
  {
    ApEntriesAt(E, PrimeRange(2, 100))
  }

  /** `'+(q)'` or `'-(q)'` by the root number at q. */
  function BadEntry(E: CurveData, q: int): (e: string)
    ensures IsWord(e)
  {
    IntToStrChars(q);
    [SignChar(E.rootNumber(q))] + "(" + IntToStr(q) + ")"
  }

  /** The members of qs that exceed 100, in their order. */
  function Above100(qs: seq<int>): (r: seq<int>)
    ensures forall x :: x in r <==> x in qs && x > 100
    decreases |qs|
  {
    if qs == [] then []
    else
      var r0 := Above100(qs[..|qs| - 1]);
      assert qs == qs[..|qs| - 1] + [qs[|qs| - 1]];
      r0 + if qs[|qs| - 1] > 100 then [qs[|qs| - 1]] else []
  }

  /** The entries appended for the members of qs exceeding 100. */
  function BadEntries(E: CurveData, qs: seq<int>): seq<string>
    decreases |qs|
  {
    if qs == [] then []
    else
      var q := qs[|qs| - 1];
      BadEntries(E, qs[..|qs| - 1]) + if q > 100 then [BadEntry(E, q)] else []
  }

  /** The appended entries are those of the members above 100, in order. */
  lemma {:induction false} BadEntriesAbove(E: CurveData, qs: seq<int>)
    ensures var bs := Above100(qs);
      |BadEntries(E, qs)| == |bs| && forall k :: 0 <= k < |bs| ==> BadEntries(E, qs)[k] == BadEntry(E, bs[k])
    decreases |qs|
  {
    if qs != [] {
      BadEntriesAbove(E, qs[..|qs| - 1]);
    }
  }

  /** Above100 keeps an increasing list increasing. */
  lemma {:induction false} Above100Increasing(qs: seq<int>)
    requires StrictlySorted(qs)
    ensures StrictlySorted(Above100(qs))
    decreases |qs|
  {
    if qs != [] {
      var init := qs[..|qs| - 1];
      Above100Increasing(init);
      var r0 := Above100(init);
      var last := qs[|qs| - 1];
      assert Above100(qs) == r0 + if last > 100 then [last] else [];
      forall i | 0 <= i < |r0| ensures r0[i] < last {
        assert r0[i] in init;
        var j :| 0 <= j < |init| && init[j] == r0[i];
        assert qs[j] == init[j];
      }
      var r := Above100(qs);
      forall i, j | 0 <= i < j < |r| ensures r[i] < r[j] {
        if j < |r0| {
          assert r[i] == r0[i] && r[j] == r0[j];
          assert r0[i] < r0[j];
        } else {
          assert |r| == |r0| + 1 && j == |r0| && last > 100;
          assert r[i] == r0[i] && r[j] == last;
          assert r0[i] < last;
        }
      }
    }
  }

  /** The primes above 100 dividing D, in increasing order and each once. */
  lemma BigPrimesOfSupport(D: int)
    requires D != 0
    ensures StrictlySorted(Above100(Support(D)))
    ensures forall q :: q in Above100(Support(D)) <==> IsPrime(q) && D % q == 0 && q > 100
  {
    Above100Increasing(Support(D));
  }

  /** `my_aplist(E)` as a specification: the entries for p < 100 and then
      those of the primes above 100 dividing the discriminant, joined by
      single spaces. */
  function AplistLine(E: CurveData): string
    requires E.disc != 0
  {
    Join(ApEntries(E) + BadEntries(E, Support(E.disc)), " ")
  }

  /** `my_aplist(E)`: the entries for p < 100, then one entry appended
      for each prime q > 100 dividing the discriminant (a curve's
      discriminant is never 0). */
  method MyAplist(E: CurveData) returns (line: string)
    requires E.disc != 0
    ensures line == AplistLine(E)
  {
    var D := E.disc;
    var ap := ApEntries(E);
    var qlist := Support(D);
    ap := AppendBadEntries(E, ap, qlist);
    line := Join(ap, " ");
  }

  /** The loop of `my_aplist`: for each q in qlist above 100, `+(q)` or
      `-(q)` appended to ap. */
  method AppendBadEntries(E: CurveData, ap0: seq<string>, qlist: seq<int>) returns (ap: seq<string>)
    ensures ap == ap0 + BadEntries(E, qlist)
  {
    ap := ap0;
    for i := 0 to |qlist|
      invariant ap == ap0 + BadEntries(E, qlist[..i])
    {
      var q := qlist[i];
      BadEntriesStep(E, qlist, i);
      if q > 100 {
        BadEntryText(E, q);
        AppendAssoc(ap0, BadEntries(E, qlist[..i]), [BadEntry(E, q)]);
        if E.rootNumber(q) == 1 {
          ap := ap + ["+(" + IntToStr(q) + ")"];
        } else {
          ap := ap + ["-(" + IntToStr(q) + ")"];
        }
      } else {
        assert BadEntries(E, qlist[..i]) + [] == BadEntries(E, qlist[..i]);
      }
    }
    assert qlist[..|qlist|] == qlist;
  }

  lemma BadEntriesStep(E: CurveData, qs: seq<int>, i: int)
    requires 0 <= i < |qs|
    ensures BadEntries(E, qs[..i + 1]) == BadEntries(E, qs[..i]) + if qs[i] > 100 then [BadEntry(E, qs[i])] else []
  {
    assert qs[..i + 1][..i] == qs[..i];
  }

  lemma BadEntryText(E: CurveData, q: int)
    ensures BadEntry(E, q) == (if E.rootNumber(q) == 1 then "+(" else "-(") + IntToStr(q) + ")"
  {
  }



  // ---------------------------------------------------------------
  // Reading a line back
  // ---------------------------------------------------------------

  /** A padded word followed by whitespace or nothing is the first word. */
  lemma {:induction false} WordsPadded(e: string, t: string, rest: string)
    requires Padded(e, t) && IsWord(t)
    requires rest == [] || IsSpace(rest[0])
    ensures Words(e + rest) == [t] + Words(rest)
    decreases |e|
  {
    if |e| == |t| {
      assert e == t;
      WordsCons(t, rest);
    } else {
      var e' := Spaces(|e| - |t| - 1) + t;
      assert e == " " + e';
      WordsPadded(e', t, rest);
      ConsSpace(e, e', rest);
      WordsSpace(e' + rest);
    }
  }

  lemma {:induction false} ConsSpace(e: string, e': string, rest: string)
    requires e == " " + e'
    ensures e + rest == " " + (e' + rest)
  {
  }

  lemma WordsEmpty()
    ensures Words("") == []
  {
    assert TrimLeft("") == "";
  }

  /** Each entry is its word preceded only by spaces. */
  predicate AllPadded(es: seq<string>, ts: seq<string>)
    decreases |es|
  {
    |es| == |ts| && (es == [] || (Padded(es[0], ts[0]) && IsWord(ts[0]) && AllPadded(es[1..], ts[1..])))
  }

  lemma {:induction false} AllPaddedOf(es: seq<string>, ts: seq<string>)
    requires |es| == |ts|
    requires forall k :: 0 <= k < |es| ==> Padded(es[k], ts[k]) && IsWord(ts[k])
    ensures AllPadded(es, ts)
    decreases |es|
  {
    if es != [] {
      forall k | 0 <= k < |es| - 1 ensures Padded(es[1..][k], ts[1..][k]) && IsWord(ts[1..][k]) {
        assert es[1..][k] == es[k + 1] && ts[1..][k] == ts[k + 1];
      }
      AllPaddedOf(es[1..], ts[1..]);
    }
  }

  /** Padded words joined by spaces split back into the words. */
  lemma {:induction false} WordsJoinPadded(es: seq<string>, ts: seq<string>)
    requires AllPadded(es, ts)
    ensures Words(Join(es, " ")) == ts
    decreases |es|
  {
    if |es| <= 1 {
      WordsJoinShort(es, ts);
    } else {
      WordsJoinPadded(es[1..], ts[1..]);
      WordsJoinTail(es, ts);
    }
  }

  lemma {:induction false} WordsJoinShort(es: seq<string>, ts: seq<string>)
    requires AllPadded(es, ts) && |es| <= 1
    ensures Words(Join(es, " ")) == ts
  {
    if es == [] {
      WordsEmpty();
    } else {
      JoinSingle(es, " ");
      WordsOne(es[0], ts[0]);
      assert ts == [ts[0]];
    }
  }

  lemma JoinSingle(es: seq<string>, sep: string)
    requires |es| == 1
    ensures Join(es, sep) == es[0]
  {
  }

  lemma {:induction false} WordsJoinTail(es: seq<string>, ts: seq<string>)
    requires |es| == |ts| > 1 && Padded(es[0], ts[0]) && IsWord(ts[0])
    requires Words(Join(es[1..], " ")) == ts[1..]
    ensures Words(Join(es, " ")) == ts
  {
    JoinStep(es, " ");
    WordsPaddedCons(es[0], ts[0], Join(es[1..], " "), ts[1..]);
    HeadTail(ts);
  }

  lemma JoinStep(es: seq<string>, sep: string)
    requires |es| > 1
    ensures Join(es, sep) == es[0] + (sep + Join(es[1..], sep))
  {
    assert es[0] + sep + Join(es[1..], sep) == es[0] + (sep + Join(es[1..], sep));
  }

  lemma HeadTail(s: seq<string>)
    requires s != []
    ensures s == [s[0]] + s[1..]
  {
  }

  lemma {:induction false} WordsOne(e: string, t: string)
    requires Padded(e, t) && IsWord(t)
    ensures Words(e) == [t]
  {
    WordsEmpty();
    WordsPadded(e, t, "");
    assert e + "" == e;
  }

  lemma {:induction false} WordsPaddedCons(e: string, t: string, tail: string, ws: seq<string>)
    requires Padded(e, t) && IsWord(t) && Words(tail) == ws
    ensures Words(e + (" " + tail)) == [t] + ws
  {
    WordsPadded(e, t, " " + tail);
    WordsSpace(tail);
  }

  /** The entries of a line are padded words: the tokens at the primes
      ps, then the appended entries themselves. */
  lemma LinePadded(E: CurveData, ps: seq<int>, qs: seq<int>)
    requires forall k :: 0 <= k < |ps| ==> ps[k] > 0
    ensures AllPadded(ApEntriesAt(E, ps) + BadEntries(E, qs), TokensAt(E, ps) + BadEntries(E, qs))
  {
    TokensPadded(E, ps);
    BadPadded(E, qs);
    AllPaddedAppend(ApEntriesAt(E, ps), TokensAt(E, ps), BadEntries(E, qs), BadEntries(E, qs));
  }

  lemma TokensPadded(E: CurveData, ps: seq<int>)
    requires forall k :: 0 <= k < |ps| ==> ps[k] > 0
    ensures AllPadded(ApEntriesAt(E, ps), TokensAt(E, ps))
  {
    AllPaddedOf(ApEntriesAt(E, ps), TokensAt(E, ps));
  }

  /** An appended entry is its own token. */
  lemma BadPadded(E: CurveData, qs: seq<int>)
    ensures AllPadded(BadEntries(E, qs), BadEntries(E, qs))
  {
    var bads := BadEntries(E, qs);
    BadEntriesAbove(E, qs);
    forall k | 0 <= k < |bads| ensures Padded(bads[k], bads[k]) && IsWord(bads[k]) {
      assert Spaces(0) + bads[k] == bads[k];
    }
    AllPaddedOf(bads, bads);
  }

  lemma {:induction false} AllPaddedAppend(es1: seq<string>, ts1: seq<string>, es2: seq<string>, ts2: seq<string>)
    requires AllPadded(es1, ts1) && AllPadded(es2, ts2)
    ensures AllPadded(es1 + es2, ts1 + ts2)
    decreases |es1|
  {
    if es1 == [] {
      assert es1 + es2 == es2 && ts1 + ts2 == ts2;
    } else {
      AllPaddedAppend(es1[1..], ts1[1..], es2, ts2);
      assert (es1 + es2)[1..] == es1[1..] + es2;
      assert (ts1 + ts2)[1..] == ts1[1..] + ts2;
    }
  }

  /** A line splits back into its tokens. */
  lemma LineWords(E: CurveData, ps: seq<int>, qs: seq<int>)
    requires forall k :: 0 <= k < |ps| ==> ps[k] > 0
    ensures Words(Join(ApEntriesAt(E, ps) + BadEntries(E, qs), " ")) == TokensAt(E, ps) + BadEntries(E, qs)
  {
    LinePadded(E, ps, qs);
    WordsJoinPadded(ApEntriesAt(E, ps) + BadEntries(E, qs), TokensAt(E, ps) + BadEntries(E, qs));
  }

  /** The token at each prime of ps reads as a_p at a good prime and
      is the sign of the root number at a bad one. */
  lemma PrimeTokens(E: CurveData, ps: seq<int>)
    requires forall k :: 0 <= k < |ps| ==> ps[k] > 0
    ensures var ts := TokensAt(E, ps);
      (forall k :: 0 <= k < |ps| && E.disc % ps[k] != 0 ==> ParseInt(ts[k]) == Ok(E.ap(ps[k]))) &&
      (forall k :: 0 <= k < |ps| && E.disc % ps[k] == 0 ==> ts[k] == [SignChar(E.rootNumber(ps[k]))])
  {
    var ts := TokensAt(E, ps);
    forall k | 0 <= k < |ps| && E.disc % ps[k] != 0 ensures ParseInt(ts[k]) == Ok(E.ap(ps[k])) {
      TokenGood(E, E.disc, ps[k]);
    }
  }

  /** An aplist line read back word by word gives the tokens at the
      primes below 100 (what PrimeTokens says they read as), then the
      entries of the primes above 100 dividing the discriminant (by
      BadEntriesAbove one `+(q)`/`-(q)` for each member of
      Above100(Support(D)), which BigPrimesOfSupport shows to be those
      primes in increasing order, each once). */
  lemma AplistWords(E: CurveData)
    requires E.disc != 0
    ensures Words(AplistLine(E)) == TokensAt(E, PrimeRange(2, 100)) + BadEntries(E, Support(E.disc))
  {
    var ps := PrimeRange(2, 100);
    assert AplistLine(E) == Join(ApEntriesAt(E, ps) + BadEntries(E, Support(E.disc)), " ");
    LineWords(E, ps, Support(E.disc));
  }

  /** At a good prime the token reads back as a_p. */
  lemma TokenGood(E: CurveData, D: int, p: int)
    requires p > 0 && D % p != 0
    ensures ParseInt(Token(E, D, p)) == Ok(E.ap(p))
  {
    ParseIntOfIntToStr(E.ap(p));
  }
}
