/** scripts/eqn.py: the LaTeX form of a Weierstrass equation
    y^2 + a1 xy + a3 y = x^3 + a2 x^2 + a4 x + a6, written without
    spaces. The source assumes [a1, a2, a3] is one of the twelve
    reduced triples, so a1, a3 in {0, 1} and a2 in {-1, 0, 1}; any other
    a1 or a3 still gives "+xy" / "+y", and any other a2 is dropped. */
module Eqn {
  import opened Wrappers
  import opened Text

  /** `'{:+}'.format(n)`: the decimal form with its sign always written. */
  function SignedStr(n: int): (r: string)
    ensures |r| >= 2 && (r[0] == '+' || r[0] == '-') && AllDigits(r[1..])
  {
    if n >= 0 then "+" + IntToStr(n) else IntToStr(n)
  }

  /** The signed form reads back as the integer. */
  lemma SignedStrRoundTrip(n: int)
    ensures ParseInt(SignedStr(n)) == Ok(n)
  {
    if n >= 0 {
      DigitsValOfNatToStr(n);
      assert SignedStr(n)[1..] == NatToStr(n);
    } else {
      ParseIntOfIntToStr(n);
    }
  }

  function XyTerm(a1: int): string { if a1 != 0 then "+xy" else "" }
  function YTerm(a3: int): string { if a3 != 0 then "+y" else "" }
  function X2Term(a2: int): string { if a2 == 1 then "+x^2" else if a2 == -1 then "-x^2" else "" }

  function XTerm(a4: int): string
  {
    if a4 > 1 || a4 < -1 then SignedStr(a4) + "x"
    else if a4 == 1 then "+x"
    else if a4 == -1 then "-x"
    else ""
  }

  function ConstTerm(a6: int): string { if a6 != 0 then SignedStr(a6) else "" }

  /** The right-hand side from the equals sign to the closing delimiter. */
  function Rhs(a2: int, a4: int, a6: int): string
  {
    "=x^3" + (X2Term(a2) + (XTerm(a4) + (ConstTerm(a6) + "\\)")))
  }

  /** The eight pieces the source joins, concatenated from the right. */
  function Equation(a1: int, a2: int, a3: int, a4: int, a6: int): string
  {
    "\\(y^2" + (XyTerm(a1) + (YTerm(a3) + Rhs(a2, a4, a6)))
  }

  /** `latex_equation(ainvs)`: the five a-invariants unpacked (a list of
      any other length raises ValueError) and the terms joined. */
  function LatexEquation(ainvs: seq<int>): (r: Result<string>)
    ensures r.Err? <==> |ainvs| != 5
    ensures r.Err? ==> r.error == ValueError
  {
    if |ainvs| != 5 then Err(ValueError)
    else Ok(Equation(ainvs[0], ainvs[1], ainvs[2], ainvs[3], ainvs[4]))
  }

  /** t occurs in s at position i. */
  predicate At(s: string, t: string, i: int)
  {
    0 <= i <= |s| - |t| && s[i..i + |t|] == t
  }

  predicate Contains(s: string, t: string)
  {
    exists i :: 0 <= i <= |s| && At(s, t, i)
  }

  predicate StartsWith(s: string, p: string) { |p| <= |s| && s[..|p|] == p }

  predicate EndsWith(s: string, p: string) { |p| <= |s| && s[|s| - |p|..] == p }

  lemma DropPrefix(p: string, q: string)
    ensures StartsWith(p + q, p) && (p + q)[|p|..] == q
  {
    assert (p + q)[..|p|] == p;
  }

  lemma DropSuffix(p: string, q: string)
    ensures EndsWith(p + q, q) && (p + q)[..|p|] == p
  {
    assert (p + q)[|p + q| - |q|..] == q;
  }

  /** A string that differs from w at some position of w does not start with w. */
  lemma NotStartsWith(s: string, w: string, k: nat)
    requires k < |w| && (k >= |s| || s[k] != w[k])
    ensures !StartsWith(s, w)
  {
    if |w| <= |s| {
      assert s[..|w|][k] == s[k];
    }
  }

  /** A signed number is a sign and digits: no x, y or space, a digit
      after the sign, and it reads back as the number. */
  lemma SignedChars(n: int)
    ensures 'x' !in SignedStr(n) && 'y' !in SignedStr(n) && ' ' !in SignedStr(n)
    ensures IsDigit(SignedStr(n)[1])
    ensures ParseInt(SignedStr(n)) == Ok(n)
  {
    var s := SignedStr(n);
    forall i | 1 <= i < |s| ensures IsDigit(s[i]) {
      assert s[1..][i - 1] == s[i];
    }
    SignedStrRoundTrip(n);
  }

  /** The characters of the terms after "=x^3": no 'y' and no space. */
  lemma TermChars(a2: int, a4: int, a6: int)
    ensures 'y' !in X2Term(a2) && ' ' !in X2Term(a2)
    ensures 'y' !in XTerm(a4) && ' ' !in XTerm(a4) && 'y' !in ConstTerm(a6) && ' ' !in ConstTerm(a6)
  {
    SignedChars(a4);
    SignedChars(a6);
  }

  /** The right-hand side has no 'y' and no space. */
  lemma RhsChars(a2: int, a4: int, a6: int)
    ensures 'y' !in Rhs(a2, a4, a6) && ' ' !in Rhs(a2, a4, a6)
  {
    TermChars(a2, a4, a6);
    NoCharAppend4(X2Term(a2), XTerm(a4), ConstTerm(a6), 'y');
    NoCharAppend4(X2Term(a2), XTerm(a4), ConstTerm(a6), ' ');
  }

  lemma NoCharAppend4(x2: string, x4: string, c6: string, c: char)
    requires c !in x2 && c !in x4 && c !in c6 && c != '=' && c != 'x' && c != '^' && c != '3'
    requires c != '\\' && c != ')'
    ensures c !in "=x^3" + (x2 + (x4 + (c6 + "\\)")))
  {
  }

  /** Appending on the left keeps the end and adds no character. */
  lemma EndsWithAppend(p: string, q: string, w: string)
    requires EndsWith(q, w)
    ensures EndsWith(p + q, w)
  {
    assert (p + q)[|p + q| - |w|..] == q[|q| - |w|..];
  }

  /** The right-hand side ends with the closing delimiter. */
  lemma RhsEnds(a2: int, a4: int, a6: int)
    ensures EndsWith(Rhs(a2, a4, a6), "\\)")
  {
    var c := ConstTerm(a6);
    EndsWithAppend(c, "\\)", "\\)");
    EndsWithAppend(XTerm(a4), c + "\\)", "\\)");
    EndsWithAppend(X2Term(a2), XTerm(a4) + (c + "\\)"), "\\)");
    EndsWithAppend("=x^3", X2Term(a2) + (XTerm(a4) + (c + "\\)")), "\\)");
  }

  lemma NoSpaceLhs(xy: string, y: string, rhs: string)
    requires ' ' !in xy && ' ' !in y && ' ' !in rhs
    ensures ' ' !in "\\(y^2" + (xy + (y + rhs))
  {
  }

  /** The equation starts with "\(y^2", ends with "\)" and has no spaces. */
  lemma EquationFrame(ainvs: seq<int>)
    requires |ainvs| == 5
    ensures StartsWith(LatexEquation(ainvs).value, "\\(y^2")
    ensures EndsWith(LatexEquation(ainvs).value, "\\)")
    ensures ' ' !in LatexEquation(ainvs).value
  {
    var a1, a2, a3, a4, a6 := ainvs[0], ainvs[1], ainvs[2], ainvs[3], ainvs[4];
    var rhs := Rhs(a2, a4, a6);
    RhsChars(a2, a4, a6);
    RhsEnds(a2, a4, a6);
    NoSpaceLhs(XyTerm(a1), YTerm(a3), rhs);
    DropPrefix("\\(y^2", XyTerm(a1) + (YTerm(a3) + rhs));
    EndsWithAppend(YTerm(a3), rhs, "\\)");
    EndsWithAppend(XyTerm(a1), YTerm(a3) + rhs, "\\)");
    EndsWithAppend("\\(y^2", XyTerm(a1) + (YTerm(a3) + rhs), "\\)");
  }

  /** With no 'y' after the left-hand side, "+xy" occurs exactly when
      the xy term is written. */
  lemma XyInLhs(a1: int, a3: int, rhs: string)
    requires 'y' !in rhs
    ensures Contains("\\(y^2" + (XyTerm(a1) + (YTerm(a3) + rhs)), "+xy") <==> a1 != 0
  {
    var l := "\\(y^2" + XyTerm(a1) + YTerm(a3);
    var s := l + rhs;
    assert s == "\\(y^2" + (XyTerm(a1) + (YTerm(a3) + rhs));
    if a1 != 0 {
      assert At(s, "+xy", 5);
    } else {
      forall j | |l| <= j < |s| ensures s[j] != 'y' {
        assert s[j] == rhs[j - |l|];
      }
      forall i | 0 <= i <= |s| ensures !At(s, "+xy", i) {
        if i <= |s| - 3 {
          assert s[i..i + 3][0] == s[i] && s[i..i + 3][1] == s[i + 1] && s[i..i + 3][2] == s[i + 2];
          if i + 2 < |l| {
            assert s[i] == l[i] && s[i + 1] == l[i + 1] && s[i + 2] == l[i + 2];
          }
        }
      }
    }
  }

  /** With no 'y' after the left-hand side, "+y" occurs exactly when
      the y term is written. */
  lemma YInLhs(a1: int, a3: int, rhs: string)
    requires 'y' !in rhs
    ensures Contains("\\(y^2" + (XyTerm(a1) + (YTerm(a3) + rhs)), "+y") <==> a3 != 0
  {
    var l := "\\(y^2" + XyTerm(a1) + YTerm(a3);
    var s := l + rhs;
    assert s == "\\(y^2" + (XyTerm(a1) + (YTerm(a3) + rhs));
    if a3 != 0 {
      assert At(s, "+y", |l| - 2);
    } else {
      forall j | |l| <= j < |s| ensures s[j] != 'y' {
        assert s[j] == rhs[j - |l|];
      }
      forall i | 0 <= i <= |s| ensures !At(s, "+y", i) {
        if i <= |s| - 2 {
          assert s[i..i + 2][0] == s[i] && s[i..i + 2][1] == s[i + 1];
          if i + 1 < |l| {
            assert s[i] == l[i] && s[i + 1] == l[i + 1];
          }
        }
      }
    }
  }

  /** "+xy" occurs in the equation exactly when a1 is non-zero. */
  lemma XyIffA1(ainvs: seq<int>)
    requires |ainvs| == 5
    ensures Contains(LatexEquation(ainvs).value, "+xy") <==> ainvs[0] != 0
  {
    RhsChars(ainvs[1], ainvs[3], ainvs[4]);
    XyInLhs(ainvs[0], ainvs[2], Rhs(ainvs[1], ainvs[3], ainvs[4]));
  }

  /** "+y" occurs in the equation exactly when a3 is non-zero. */
  lemma YIffA3(ainvs: seq<int>)
    requires |ainvs| == 5
    ensures Contains(LatexEquation(ainvs).value, "+y") <==> ainvs[2] != 0
  {
    RhsChars(ainvs[1], ainvs[3], ainvs[4]);
    YInLhs(ainvs[0], ainvs[2], Rhs(ainvs[1], ainvs[3], ainvs[4]));
  }

  // ---------------------------------------------------------------
  // Reading an equation back
  // ---------------------------------------------------------------

  /** The position of the first occurrence of c in s. */
  function FirstIndex(s: string, c: char): (i: nat)
    requires c in s
    ensures i < |s| && s[i] == c && c !in s[..i]
  {
    if s[0] == c then 0
    else
      assert c in s[1..];
      var j := FirstIndex(s[1..], c);
      assert s[..j + 1] == [s[0]] + s[1..][..j];
      j + 1
  }

  /** The coefficient of x: "+" and "-" stand for 1 and -1. */
  function ReadCoefficient(t: string): Option<int>
  {
    if t == "+" then Some(1)
    else if t == "-" then Some(-1)
    else if ParseInt(t).Ok? then Some(ParseInt(t).value)
    else None
  }

  /** A constant term; the empty string stands for 0. */
  function ReadConst(c: string): Option<int>
  {
    if c == "" then Some(0) else if ParseInt(c).Ok? then Some(ParseInt(c).value) else None
  }

  /** The x term and constant term: the part up to the only 'x' gives
      a4, the rest a6. */
  function ReadLinear(u: string): Option<(int, int)>
  {
    if 'x' in u then
      var i := FirstIndex(u, 'x');
      var a4 := ReadCoefficient(u[..i]);
      var a6 := ReadConst(u[i + 1..]);
      if a4.None? || a6.None? then None else Some((a4.value, a6.value))
    else
      var a6 := ReadConst(u);
      if a6.None? then None else Some((0, a6.value))
  }

  /** The right-hand side after "=x^3": the x^2 term, then the linear
      terms up to the closing delimiter. */
  function ReadRhs(t: string): Option<(int, int, int)>
  {
    var a2 := if StartsWith(t, "+x^2") then 1 else if StartsWith(t, "-x^2") then -1 else 0;
    var rest := if a2 != 0 then t[4..] else t;
    if !EndsWith(rest, "\\)") then None
    else
      var lin := ReadLinear(rest[..|rest| - 2]);
      if lin.None? then None else Some((a2, lin.value.0, lin.value.1))
  }

  /** Reads an equation in the form written by `latex_equation`: whether
      the xy and y terms are present, and a2, a4, a6. */
  function ReadEquation(s: string): Option<(bool, bool, int, int, int)>
  {
    if !StartsWith(s, "\\(y^2") then None
    else
      var s1 := s[5..];
      var xy := StartsWith(s1, "+xy");
      var s2 := if xy then s1[3..] else s1;
      var y := StartsWith(s2, "+y");
      var s3 := if y then s2[2..] else s2;
      if !StartsWith(s3, "=x^3") then None
      else
        var r := ReadRhs(s3[4..]);
        if r.None? then None else Some((xy, y, r.value.0, r.value.1, r.value.2))
  }

  /** A coefficient, an 'x' and a constant without 'x' are read apart. */
  lemma ReadLinearSplit(coef: string, c: string)
    requires 'x' !in coef && 'x' !in c
    ensures ReadLinear(coef + "x" + c) ==
            if ReadCoefficient(coef).None? || ReadConst(c).None? then None
            else Some((ReadCoefficient(coef).value, ReadConst(c).value))
  {
    var u := coef + "x" + c;
    var k := |coef|;
    assert u[..k] == coef && u[k] == 'x' && u[k + 1..] == c;
    assert FirstIndex(u, 'x') == k;
  }

  lemma ReadLinearRoundTrip(a4: int, a6: int)
    ensures ReadLinear(XTerm(a4) + ConstTerm(a6)) == Some((a4, a6))
  {
    SignedChars(a6);
    assert ReadConst(ConstTerm(a6)) == Some(a6) && 'x' !in ConstTerm(a6);
    if a4 == 0 {
      assert XTerm(a4) + ConstTerm(a6) == ConstTerm(a6);
    } else {
      var coef := if a4 == 1 then "+" else if a4 == -1 then "-" else SignedStr(a4);
      SignedChars(a4);
      assert XTerm(a4) == coef + "x";
      assert ReadCoefficient(coef) == Some(a4);
      ReadLinearSplit(coef, ConstTerm(a6));
    }
  }

  /** The linear part never starts like an x^2 term. */
  lemma NoSquareTerm(a4: int, a6: int, u: string)
    requires u == XTerm(a4) + (ConstTerm(a6) + "\\)")
    ensures !StartsWith(u, "+x^2") && !StartsWith(u, "-x^2")
  {
    SignedChars(a4);
    SignedChars(a6);
    if a4 == 1 || a4 == -1 {
      var c := ConstTerm(a6) + "\\)";
      assert u[2] == c[0];
      NotStartsWith(u, "+x^2", 2);
      NotStartsWith(u, "-x^2", 2);
    } else if a4 == 0 {
      assert u[1] != 'x' by {
        if a6 != 0 {
          assert u[1] == SignedStr(a6)[1];
        }
      }
      NotStartsWith(u, "+x^2", 1);
      NotStartsWith(u, "-x^2", 1);
    } else {
      assert u[1] == SignedStr(a4)[1];
      NotStartsWith(u, "+x^2", 1);
      NotStartsWith(u, "-x^2", 1);
    }
  }

  /** The linear terms and the closing delimiter read back as a4 and a6. */
  lemma ReadClose(a4: int, a6: int, u: string)
    requires u == XTerm(a4) + (ConstTerm(a6) + "\\)")
    ensures EndsWith(u, "\\)") && ReadLinear(u[..|u| - 2]) == Some((a4, a6))
  {
    assert u == (XTerm(a4) + ConstTerm(a6)) + "\\)";
    DropSuffix(XTerm(a4) + ConstTerm(a6), "\\)");
    ReadLinearRoundTrip(a4, a6);
  }

  /** An x^2 term is stripped and read as its sign. */
  lemma ReadSquare(a2: int, u: string)
    requires a2 == 1 || a2 == -1
    ensures var t := X2Term(a2) + u;
      StartsWith(t, "+x^2") <==> a2 == 1
    ensures var t := X2Term(a2) + u;
      (StartsWith(t, "+x^2") || StartsWith(t, "-x^2")) && t[4..] == u
  {
    if a2 == 1 {
      DropPrefix("+x^2", u);
    } else {
      DropPrefix("-x^2", u);
      NotStartsWith("-x^2" + u, "+x^2", 0);
    }
  }

  /** ReadRhs in terms of what the x^2 term and the linear part read as. */
  lemma ReadRhsOf(t: string, sq: int, u: string, lin: (int, int))
    requires -1 <= sq <= 1
    requires sq != 0 ==> (StartsWith(t, "+x^2") <==> sq == 1)
    requires sq != 0 ==> (StartsWith(t, "+x^2") || StartsWith(t, "-x^2")) && t[4..] == u
    requires sq == 0 ==> t == u && !StartsWith(u, "+x^2") && !StartsWith(u, "-x^2")
    requires EndsWith(u, "\\)") && ReadLinear(u[..|u| - 2]) == Some(lin)
    ensures ReadRhs(t) == Some((sq, lin.0, lin.1))
  {
  }

  lemma ReadRhsRoundTrip(a2: int, a4: int, a6: int)
    ensures ReadRhs(X2Term(a2) + (XTerm(a4) + (ConstTerm(a6) + "\\)"))) ==
            Some((if a2 == 1 || a2 == -1 then a2 else 0, a4, a6))
  {
    var u := XTerm(a4) + (ConstTerm(a6) + "\\)");
    ReadClose(a4, a6, u);
    var sq := if a2 == 1 || a2 == -1 then a2 else 0;
    if sq != 0 {
      ReadSquare(a2, u);
    } else {
      NoSquareTerm(a4, a6, u);
    }
    ReadRhsOf(X2Term(a2) + u, sq, u, (a4, a6));
  }

  /** The fixed opening, the optional xy and y terms and "=x^3" are read
      apart from any right-hand side tail. */
  lemma ReadEquationSplit(a1: int, a3: int, tail: string)
    ensures ReadEquation("\\(y^2" + (XyTerm(a1) + (YTerm(a3) + ("=x^3" + tail)))) ==
            var r := ReadRhs(tail);
            if r.None? then None else Some((a1 != 0, a3 != 0, r.value.0, r.value.1, r.value.2))
  {
    var s3 := "=x^3" + tail;
    var s2 := YTerm(a3) + s3;
    var s1 := XyTerm(a1) + s2;
    DropPrefix("\\(y^2", s1);
    DropPrefix(XyTerm(a1), s2);
    DropPrefix(YTerm(a3), s3);
    DropPrefix("=x^3", tail);
    assert StartsWith(s1, "+xy") <==> a1 != 0 by {
      if a1 == 0 {
        if a3 != 0 {
          NotStartsWith(s1, "+xy", 1);
        } else {
          NotStartsWith(s1, "+xy", 0);
        }
      }
    }
    assert StartsWith(s2, "+y") <==> a3 != 0 by {
      if a3 == 0 {
        NotStartsWith(s2, "+y", 0);
      }
    }
  }

  /** `latex_equation` loses nothing but what the source drops: the
      equation reads back as the presence of the xy and y terms, a2
      when it is 1 or -1 (0 otherwise), a4 and a6. */
  lemma EquationRoundTrip(ainvs: seq<int>)
    requires |ainvs| == 5
    ensures
      var a2 := ainvs[1];
      ReadEquation(LatexEquation(ainvs).value) ==
        Some((ainvs[0] != 0, ainvs[2] != 0, if a2 == 1 || a2 == -1 then a2 else 0, ainvs[3], ainvs[4]))
  {
    ReadRhsRoundTrip(ainvs[1], ainvs[3], ainvs[4]);
    ReadEquationSplit(ainvs[0], ainvs[2], X2Term(ainvs[1]) + (XTerm(ainvs[3]) + (ConstTerm(ainvs[4]) + "\\)")));
  }
}
