/** scripts/codec.py: the text forms of integer lists, points and
    2-adic data, and the column encoders and decoders used for the
    data files. */
module Codec {
  import opened Wrappers
  import opened Text
  import opened Arith
  import Ecdb

  // ---------------------------------------------------------------
  // Integer lists
  // ---------------------------------------------------------------

  /** `parse_int_list(s, delims)`: one character stripped at each end
      when `delims`, then '' is the empty list and anything else is
      split on ',' and read with `ZZ`. */
  function ParseIntList(s: string, delims: bool): (r: Result<seq<int>>)
    ensures r.Err? ==> r.error == TypeError
    ensures r == Ok([]) <==> (if delims then Inner(s, 1, 1) else s) == ""
  {
    var ss := if delims then Inner(s, 1, 1) else s;
    if ss == "" then Ok([]) else ParseInts(Split(ss, ','), TypeError)
  }

  /** The comma-joined decimal forms of a list, read without
      delimiters, give the list back. */
  lemma ParseJoined(l: seq<int>)
    ensures ParseIntList(Join(IntStrs(l), ","), false) == Ok(l)
  {
    var ps := IntStrs(l);
    if l != [] {
      assert |ps[0]| > 0;
      assert Join(ps, ",") != "";
      forall k | 0 <= k < |ps| ensures ',' !in ps[k] {
        IntToStrChars(l[k]);
      }
      SplitJoin(ps, ',');
      ParseIntsOfIntStrs(l, TypeError);
    }
  }

  /** `parse_int_list(encode(l)) == l`. */
  lemma ParseIntListRoundTrip(l: seq<int>)
    ensures ParseIntList(CompactListStr(l), true) == Ok(l)
  {
    var j := Join(IntStrs(l), ",");
    assert Inner("[" + j + "]", 1, 1) == j;
    ParseJoined(l);
  }

  /** `[parse_int_list(a, False) for a in pieces]`. */
  function ParseEachList(pieces: seq<string>): (r: Result<seq<seq<int>>>)
    ensures r.Ok? <==> forall k :: 0 <= k < |pieces| ==> ParseIntList(pieces[k], false).Ok?
    ensures r.Ok? ==>
              |r.value| == |pieces| &&
              forall k :: 0 <= k < |pieces| ==> ParseIntList(pieces[k], false) == Ok(r.value[k])
    ensures r.Err? ==> r.error == TypeError
    decreases |pieces|
  {
    if pieces == [] then Ok([])
    else
      var h := ParseIntList(pieces[0], false);
      var t := ParseEachList(pieces[1..]);
      if h.Err? || t.Err? then Err(TypeError) else Ok([h.value] + t.value)
  }

  /** `parse_int_list_list(s)`: spaces removed, '[]' is the empty
      list, otherwise two characters stripped at each end and the rest
      split on '],['. (Its `delims` argument is never read.) */
  function ParseIntListList(s: string): (r: Result<seq<seq<int>>>)
    ensures r.Err? ==> r.error == TypeError
  {
    var ss := RemoveChar(s, ' ');
    if ss == "[]" then Ok([]) else ParseEachList(SplitOn(Inner(ss, 2, 2), "],["))
  }

  /** Each string wrapped in square brackets. */
  function Brackets(js: seq<string>): (bs: seq<string>)
    ensures |bs| == |js| && forall k :: 0 <= k < |js| ==> bs[k] == "[" + js[k] + "]"
  {
    seq(|js|, k requires 0 <= k < |js| => "[" + js[k] + "]")
  }

  /** Bracketed pieces joined by ',' are the pieces joined by '],['
      inside one more pair of brackets. */
  lemma {:induction false} BracketJoin(js: seq<string>)
    requires |js| >= 1
    ensures Join(Brackets(js), ",") == "[" + Join(js, "],[") + "]"
    decreases |js|
  {
    if |js| > 1 {
      var bs := Brackets(js);
      assert bs == ["[" + js[0] + "]"] + Brackets(js[1..]);
      BracketJoin(js[1..]);
      JoinCons("[" + js[0] + "]", Brackets(js[1..]), ",");
      JoinCons(js[0], js[1..], "],[");
      assert js == [js[0]] + js[1..];
      var r := Join(js[1..], "],[");
      assert "[" + js[0] + "]" + ("," + ("[" + r + "]")) == "[" + (js[0] + ("],[" + r)) + "]";
    }
  }

  /** The characters of a comma-joined list of integers: digits,
      minus signs and commas. */
  lemma JoinedAbsent(l: seq<int>, c: char)
    requires !IsDigit(c) && c != '-' && c != ','
    ensures c !in Join(IntStrs(l), ",")
  {
    forall k | 0 <= k < |l| ensures c !in IntStrs(l)[k] {
      IntToStrChars(l[k]);
    }
    JoinAbsent(IntStrs(l), ",", c);
  }

  /** The pieces of `encode(m)` between the outer brackets. */
  function Rows(m: seq<seq<int>>): (js: seq<string>)
    ensures |js| == |m| && forall k :: 0 <= k < |m| ==> js[k] == Join(IntStrs(m[k]), ",")
  {
    seq(|m|, k requires 0 <= k < |m| => Join(IntStrs(m[k]), ","))
  }

  lemma CompactRows(m: seq<seq<int>>)
    requires |m| >= 1
    ensures CompactListListStr(m) == "[[" + Join(Rows(m), "],[") + "]]"
  {
    RowsBracketed(m);
    BracketJoin(Rows(m));
  }

  /** `encode` of each row is that row's piece in brackets. */
  lemma RowsBracketed(m: seq<seq<int>>)
    ensures CompactRowStrs(m) == Brackets(Rows(m))
  {
    var cs := CompactRowStrs(m);
    assert forall k :: 0 <= k < |m| ==> cs[k] == Brackets(Rows(m))[k];
  }

  /** `parse_int_list_list(encode(m)) == m`, including `[]` and `[[]]`. */
  lemma ParseIntListListRoundTrip(m: seq<seq<int>>)
    ensures ParseIntListList(CompactListListStr(m)) == Ok(m)
  {
    var cs := CompactListListStr(m);
    RemoveSpacesListList(m);
    RemoveCharAbsent(cs, ' ');
    if m != [] {
      var js := Rows(m);
      CompactRows(m);
      assert Inner(cs, 2, 2) == Join(js, "],[");
      forall k | 0 <= k < |js| ensures ']' !in js[k] {
        JoinedAbsent(m[k], ']');
      }
      SplitOnJoin(js, "],[");
      forall k | 0 <= k < |m| ensures ParseIntList(js[k], false) == Ok(m[k]) {
        ParseJoined(m[k]);
      }
      var r := ParseEachList(js);
      assert r.Ok? && forall k :: 0 <= k < |m| ==> r.value[k] == m[k];
      assert r.value == m;
    }
  }

  // ---------------------------------------------------------------
  // Points
  // ---------------------------------------------------------------

  /** `proj_to_aff(s)`: '[x:y:z]' read as in ecdb's `pointPtoA` and
      written back as '(x/z,y/z)'. */
  function ProjToAff(s: string): (r: Result<string>)
    ensures r.Ok? <==> Ecdb.PointPtoA(s).Ok?
  {
    var P := Ecdb.PointPtoA(s);
    if P.Err? then Err(P.error)
    else Ok("(" + Ecdb.RatStr(P.value[0]) + "," + Ecdb.RatStr(P.value[1]) + ")")
  }

  lemma AbsDivides(x: int, c: int)
    requires c > 0 && Abs(x) % c == 0
    ensures x % c == 0 && x == (x / c) * c
  {
    var q := Abs(x) / c;
    DivExact(Abs(x), c);
    if x < 0 {
      assert x == (-q) * c;
      DivModUnique(x, c, -q, 0);
    } else {
      DivModUnique(x, c, q, 0);
    }
  }

  /** `proj_to_weighted_proj(s)`: for '[x:b:z]', c = gcd(x, z) and
      a = x / c; both zero divides by zero. */
  function ProjToWeightedProj(s: string): (r: Result<seq<int>>)
    ensures ProjInts(s).Err? ==> r == Err(ProjInts(s).error)
    ensures ProjInts(s).Ok? ==>
      var t := ProjInts(s).value;
      (r.Err? <==> t[0] == 0 && t[2] == 0) &&
      (r.Err? ==> r.error == ZeroDivisionError) &&
      (r.Ok? ==> |r.value| == 3 && r.value[2] == Gcd(Abs(t[0]), Abs(t[2])) && r.value[2] > 0 &&
                 r.value[0] * r.value[2] == t[0] && r.value[1] == t[1] && t[2] % r.value[2] == 0)
  {
    var t := ProjInts(s);
    if t.Err? then Err(t.error)
    else
      var x, b, z := t.value[0], t.value[1], t.value[2];
      var c := Gcd(Abs(x), Abs(z));
      if c == 0 then
        assert x == 0 && z == 0 by {
          if x != 0 || z != 0 { GcdDivides(Abs(x), Abs(z)); }
        }
        Err(ZeroDivisionError)
      else
        GcdDivides(Abs(x), Abs(z));
        AbsDivides(x, c);
        AbsDivides(z, c);
        Ok([x / c, b, c])
  }

  /** `point_to_weighted_proj(P)` for an affine point (x, y):
      a = num x, b = num y, c = den y // den x. */
  function PointToWeightedProj(x: Rat, y: Rat): (r: seq<int>)
    requires Normalized(x) && Normalized(y)
    ensures |r| == 3 && r[0] == x.num && r[1] == y.num && r[2] >= 0
  {
    [x.num, y.num, y.den / x.den]
  }

  /** `weighted_proj_to_affine_point(P)`: [a, b, c] to (a/c^2, b/c^3). */
  function WeightedProjToAffine(P: seq<int>): (r: Result<(Rat, Rat)>)
    ensures |P| != 3 ==> r == Err(ValueError)
    ensures |P| == 3 ==> (r.Err? <==> P[2] == 0) && (r.Err? ==> r.error == ZeroDivisionError)
    ensures r.Ok? ==>
              Normalized(r.value.0) && Normalized(r.value.1) &&
              r.value.0.num * (P[2] * P[2]) == P[0] * r.value.0.den &&
              r.value.1.num * (P[2] * P[2] * P[2]) == P[1] * r.value.1.den
  {
    if |P| != 3 then Err(ValueError)
    else if P[2] == 0 then Err(ZeroDivisionError)
    else
      assert P[2] * P[2] != 0 && P[2] * P[2] * P[2] != 0;
      Ok((MakeRat(P[0], P[2] * P[2]).value, MakeRat(P[1], P[2] * P[2] * P[2]).value))
  }

  /** On an integral model den x = c^2 and den y = c^3, and the
      weighted coordinates give the point back. */
  lemma WeightedRoundTrip(x: Rat, y: Rat, c: int)
    requires Normalized(x) && Normalized(y) && c >= 1 && x.den == c * c && y.den == c * c * c
    ensures PointToWeightedProj(x, y) == [x.num, y.num, c]
    ensures WeightedProjToAffine(PointToWeightedProj(x, y)) == Ok((x, y))
  {
    assert c * c * c == c * (c * c);
    DivModUnique(c * c * c, c * c, c, 0);
    MakeRatScaled(x, 1);
    MakeRatScaled(y, 1);
    assert 1 * x.num == x.num && 1 * x.den == x.den;
    assert 1 * y.num == y.num && 1 * y.den == y.den;
  }

  /** `point_to_proj(P)`: both coordinates scaled by c = den y; `ZZ`
      of a non-integral c*x raises TypeError. */
  function PointToProj(x: Rat, y: Rat): (r: Result<string>)
    requires Normalized(x) && Normalized(y)
    ensures r.Err? ==> r.error == TypeError
  {
    var c := y.den;
    var a, b := Ecdb.ScaleRat(c, x), Ecdb.ScaleRat(c, y);
    if a.den != 1 || b.den != 1 then Err(TypeError)
    else Ok("[" + Join([IntToStr(a.num), IntToStr(b.num), IntToStr(c)], ":") + "]")
  }

  /** When den x divides den y (true on an integral model) the result
      is ecdb's `pointstr`, and `proj_to_aff` reads it back as (x, y). */
  lemma PointToProjRoundTrip(x: Rat, y: Rat)
    requires Normalized(x) && Normalized(y) && y.den % x.den == 0
    ensures PointToProj(x, y) == Ok(Ecdb.PointStr([x, y, FromInt(1)]))
    ensures ProjToAff(PointToProj(x, y).value) == Ok("(" + Ecdb.RatStr(x) + "," + Ecdb.RatStr(y) + ")")
  {
    var z := y.den;
    var m := z / x.den;
    DivExact(z, x.den);
    assert z == m * x.den;
    PosFactor(m, x.den, z);
    assert z * x.num == (m * x.num) * x.den;
    Ecdb.MakeRatInt(m * x.num, x.den);
    assert Ecdb.ScaleRat(z, x) == FromInt(m * x.num);
    assert z * y.num == y.num * y.den;
    Ecdb.MakeRatInt(y.num, y.den);
    assert Ecdb.ScaleRat(z, y) == FromInt(y.num);
    assert z * FromInt(1).num == z * 1;
    Ecdb.MakeRatInt(z, 1);
    assert Ecdb.ScaleRat(z, FromInt(1)) == FromInt(z);
    Ecdb.PointRoundTrip(x, y);
  }

  // ---------------------------------------------------------------
  // Galois image codes
  // ---------------------------------------------------------------

  /** The position of the first digit of s, or |s| when there is none. */
  function FirstDigit(s: string): (i: nat)
    ensures i <= |s| && (i < |s| ==> IsDigit(s[i]))
    ensures forall k :: 0 <= k < i ==> !IsDigit(s[k])
    decreases |s|
  {
    if s == [] || IsDigit(s[0]) then 0 else 1 + FirstDigit(s[1..])
  }

  /** The length of the run of digits that starts s. */
  function DigitRun(s: string): (n: nat)
    ensures n <= |s| && AllDigits(s[..n]) && (n < |s| ==> !IsDigit(s[n]))
    decreases |s|
  {
    if s == [] || !IsDigit(s[0]) then 0
    else
      var n := 1 + DigitRun(s[1..]);
      assert s[..n] == [s[0]] + s[1..][..n - 1];
      n
  }

  /** `split_galois_image_code(s)`: p is the first maximal run of
      digits (`re.findall(r'\d+', s)[0]`, IndexError when there is
      none) and the rest is s with |p| characters dropped from the
      front. */
  function SplitGaloisImageCode(s: string): (r: Result<(string, string)>)
    ensures r.Err? <==> forall k :: 0 <= k < |s| ==> !IsDigit(s[k])
    ensures r.Err? ==> r.error == IndexError
    ensures r.Ok? ==>
      var i, p := FirstDigit(s), r.value.0;
      p != [] && AllDigits(p) && i + |p| <= |s| && s[i..i + |p|] == p &&
      (forall k :: 0 <= k < i ==> !IsDigit(s[k])) &&
      (i + |p| == |s| || !IsDigit(s[i + |p|])) &&
      r.value.1 == s[|p|..]
  {
    var i := FirstDigit(s);
    if i == |s| then Err(IndexError)
    else
      var n := DigitRun(s[i..]);
      assert s[i..][..n] == s[i..i + n];
      Ok((s[i..i + n], s[n..]))
  }

  /** A code that starts with its prime splits into that prime and the
      image label, and `int` of the prime part is the prime. */
  lemma GaloisCodeRoundTrip(p: nat, image: string)
    requires image == [] || !IsDigit(image[0])
    ensures SplitGaloisImageCode(NatToStr(p) + image) == Ok((NatToStr(p), image))
    ensures ParseInt(NatToStr(p)) == Ok(p)
  {
    var s := NatToStr(p) + image;
    var n := |NatToStr(p)|;
    assert FirstDigit(s) == 0;
    assert s[..n] == NatToStr(p);
    DigitRunPrefix(NatToStr(p), image);
    assert s[0..n] == NatToStr(p) && s[n..] == image;
    ParseIntOfIntToStr(p);
  }

  lemma {:induction false} DigitRunPrefix(d: string, t: string)
    requires AllDigits(d) && (t == [] || !IsDigit(t[0]))
    ensures DigitRun(d + t) == |d|
    decreases |d|
  {
    if d != [] {
      assert (d + t)[1..] == d[1..] + t;
      DigitRunPrefix(d[1..], t);
    } else {
      assert d + t == t;
    }
  }

  /** When s starts with a digit, prefix and rest make up s. */
  lemma GaloisCodeSplits(s: string)
    requires s != [] && IsDigit(s[0])
    ensures SplitGaloisImageCode(s).Ok?
    ensures SplitGaloisImageCode(s).value.0 + SplitGaloisImageCode(s).value.1 == s
  {
    var r := SplitGaloisImageCode(s).value;
    assert FirstDigit(s) == 0;
    assert s[0..|r.0|] + s[|r.0|..] == s;
  }

  // ---------------------------------------------------------------
  // Record values and their column encodings
  // ---------------------------------------------------------------

  /** The Python values held in curve and class records. A real number
      is kept as the decimal text Sage prints for it. */
  datatype Value =
    | PyNone
    | Str(s: string)
    | Bool(b: bool)
    | Int(n: int)
    | QQ(q: Rat)
    | IntList(l: seq<int>)
    | IntListList(m: seq<seq<int>>)
    | Real(text: string)
    | RealList(texts: seq<string>)

  /** Python `str(v)`. */
  function PyStr(v: Value): string
  {
    match v
    case PyNone => "None"
    case Str(s) => s
    case Bool(b) => if b then "True" else "False"
    case Int(n) => IntToStr(n)
    case QQ(q) => Ecdb.RatStr(q)
    case IntList(l) => ListStr(l)
    case IntListList(m) => ListListStr(m)
    case Real(t) => t
    case RealList(ts) => "[" + Join(ts, ", ") + "]"
  }

  /** `encode(col)`: None as '?', strings unchanged, booleans as 1/0,
      numbers by `str`, a rational as '[n,d]' and lists by `str` with
      the spaces removed. */
  function Encode(v: Value): (r: string)
    ensures v.PyNone? ==> r == "?"
    ensures v.Str? ==> r == v.s
    ensures v.Bool? ==> r == (if v.b then "1" else "0")
    ensures v.Int? ==> r == IntToStr(v.n)
    ensures v.QQ? || v.IntList? || v.IntListList? || v.RealList? ==> ' ' !in r
  {
    match v
    case PyNone => "?"
    case Str(s) => s
    case Bool(b) => if b then "1" else "0"
    case Int(n) => IntToStr(n)
    case Real(t) => t
    case QQ(q) => RemoveChar(ListStr([q.num, q.den]), ' ')
    case _ => RemoveChar(PyStr(v), ' ')
  }

  /** The lists in `encode`'s output are in compact form. */
  lemma EncodeCompact(v: Value)
    ensures v.IntList? ==> Encode(v) == CompactListStr(v.l)
    ensures v.IntListList? ==> Encode(v) == CompactListListStr(v.m)
    ensures v.QQ? ==> Encode(v) == CompactListStr([v.q.num, v.q.den])
  {
    match v
    case IntList(l) => RemoveSpacesList(l);
    case IntListList(m) => RemoveSpacesListList(m);
    case QQ(q) => RemoveSpacesList([q.num, q.den]);
    case _ =>
  }

  const StrCols: seq<string> := ["label", "iso", "isoclass", "lmfdb_label", "lmfdb_isoclass", "lmfdb_iso"]
  const IntCols: seq<string> := ["number", "lmfdb_number", "iso_nlabel", "faltings_index",
                                 "faltings_ratio", "conductor", "cm", "signD",
                                 "min_quad_twist_disc", "rank", "analytic_rank", "ngens",
                                 "torsion", "tamagawa_product", "sha", "class_size", "class_deg"]
  const BigintCols: seq<string> := ["trace_hash"]
  const IntListCols: seq<string> := ["ainvs", "isogeny_degrees", "min_quad_twist_ainvs",
                                     "bad_primes", "tamagawa_numbers", "kodaira_symbols",
                                     "reduction_types", "root_numbers", "conductor_valuations",
                                     "discriminant_valuations",
                                     "j_denominator_valuations", "rank_bounds",
                                     "torsion_structure",
                                     "aplist", "anlist"]
  const IntListListCols: seq<string> := ["isogeny_matrix", "gens", "torsion_generators"]
  const BoolCols: seq<string> := ["semistable"]
  const QQCols: seq<string> := ["jinv"]
  const RRCols: seq<string> := ["regulator", "real_period", "area", "faltings_height", "special_value", "sha_an"]
  const RRListCols: seq<string> := ["heights"]

  /** The decoders `decode` chooses between. */
  datatype Kind = StrKind | IntKind | IntListKind | BoolKind | IntListListKind | RRKind | QQKind | RRListKind | Unknown

  /** The first column list holding `col`, tried in `decode`'s order
      (the bigint and int lists share a decoder). */
  function ColumnKind(col: string): (k: Kind)
    ensures k == Unknown <==>
      col !in StrCols && col !in BigintCols && col !in IntCols && col !in IntListCols && col !in BoolCols &&
      col !in IntListListCols && col !in RRCols && col !in QQCols && col !in RRListCols
    ensures col in StrCols ==> k == StrKind
  {
    if col in StrCols then StrKind
    else if col in BigintCols || col in IntCols then IntKind
    else if col in IntListCols then IntListKind
    else if col in BoolCols then BoolKind
    else if col in IntListListCols then IntListListKind
    else if col in RRCols then RRKind
    else if col in QQCols then QQKind
    else if col in RRListCols then RRListKind
    else Unknown
  }

  /** `decode(colname, data)`: an unknown column gives the data
      unchanged. */
  function Decode(col: string, data: string): (r: Result<Value>)
    ensures ColumnKind(col) == Unknown || ColumnKind(col) == StrKind ==> r == Ok(Str(data))
    ensures ColumnKind(col) == RRKind ==> r == Ok(Real(data))
  {
    match ColumnKind(col)
    case StrKind => Ok(Str(data))
    case IntKind =>
      var n := SageInt(data);
      if n.Err? then Err(n.error) else Ok(Int(n.value))
    case IntListKind =>
      var l := ParseIntList(data, true);
      if l.Err? then Err(l.error) else Ok(IntList(l.value))
    case BoolKind =>
      var n := ParseInt(data);
      if n.Err? then Err(ValueError) else Ok(Bool(n.value != 0))
    case IntListListKind =>
      var m := ParseIntListList(data);
      if m.Err? then Err(m.error) else Ok(IntListList(m.value))
    case RRKind => Ok(Real(data))
    case QQKind =>
      var l := ParseIntList(data, true);
      if l.Err? then Err(l.error)
      else if |l.value| != 2 then Err(TypeError)
      else
        var q := MakeRat(l.value[0], l.value[1]);
        if q.Err? then Err(q.error) else Ok(QQ(q.value))
    case RRListKind =>
      Ok(RealList(if data == "[]" then [] else Split(Inner(data, 1, 1), ',')))
    case Unknown => Ok(Str(data))
  }

  /** The decimal text of a real: non-empty, without ',' or spaces. */
  predicate RealText(t: string)
  {
    t != [] && ',' !in t && ' ' !in t
  }

  /** A value of the kind `decode` produces for columns of kind k. */
  predicate Fits(k: Kind, v: Value)
  {
    match k
    case StrKind => v.Str?
    case Unknown => v.Str?
    case IntKind => v.Int?
    case IntListKind => v.IntList?
    case BoolKind => v.Bool?
    case IntListListKind => v.IntListList?
    case RRKind => v.Real?
    case QQKind => v.QQ? && Normalized(v.q)
    case RRListKind => v.RealList? && forall k :: 0 <= k < |v.texts| ==> RealText(v.texts[k])
  }

  /** `decode(col, encode(v)) == v` for every value of the column's
      kind: strings, integers, booleans, integer lists, lists of integer
      lists, rationals and (as text) reals and lists of reals. */
  lemma DecodeEncode(col: string, v: Value)
    requires Fits(ColumnKind(col), v)
    ensures Decode(col, Encode(v)) == Ok(v)
  {
    match v
    case Int(n) =>
      SageIntOfIntToStr(n);
    case Bool(b) =>
      DecodeEncodeBool(col, b);
    case IntList(l) =>
      EncodeCompact(v);
      ParseIntListRoundTrip(l);
    case IntListList(m) =>
      EncodeCompact(v);
      ParseIntListListRoundTrip(m);
    case QQ(q) =>
      DecodeEncodeQQ(col, q);
    case RealList(ts) =>
      RealListEncode(ts);
      RealListSplit(ts);
    case _ =>
  }

  lemma DecodeEncodeBool(col: string, b: bool)
    requires ColumnKind(col) == BoolKind
    ensures Decode(col, Encode(Bool(b))) == Ok(Bool(b))
  {
    ParseIntOfIntToStr(1);
    ParseIntOfIntToStr(0);
    assert IntToStr(1) == "1" && IntToStr(0) == "0";
  }

  lemma DecodeEncodeQQ(col: string, q: Rat)
    requires ColumnKind(col) == QQKind && Normalized(q)
    ensures Decode(col, Encode(QQ(q))) == Ok(QQ(q))
  {
    EncodeCompact(QQ(q));
    ParseIntListRoundTrip([q.num, q.den]);
    MakeRatScaled(q, 1);
    assert 1 * q.num == q.num && 1 * q.den == q.den;
  }

  lemma RemoveSpacesTexts(ts: seq<string>)
    requires forall k :: 0 <= k < |ts| ==> RealText(ts[k])
    ensures RemoveChar("[" + Join(ts, ", ") + "]", ' ') == "[" + Join(ts, ",") + "]"
  {
    RemoveCharJoin(ts, ", ", ' ');
    assert RemoveChar(", ", ' ') == ",";
    forall k | 0 <= k < |ts| ensures RemoveChar(ts[k], ' ') == ts[k] {
      RemoveCharAbsent(ts[k], ' ');
    }
    assert RemoveEach(ts, ' ') == ts;
    Bracketed(Join(ts, ", "), Join(ts, ","));
  }

  /** A list of reals is encoded as its texts joined by ','. */
  lemma RealListEncode(ts: seq<string>)
    requires forall k :: 0 <= k < |ts| ==> RealText(ts[k])
    ensures Encode(RealList(ts)) == "[" + Join(ts, ",") + "]"
  {
    assert Encode(RealList(ts)) == RemoveChar("[" + Join(ts, ", ") + "]", ' ');
    RemoveSpacesTexts(ts);
  }

  /** The real-list decoder splits the texts back apart. */
  lemma RealListSplit(ts: seq<string>)
    requires forall k :: 0 <= k < |ts| ==> RealText(ts[k])
    ensures var e := "[" + Join(ts, ",") + "]";
      (if e == "[]" then [] else Split(Inner(e, 1, 1), ',')) == ts
  {
    var e := "[" + Join(ts, ",") + "]";
    assert Inner(e, 1, 1) == Join(ts, ",");
    if ts != [] {
      assert |ts[0]| > 0;
      assert Join(ts, ",") != "";
      SplitJoin(ts, ',');
    }
  }

  // ---------------------------------------------------------------
  // 2-adic image strings
  // ---------------------------------------------------------------

  /** The four 2-adic columns of a record. */
  datatype TwoadicRecord = TwoadicRecord(index: Value, logLevel: Value, gens: Value, model: Value)

  /** `[int(c) for c in g[1:-1].split(',')]` for each generator. */
  function ParseEachGen(gs: seq<string>): (r: Result<seq<seq<int>>>)
    ensures r.Ok? ==>
              |r.value| == |gs| &&
              forall k :: 0 <= k < |gs| ==> ParseInts(Split(Inner(gs[k], 1, 1), ','), ValueError) == Ok(r.value[k])
    ensures r.Ok? <==> forall k :: 0 <= k < |gs| ==> ParseInts(Split(Inner(gs[k], 1, 1), ','), ValueError).Ok?
    ensures r.Err? ==> r.error == ValueError
    decreases |gs|
  {
    if gs == [] then Ok([])
    else
      var h := ParseInts(Split(Inner(gs[0], 1, 1), ','), ValueError);
      var t := ParseEachGen(gs[1..]);
      if h.Err? || t.Err? then Err(ValueError) else Ok([h.value] + t.value)
  }

  /** The generator matrices of a non-CM 2-adic string: '[]' is no
      generators; otherwise the outer brackets are stripped, '],[' is
      replaced by '];[', the result split on ';' and each matrix read
      with `int`. */
  function TwoadicGens(rgens: string): (r: Result<seq<seq<int>>>)
    ensures r.Err? ==> r.error == ValueError
  {
    if rgens == "[]" then Ok([])
    else ParseEachGen(Split(ReplaceStr(Inner(rgens, 1, 1), "],[", "];["), ';'))
  }

  /** An empty generator '[[]]' is not read: `int('')` raises. */
  lemma TwoadicEmptyGen()
    ensures TwoadicGens("[[]]") == Err(ValueError)
  {
    assert Inner("[[]]", 1, 1) == "[]";
    assert ReplaceStr("[]", "],[", "];[") == "[]";
    SplitPrefix("[]", "", ';');
    assert "[]" + "" == "[]";
    assert Split("[]", ';') == ["[]"];
    assert Split("", ',') == [""];
    assert ParseInt("").Err?;
  }

  lemma BracketsCons(js: seq<string>)
    requires |js| >= 2
    ensures Brackets(js) == ["[" + js[0] + "]"] + Brackets(js[1..])
    ensures Join(Brackets(js[1..]), ",") == "[" + Join(Brackets(js[1..]), ",")[1..]
  {
    var tail := Brackets(js[1..]);
    var l, r := Brackets(js), ["[" + js[0] + "]"] + tail;
    forall k | 0 <= k < |l| ensures l[k] == r[k] {
      if k > 0 {
        assert r[k] == tail[k - 1];
      }
    }
    JoinFirst(tail, ",");
    assert tail[0] == "[" + js[1] + "]";
    OpenBracketHead(Join(tail, ","));
  }

  lemma OpenBracketHead(s: string)
    requires |s| >= 1 && s[0] == '['
    ensures s == "[" + s[1..]
  {
  }

  /** One '],[' at the front is replaced and the scan goes on after it. */
  lemma ReplaceAtFront(b0: string, t: string)
    requires ']' !in b0
    ensures ReplaceStr(b0 + ("],[" + t), "],[", "];[") == b0 + ("];[" + ReplaceStr(t, "],[", "];["))
  {
    ReplaceStrPrefix(b0, "],[" + t, "],[", "];[");
    assert ("],[" + t)[..3] == "],[" && ("],[" + t)[3..] == t;
  }

  lemma SemicolonSep(r: string)
    ensures "]" + (";" + ("[" + r)) == "];[" + r
  { }

  /** Replacing '],[' by '];[' in bracketed rows joined by ',' joins
      them by ';' instead. */
  lemma {:induction false} ReplaceBrackets(js: seq<string>)
    requires |js| >= 1 && forall k :: 0 <= k < |js| ==> ']' !in js[k]
    ensures ReplaceStr(Join(Brackets(js), ","), "],[", "];[") == Join(Brackets(js), ";")
    decreases |js|
  {
    var b0 := "[" + js[0];
    assert ']' !in b0;
    if |js| == 1 {
      assert Join(Brackets(js), ",") == b0 + "]";
      assert Join(Brackets(js), ";") == b0 + "]";
      ReplaceStrPrefix(b0, "]", "],[", "];[");
    } else {
      var tail := Brackets(js[1..]);
      var t := Join(tail, ",");
      assert t == "[" + t[1..] by {
        BracketsCons(js);
      }
      var t' := t[1..];
      var r' := ReplaceStr(t', "],[", "];[");
      assert Join(Brackets(js), ",") == b0 + ("],[" + t') by {
        BracketsCons(js);
        JoinCons("[" + js[0] + "]", tail, ",");
      }
      assert ReplaceStr(Join(Brackets(js), ","), "],[", "];[") == b0 + ("];[" + r') by {
        ReplaceAtFront(b0, t');
      }
      assert Join(tail, ";") == "[" + r' by {
        ReplaceBrackets(js[1..]);
        ReplaceStrPrefix("[", t', "],[", "];[");
      }
      assert Join(Brackets(js), ";") == b0 + ("]" + (";" + Join(tail, ";"))) by {
        BracketsCons(js);
        JoinCons("[" + js[0] + "]", tail, ";");
      }
      SemicolonSep(r');
    }
  }

  /** The generators written by `encode` are read back, provided no
      generator is empty. */
  lemma TwoadicGensRoundTrip(m: seq<seq<int>>)
    requires forall k :: 0 <= k < |m| ==> m[k] != []
    ensures TwoadicGens(CompactListListStr(m)) == Ok(m)
  {
    if m != [] {
      var js := Rows(m);
      var bs := Brackets(js);
      assert CompactListListStr(m) != "[]" && Inner(CompactListListStr(m), 1, 1) == Join(bs, ",") by {
        RowsBracketed(m);
        CompactRows(m);
      }
      forall k | 0 <= k < |js| ensures ']' !in js[k] && ';' !in bs[k] {
        JoinedAbsent(m[k], ']');
        JoinedAbsent(m[k], ';');
      }
      assert Split(ReplaceStr(Join(bs, ","), "],[", "];["), ';') == bs by {
        ReplaceBrackets(js);
        SplitJoin(bs, ';');
      }
      forall k | 0 <= k < |m|
        ensures ParseInts(Split(Inner(bs[k], 1, 1), ','), ValueError) == Ok(m[k])
      {
        GenRoundTrip(m[k]);
      }
      var r := ParseEachGen(bs);
      assert r.Ok? && forall k :: 0 <= k < |m| ==> r.value[k] == m[k];
      assert r.value == m;
    }
  }

  /** One generator, written in brackets, is read back. */
  lemma GenRoundTrip(row: seq<int>)
    requires row != []
    ensures ParseInts(Split(Inner("[" + Join(IntStrs(row), ",") + "]", 1, 1), ','), ValueError) == Ok(row)
  {
    assert Inner("[" + Join(IntStrs(row), ",") + "]", 1, 1) == Join(IntStrs(row), ",");
    forall i | 0 <= i < |row| ensures ',' !in IntStrs(row)[i] {
      IntToStrChars(row[i]);
    }
    SplitJoin(IntStrs(row), ',');
    ParseIntsOfIntStrs(row, ValueError);
  }

  /** `int(s)` as a record value: ValueError when s is not an integer. */
  function IntValue(s: string): (r: Result<Value>)
    ensures r.Ok? <==> ParseInt(s).Ok?
    ensures r.Ok? ==> r.value == Int(ParseInt(s).value)
    ensures r.Err? ==> r.error == ValueError
  {
    var n := ParseInt(s);
    if n.Err? then Err(ValueError) else Ok(Int(n.value))
  }

  /** The 2-adic fields index, level, generators and model label, as
      `parse_twoadic_string` and files.py's `parse_twoadic_line` fill
      them: for 'CM' the index is 0 and the rest None; otherwise the
      log-level is the 2-adic valuation of the level. ZZ(0) has
      valuation +Infinity, which `str` writes as '+Infinity' and which
      `int` does not convert. */
  function TwoadicFields(index: string, level: string, rgens: string, model: string, raw: bool)
    : (r: Result<TwoadicRecord>)
    ensures model == "CM" ==> r == Ok(TwoadicRecord(if raw then Str("0") else Int(0), PyNone, PyNone, PyNone))
    ensures model != "CM" && r.Ok? ==>
              r.value.model == Str(model) && (raw ==> r.value.index == Str(index) && r.value.gens == Str(rgens))
    ensures model != "CM" && r.Ok? && SageInt(level).Ok? && SageInt(level).value != 0 ==>
      r.value.logLevel == (if raw then Str(NatToStr(Valuation2(SageInt(level).value)))
                           else Int(Valuation2(SageInt(level).value)))
  {
    if model == "CM" then Ok(TwoadicRecord(if raw then Str("0") else Int(0), PyNone, PyNone, PyNone))
    else
      var idx := if raw then Ok(Str(index)) else IntValue(index);
      var lv := SageInt(level);
      if idx.Err? then Err(idx.error)
      else if lv.Err? then Err(lv.error)
      else
        var logLevel :=
          if lv.value == 0 then (if raw then Ok(Str("+Infinity")) else Err(TypeError))
          else if raw then Ok(Str(NatToStr(Valuation2(lv.value))))
          else Ok(Int(Valuation2(lv.value)));
        if logLevel.Err? then Err(logLevel.error)
        else if raw then Ok(TwoadicRecord(idx.value, logLevel.value, Str(rgens), Str(model)))
        else
          var gens := TwoadicGens(rgens);
          if gens.Err? then Err(gens.error)
          else Ok(TwoadicRecord(idx.value, logLevel.value, IntListList(gens.value), Str(model)))
  }

  /** `parse_twoadic_string(s, raw)`: exactly four whitespace-separated
      fields, or AssertionError. */
  function ParseTwoadicString(s: string, raw: bool): (r: Result<TwoadicRecord>)
    ensures |SplitWhitespace(s)| != 4 ==> r == Err(AssertionError)
  {
    var data := SplitWhitespace(s);
    if |data| != 4 then Err(AssertionError)
    else TwoadicFields(data[0], data[1], data[2], data[3], raw)
  }

  /** The characters of `encode(m)`: brackets, commas, digits and minus
      signs. */
  lemma CompactAbsent(m: seq<seq<int>>, c: char)
    requires !IsDigit(c) && c != '-' && c != ',' && c != '[' && c != ']'
    ensures c !in CompactListListStr(m)
  {
    var cs := CompactRowStrs(m);
    forall k | 0 <= k < |m| ensures c !in cs[k] {
      JoinedAbsent(m[k], c);
    }
    JoinAbsent(cs, ",", c);
  }

  lemma NoSpaces(s: string)
    requires forall c :: IsSpace(c) ==> c !in s
    ensures forall i :: 0 <= i < |s| ==> !IsSpace(s[i])
  {
    forall i | 0 <= i < |s| ensures !IsSpace(s[i]) {
      assert s[i] in s;
    }
  }

  /** A 2-adic line written from its parts is read back: the index,
      the 2-adic valuation of the level, the generators and the label. */
  lemma TwoadicRoundTrip(index: int, level: int, m: seq<seq<int>>, model: string)
    requires level != 0 && IsWord(model) && model != "CM"
    requires forall k :: 0 <= k < |m| ==> m[k] != []
    ensures ParseTwoadicString(Join([IntToStr(index), IntToStr(level), CompactListListStr(m), model], " "), false) ==
            Ok(TwoadicRecord(Int(index), Int(Valuation2(level)), IntListList(m), Str(model)))
  {
    var ws := [IntToStr(index), IntToStr(level), CompactListListStr(m), model];
    TwoadicWords(index, level, m, model);
    TwoadicStringOfWords(Join(ws, " "), ws);
    TwoadicFieldsOfInts(index, level, m, model);
  }

  lemma TwoadicWords(index: int, level: int, m: seq<seq<int>>, model: string)
    requires IsWord(model)
    ensures
      var ws := [IntToStr(index), IntToStr(level), CompactListListStr(m), model];
      Words(Join(ws, " ")) == ws
  {
    var ws := [IntToStr(index), IntToStr(level), CompactListListStr(m), model];
    IntToStrChars(index);
    IntToStrChars(level);
    NoSpaces(IntToStr(index));
    NoSpaces(IntToStr(level));
    forall c | IsSpace(c) ensures c !in CompactListListStr(m) {
      CompactAbsent(m, c);
    }
    NoSpaces(CompactListListStr(m));
    assert |CompactListListStr(m)| >= 2;
    assert forall k :: 0 <= k < 4 ==> IsWord(ws[k]);
    WordsJoin(ws);
  }

  lemma TwoadicStringOfWords(s: string, ws: seq<string>)
    requires Words(s) == ws && |ws| == 4
    ensures ParseTwoadicString(s, false) == TwoadicFields(ws[0], ws[1], ws[2], ws[3], false)
  { }

  lemma TwoadicFieldsOfInts(index: int, level: int, m: seq<seq<int>>, model: string)
    requires level != 0 && model != "CM" && forall k :: 0 <= k < |m| ==> m[k] != []
    ensures TwoadicFields(IntToStr(index), IntToStr(level), CompactListListStr(m), model, false) ==
            Ok(TwoadicRecord(Int(index), Int(Valuation2(level)), IntListList(m), Str(model)))
  {
    ParseIntOfIntToStr(index);
    SageIntOfIntToStr(level);
    TwoadicGensRoundTrip(m);
  }

}
