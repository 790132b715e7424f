/** scripts/files.py: the parsers for single lines of the data files
    (label columns, allisog, 2adic and galrep lines), the y-coordinates
    behind the integral-point count, and the text written to data and
    upload files. A record is a Python dict from column name to value. */
module Files {
  import opened Wrappers
  import opened Text
  import opened Arith
  import opened SortedSeqs
  import opened Codec
  import StrOrder

  type Record = map<string, Value>

  // ---------------------------------------------------------------
  // Fields of a written line
  // ---------------------------------------------------------------

  lemma IntWord(n: int)
    ensures IsWord(IntToStr(n))
  {
    IntToStrChars(n);
    forall i | 0 <= i < |IntToStr(n)| ensures !IsSpace(IntToStr(n)[i]) {
      assert IntToStr(n)[i] in IntToStr(n);
    }
  }

  lemma ListWord(l: seq<int>)
    ensures IsWord(CompactListStr(l))
  {
    var s := CompactListStr(l);
    forall i | 0 <= i < |s| ensures !IsSpace(s[i]) {
      if 0 < i < |s| - 1 && IsSpace(s[i]) {
        assert s[i] == Join(IntStrs(l), ",")[i - 1];
        JoinedAbsent(l, s[i]);
      }
    }
  }

  lemma MatWord(m: seq<seq<int>>)
    ensures IsWord(CompactListListStr(m))
  {
    var s := CompactListListStr(m);
    forall i | 0 <= i < |s| ensures !IsSpace(s[i]) {
      if IsSpace(s[i]) {
        CompactAbsent(m, s[i]);
      }
    }
  }

  predicate AllWords(ws: seq<string>)
  {
    forall k :: 0 <= k < |ws| ==> IsWord(ws[k])
  }

  lemma Words4(a: string, b: string, c: string, d: string, rest: seq<string>)
    requires IsWord(a) && IsWord(b) && IsWord(c) && IsWord(d) && AllWords(rest)
    ensures AllWords([a, b, c, d] + rest)
  {
    var ws := [a, b, c, d] + rest;
    forall k | 0 <= k < |ws| ensures IsWord(ws[k]) {
      if k >= 4 {
        assert ws[k] == rest[k - 4];
      }
    }
  }

  /** A line of four words and further words splits back into them. */
  lemma Line4(a: string, b: string, c: string, d: string, rest: seq<string>)
    requires IsWord(a) && IsWord(b) && IsWord(c) && IsWord(d) && AllWords(rest)
    ensures Words(Join([a, b, c, d] + rest, " ")) == [a, b, c, d] + rest
  {
    Words4(a, b, c, d, rest);
    WordsJoin([a, b, c, d] + rest);
  }

  lemma Line6(a: string, b: string, c: string, d: string, e: string, f: string)
    requires IsWord(a) && IsWord(b) && IsWord(c) && IsWord(d) && IsWord(e) && IsWord(f)
    ensures Words(Join([a, b, c, d, e, f], " ")) == [a, b, c, d, e, f]
  {
    WordsJoin([a, b, c, d, e, f]);
  }

  lemma Line8(a: string, b: string, c: string, d: string, e: string, f: string, g: string, h: string)
    requires IsWord(a) && IsWord(b) && IsWord(c) && IsWord(d)
    requires IsWord(e) && IsWord(f) && IsWord(g) && IsWord(h)
    ensures Words(Join([a, b, c, d, e, f, g, h], " ")) == [a, b, c, d, e, f, g, h]
  {
    WordsJoin([a, b, c, d, e, f, g, h]);
  }

  // ---------------------------------------------------------------
  // Label columns
  // ---------------------------------------------------------------

  /** `int(t)`, or t itself when `raw`. */
  function IntOrRaw(t: string, raw: bool): (r: Result<Value>)
    ensures r.Err? <==> !raw && ParseInt(t).Err?
    ensures r.Ok? ==> r.value == if raw then Str(t) else Int(ParseInt(t).value)
    ensures r.Err? ==> r.error == ValueError
  {
    if raw then Ok(Str(t)) else IntValue(t)
  }

  /** The label, class label and numbers of the first three fields:
      what `parse_line_label_cols` records. */
  predicate LabelFacts(data: seq<string>, withAinvs: bool, raw: bool, lab: string, rec: Record)
  {
    |data| >= 3 && lab == data[0] + data[1] + data[2] &&
    rec.Keys == {"conductor", "isoclass", "iso", "number", "label"} + (if withAinvs then {"ainvs"} else {}) &&
    rec["label"] == Str(lab) && rec["iso"] == Str(data[0] + data[1]) && rec["isoclass"] == Str(data[1]) &&
    IntOrRaw(data[0], raw) == Ok(rec["conductor"]) && IntOrRaw(data[2], raw) == Ok(rec["number"]) &&
    (withAinvs ==>
       |data| >= 4 && (raw ==> rec["ainvs"] == Str(data[3])) &&
       (!raw ==> rec["ainvs"].IntList? && ParseIntList(data[3], true) == Ok(rec["ainvs"].l)))
  }

  /** The record of the label columns, before the a-invariants. */
  function LabelRecord(data: seq<string>, conductor: Value, number: Value): (rec: Record)
    requires |data| >= 3
    ensures rec.Keys == {"conductor", "isoclass", "iso", "number", "label"}
    ensures rec["label"] == Str(data[0] + data[1] + data[2]) && rec["iso"] == Str(data[0] + data[1])
    ensures rec["isoclass"] == Str(data[1]) && rec["conductor"] == conductor && rec["number"] == number
  {
    map["conductor" := conductor, "isoclass" := Str(data[1]), "iso" := Str(data[0] + data[1]),
        "number" := number, "label" := Str(data[0] + data[1] + data[2])]
  }

  /** `parse_line_label_cols` on the fields of a line. */
  function LabelColsOf(data: seq<string>, withAinvs: bool, raw: bool): (r: Result<(string, Record)>)
    ensures data == [] ==> r == Err(IndexError)
    ensures r.Ok? ==> LabelFacts(data, withAinvs, raw, r.value.0, r.value.1)
    ensures r.Err? ==> r.error in {IndexError, ValueError, TypeError}
  {
    if |data| < 1 then Err(IndexError)
    else
      var conductor := IntOrRaw(data[0], raw);
      if conductor.Err? then Err(conductor.error)
      else if |data| < 3 then Err(IndexError)
      else
        var number := IntOrRaw(data[2], raw);
        if number.Err? then Err(number.error)
        else
          var lab := data[0] + data[1] + data[2];
          var rec := LabelRecord(data, conductor.value, number.value);
          if !withAinvs then Ok((lab, rec))
          else if |data| < 4 then Err(IndexError)
          else if raw then Ok((lab, rec["ainvs" := Str(data[3])]))
          else
            var a := ParseIntList(data[3], true);
            if a.Err? then Err(a.error) else Ok((lab, rec["ainvs" := IntList(a.value)]))
  }

  /** `parse_line_label_cols(L, 3, ainvs, raw)`: the first three
      whitespace-separated fields are conductor, isogeny class and curve
      number; the label is their concatenation and the class label the
      concatenation of the first two. With `ainvs` the fourth field is
      the list of a-invariants. Fields are read in the source's order,
      so a bad conductor is reported before a missing class. */
  function LabelCols(line: string, withAinvs: bool, raw: bool): (r: Result<(string, Record)>)
    ensures Words(line) == [] ==> r == Err(IndexError)
    ensures r.Ok? ==> LabelFacts(Words(line), withAinvs, raw, r.value.0, r.value.1)
    ensures r.Err? ==> r.error in {IndexError, ValueError, TypeError}
  {
    LabelColsOf(Words(line), withAinvs, raw)
  }

  /** A line written as conductor, class, number and a-invariants
      (and any further fields) is read back field for field. */
  lemma LabelColsRoundTrip(N: int, cl: string, num: int, ainvs: seq<int>, rest: seq<string>)
    requires IsWord(cl) && AllWords(rest)
    ensures
      var line := Join([IntToStr(N), cl, IntToStr(num), CompactListStr(ainvs)] + rest, " ");
      var r := LabelCols(line, true, false);
      r.Ok? && r.value.0 == IntToStr(N) + cl + IntToStr(num) && r.value.1["iso"] == Str(IntToStr(N) + cl) &&
      r.value.1["conductor"] == Int(N) && r.value.1["number"] == Int(num) && r.value.1["ainvs"] == IntList(ainvs)
  {
    var fields := [IntToStr(N), cl, IntToStr(num), CompactListStr(ainvs)] + rest;
    LabelLineWords(N, cl, num, ainvs, rest);
    assert fields[0] == IntToStr(N) && fields[1] == cl && fields[2] == IntToStr(num) && fields[3] == CompactListStr(ainvs);
    LabelColsOfLine(Join(fields, " "), fields, N, cl, num, ainvs);
  }

  /** The label columns of a line whose fields are known. */
  lemma LabelColsOfLine(line: string, fields: seq<string>, N: int, cl: string, num: int, ainvs: seq<int>)
    requires Words(line) == fields && |fields| >= 4
    requires fields[0] == IntToStr(N) && fields[1] == cl && fields[2] == IntToStr(num) && fields[3] == CompactListStr(ainvs)
    ensures
      var r := LabelCols(line, true, false);
      r.Ok? && r.value.0 == IntToStr(N) + cl + IntToStr(num) && r.value.1["iso"] == Str(IntToStr(N) + cl) &&
      r.value.1["conductor"] == Int(N) && r.value.1["number"] == Int(num) && r.value.1["ainvs"] == IntList(ainvs)
  {
    LabelColsOfWords(line, fields);
    LabelColsOfFields(fields, N, num, ainvs);
    var rec := LabelRecord(fields, Int(N), Int(num))["ainvs" := IntList(ainvs)];
    assert rec["iso"] == Str(fields[0] + fields[1]) && rec["conductor"] == Int(N) && rec["number"] == Int(num);
  }

  lemma LabelLineWords(N: int, cl: string, num: int, ainvs: seq<int>, rest: seq<string>)
    requires IsWord(cl) && AllWords(rest)
    ensures
      var fields := [IntToStr(N), cl, IntToStr(num), CompactListStr(ainvs)] + rest;
      Words(Join(fields, " ")) == fields
  {
    IntWord(N);
    IntWord(num);
    ListWord(ainvs);
    Line4(IntToStr(N), cl, IntToStr(num), CompactListStr(ainvs), rest);
  }

  lemma LabelColsOfWords(line: string, fields: seq<string>)
    requires Words(line) == fields
    ensures LabelCols(line, true, false) == LabelColsOf(fields, true, false)
  { }

  /** The label columns of known fields. */
  lemma LabelColsOfFields(fields: seq<string>, N: int, num: int, ainvs: seq<int>)
    requires |fields| >= 4
    requires fields[0] == IntToStr(N) && fields[2] == IntToStr(num) && fields[3] == CompactListStr(ainvs)
    ensures LabelColsOf(fields, true, false) ==
              Ok((fields[0] + fields[1] + fields[2], LabelRecord(fields, Int(N), Int(num))["ainvs" := IntList(ainvs)]))
  {
    LabelColsOfInts(fields, N, num);
    ParseIntListRoundTrip(ainvs);
  }

  // ---------------------------------------------------------------
  // Integral points
  // ---------------------------------------------------------------

  /** For the curve y^2 + (a1 x + a3) y = x^3 + a2 x^2 + a4 x + a6 at a
      given x: the coefficient b of y, the right-hand side f and the
      discriminant b^2 + 4f of the quadratic in y. */
  function LinearPart(ainvs: seq<int>, x: int): int
    requires |ainvs| == 5
  {
    ainvs[0] * x + ainvs[2]
  }

  function CubicPart(ainvs: seq<int>, x: int): int
    requires |ainvs| == 5
  {
    ((x + ainvs[1]) * x + ainvs[3]) * x + ainvs[4]
  }

  function Disc(ainvs: seq<int>, x: int): int
    requires |ainvs| == 5
  {
    LinearPart(ainvs, x) * LinearPart(ainvs, x) + 4 * CubicPart(ainvs, x)
  }

  predicate IsRoot(ainvs: seq<int>, x: int, y: int)
    requires |ainvs| == 5
  {
    y * y + LinearPart(ainvs, x) * y == CubicPart(ainvs, x)
  }

  /** `make_y_coords(ainvs, x)`: with d the integer square root of the
      discriminant, y = (d - b) // 2, and the second value -b - y unless
      d is 0. Five a-invariants are unpacked (ValueError otherwise) and
      `isqrt` of a negative number raises ValueError. */
  function MakeYCoords(ainvs: seq<int>, x: int): (r: Result<seq<int>>)
    ensures r.Err? <==> |ainvs| != 5 || Disc(ainvs, x) < 0
    ensures r.Err? ==> r.error == ValueError
    ensures r.Ok? ==> (|r.value| == 2 <==> Disc(ainvs, x) != 0) && 1 <= |r.value| <= 2
  {
    if |ainvs| != 5 then Err(ValueError)
    else
      var b := LinearPart(ainvs, x);
      var s := ISqrt(Disc(ainvs, x));
      if s.Err? then Err(ValueError)
      else
        var d := s.value;
        assert d == 0 <==> Disc(ainvs, x) == 0 by {
          if d != 0 {
            assert 1 <= d * d;
          }
        }
        var y := (-b + d) / 2;
        Ok(if d != 0 then [y, -b - y] else [y])
  }

  lemma SquareMono(a: int, b: int)
    requires 0 <= a <= b
    ensures a * a <= b * b
  {
    assert a * a <= a * b <= b * b;
  }

  /** The integer square root of a perfect square t^2 is t. */
  lemma SqrtOfSquare(s: nat, t: nat, n: int)
    requires s * s <= n < (s + 1) * (s + 1) && t * t == n
    ensures s == t
  {
    if t < s {
      SquareMono(t + 1, s);
    } else if t > s {
      SquareMono(s + 1, t);
    }
  }

  /** A square has the parity of its root. */
  lemma SquareParity(x: int)
    ensures (x * x) % 2 == x % 2
  {
    var q, r := x / 2, x % 2;
    assert x == 2 * q + r;
    assert x * x == (2 * q * q + 2 * q * r) * 2 + r * r;
    assert r * r == r;
    DivModUnique(x * x, 2, 2 * q * q + 2 * q * r, r);
  }

  /** d^2 - b^2 = 4f forces d and b to have the same parity. */
  lemma SameParity(d: int, b: int, f: int)
    requires d * d - b * b == 4 * f
    ensures (d - b) % 2 == 0
  {
    SquareParity(d);
    SquareParity(b);
    var Q := (b * b) / 2;
    DivModUnique(d * d, 2, Q + 2 * f, (b * b) % 2);
    DivModUnique(d - b, 2, d / 2 - b / 2, 0);
  }

  /** y = (d - b)/2 and -b - y are the two roots of y^2 + b y = f. */
  lemma HalfRoots(d: int, b: int, f: int)
    requires d * d - b * b == 4 * f
    ensures var y := (-b + d) / 2;
      y * y + b * y == f && (-b - y) * (-b - y) + b * (-b - y) == f && y - (-b - y) == d
  {
    SameParity(d, b, f);
    var y := (-b + d) / 2;
    assert d == 2 * y + b;
    assert d * d == 4 * (y * y + b * y) + b * b;
    assert (-b - y) * (-b - y) + b * (-b - y) == y * y + b * y;
  }

  /** Every returned y-coordinate lies on the curve exactly when the
      discriminant is a perfect square; then there are two distinct
      values summing to -b, or one when the discriminant is 0. */
  lemma YCoordsRoots(ainvs: seq<int>, x: int)
    requires |ainvs| == 5 && Disc(ainvs, x) >= 0
    ensures
      var r, d := MakeYCoords(ainvs, x), ISqrt(Disc(ainvs, x));
      r.Ok? && d.Ok? &&
      ((forall k :: 0 <= k < |r.value| ==> IsRoot(ainvs, x, r.value[k])) <==> d.value * d.value == Disc(ainvs, x))
    ensures
      var r, d := MakeYCoords(ainvs, x), ISqrt(Disc(ainvs, x));
      d.Ok? && d.value * d.value == Disc(ainvs, x) && d.value != 0 ==>
        r.Ok? && |r.value| == 2 && r.value[0] + r.value[1] == -LinearPart(ainvs, x) && r.value[0] != r.value[1]
  {
    var b, f := LinearPart(ainvs, x), CubicPart(ainvs, x);
    var d := ISqrt(Disc(ainvs, x)).value;
    var r := MakeYCoords(ainvs, x).value;
    var y := (-b + d) / 2;
    assert r[0] == y;
    if d * d == Disc(ainvs, x) {
      HalfRoots(d, b, f);
    }
    if IsRoot(ainvs, x, y) {
      var t := Abs(2 * y + b);
      assert t * t == (2 * y + b) * (2 * y + b);
      assert (2 * y + b) * (2 * y + b) == 4 * (y * y + b * y) + b * b;
      SqrtOfSquare(d, t, Disc(ainvs, x));
    }
  }

  /** `count_integral_points(ainvs, xs)`: the number of y-coordinates
      over all the x-coordinates. */
  function CountIntegralPoints(ainvs: seq<int>, xs: seq<int>): (r: Result<nat>)
    ensures r.Ok? <==> forall k :: 0 <= k < |xs| ==> MakeYCoords(ainvs, xs[k]).Ok?
    ensures r.Err? ==> r.error == ValueError
    ensures r.Ok? ==> |xs| <= r.value <= 2 * |xs|
    ensures r.Ok? && |ainvs| == 5 ==>
      (r.value == |xs| <==> forall k :: 0 <= k < |xs| ==> Disc(ainvs, xs[k]) == 0) &&
      (r.value == 2 * |xs| <==> forall k :: 0 <= k < |xs| ==> Disc(ainvs, xs[k]) != 0)
    decreases |xs|
  {
    if xs == [] then Ok(0)
    else
      var h := MakeYCoords(ainvs, xs[0]);
      var t := CountIntegralPoints(ainvs, xs[1..]);
      assert forall k :: 1 <= k < |xs| ==> xs[k] == xs[1..][k - 1];
      if h.Err? then Err(h.error)
      else if t.Err? then Err(t.error)
      else Ok(|h.value| + t.value)
  }

  // ---------------------------------------------------------------
  // allisog lines
  // ---------------------------------------------------------------

  /** `[int(a) for a in r.split(",")]` for each row of the matrix. */
  function ParseRows(rows: seq<string>): (r: Result<seq<seq<int>>>)
    ensures r.Ok? <==> forall k :: 0 <= k < |rows| ==> ParseInts(Split(rows[k], ','), ValueError).Ok?
    ensures r.Ok? ==>
              |r.value| == |rows| &&
              forall k :: 0 <= k < |rows| ==> ParseInts(Split(rows[k], ','), ValueError) == Ok(r.value[k]) && |r.value[k]| >= 1
    ensures r.Err? ==> r.error == ValueError
    decreases |rows|
  {
    if rows == [] then Ok([])
    else
      var h := ParseInts(Split(rows[0], ','), ValueError);
      var t := ParseRows(rows[1..]);
      assert forall k :: 1 <= k < |rows| ==> rows[k] == rows[1..][k - 1];
      if h.Err? || t.Err? then Err(ValueError)
      else
        ParsedRowsCons(rows, h.value, t.value);
        Ok([h.value] + t.value)
  }

  lemma ParsedRowsCons(rows: seq<string>, hv: seq<int>, tv: seq<seq<int>>)
    requires rows != [] && ParseInts(Split(rows[0], ','), ValueError) == Ok(hv) && |hv| >= 1
    requires |tv| == |rows| - 1
    requires forall k :: 0 <= k < |tv| ==> ParseInts(Split(rows[1..][k], ','), ValueError) == Ok(tv[k]) && |tv[k]| >= 1
    ensures var r := [hv] + tv;
      |r| == |rows| && forall k :: 0 <= k < |rows| ==> ParseInts(Split(rows[k], ','), ValueError) == Ok(r[k]) && |r[k]| >= 1
  {
    var r := [hv] + tv;
    forall k | 0 <= k < |rows| ensures ParseInts(Split(rows[k], ','), ValueError) == Ok(r[k]) && |r[k]| >= 1 {
      if k > 0 {
        assert rows[k] == rows[1..][k - 1] && r[k] == tv[k - 1];
      }
    }
  }

  /** `max(row)` of a non-empty row. */
  function RowMax(row: seq<int>): (m: int)
    requires |row| >= 1
    ensures (forall k :: 0 <= k < |row| ==> row[k] <= m) && m in row
    decreases |row|
  {
    if |row| == 1 then row[0]
    else
      var t := RowMax(row[1..]);
      assert forall k :: 1 <= k < |row| ==> row[k] == row[1..][k - 1];
      if row[0] >= t then row[0] else t
  }

  /** `max(max(r) for r in mat)`: the largest entry of the matrix. */
  function MatMax(mat: seq<seq<int>>): (m: int)
    requires |mat| >= 1 && forall i :: 0 <= i < |mat| ==> |mat[i]| >= 1
    ensures forall i, j :: 0 <= i < |mat| && 0 <= j < |mat[i]| ==> mat[i][j] <= m
    ensures exists i, j :: 0 <= i < |mat| && 0 <= j < |mat[i]| && mat[i][j] == m
    decreases |mat|
  {
    var h := RowMax(mat[0]);
    var j0 :| 0 <= j0 < |mat[0]| && mat[0][j0] == h;
    if |mat| == 1 then h
    else
      var t := MatMax(mat[1..]);
      assert forall i :: 1 <= i < |mat| ==> mat[i] == mat[1..][i - 1];
      var i1, j1 :| 0 <= i1 < |mat[1..]| && 0 <= j1 < |mat[1..][i1]| && mat[1..][i1][j1] == t;
      assert mat[i1 + 1][j1] == t;
      if h >= t then h else t
  }

  /** `all_iso_degs`: for the n-th curve of the class, the sorted
      distinct entries of row n of the isogeny matrix. The source's
      dict is keyed from 1; here entry n - 1 holds key n. */
  function IsoDegs(mat: seq<seq<int>>): (degs: seq<seq<int>>)
    ensures |degs| == |mat|
    ensures forall i :: 0 <= i < |mat| ==> StrictlySorted(degs[i]) && Elems(degs[i]) == Elems(mat[i])
  {
    seq(|mat|, i requires 0 <= i < |mat| => SortedSetOf(mat[i]))
  }

  /** What `parse_allisog_line` adds to the label columns. */
  predicate AllisogFacts(rec: Record, degs: seq<seq<int>>)
  {
    "isogeny_matrix" in rec && rec["isogeny_matrix"].IntListList? &&
    var mat := rec["isogeny_matrix"].m;
    |mat| >= 1 && (forall i :: 0 <= i < |mat| ==> |mat[i]| >= 1) &&
    "class_size" in rec && rec["class_size"] == Int(|mat|) &&
    "class_deg" in rec && rec["class_deg"].Int? &&
    (forall i, j :: 0 <= i < |mat| && 0 <= j < |mat[i]| ==> mat[i][j] <= rec["class_deg"].n) &&
    (exists i, j :: 0 <= i < |mat| && 0 <= j < |mat[i]| && mat[i][j] == rec["class_deg"].n) &&
    |degs| == |mat| &&
    (forall i :: 0 <= i < |mat| ==> StrictlySorted(degs[i]) && Elems(degs[i]) == Elems(mat[i])) &&
    "isogeny_degrees" in rec && rec["isogeny_degrees"] == IntList(degs[0])
  }

  /** The isogeny matrix field: outer '[[' and ']]' stripped, split on
      '],[' and each row on ','. Every row has at least one entry. */
  function IsogenyMatrix(field: string): (r: Result<seq<seq<int>>>)
    ensures r.Ok? ==> |r.value| >= 1 && forall i :: 0 <= i < |r.value| ==> |r.value[i]| >= 1
    ensures r.Err? ==> r.error == ValueError
  {
    ParseRows(SplitOn(Inner(field, 2, 2), "],["))
  }

  /** The record with the matrix, class size, class degree and the
      curve's own isogeny degrees added. */
  function AllisogRecord(rec: Record, mat: seq<seq<int>>): (r: (Record, seq<seq<int>>))
    requires |mat| >= 1 && forall i :: 0 <= i < |mat| ==> |mat[i]| >= 1
    ensures AllisogFacts(r.0, r.1) && r.0["isogeny_matrix"] == IntListList(mat)
    ensures forall k :: k in rec && k !in {"isogeny_matrix", "class_size", "class_deg", "isogeny_degrees"} ==>
              k in r.0 && r.0[k] == rec[k]
  {
    var degs := IsoDegs(mat);
    var m := MatMax(mat);
    AllisogBuildFacts(rec, mat, degs, m);
    AllisogBuildKeeps(rec, mat, degs[0], m);
    (AllisogBuild(rec, mat, m, degs[0]), degs)
  }

  /** The four updates `parse_allisog_line` makes to the record. */
  function AllisogBuild(rec: Record, mat: seq<seq<int>>, m: int, d0: seq<int>): Record
  {
    rec["isogeny_matrix" := IntListList(mat)]["class_size" := Int(|mat|)]
       ["class_deg" := Int(m)]["isogeny_degrees" := IntList(d0)]
  }

  lemma AllisogBuildFacts(rec: Record, mat: seq<seq<int>>, degs: seq<seq<int>>, m: int)
    requires |mat| >= 1 && forall i :: 0 <= i < |mat| ==> |mat[i]| >= 1
    requires |degs| == |mat| && forall i :: 0 <= i < |mat| ==> StrictlySorted(degs[i]) && Elems(degs[i]) == Elems(mat[i])
    requires forall i, j :: 0 <= i < |mat| && 0 <= j < |mat[i]| ==> mat[i][j] <= m
    requires exists i, j :: 0 <= i < |mat| && 0 <= j < |mat[i]| && mat[i][j] == m
    ensures AllisogFacts(AllisogBuild(rec, mat, m, degs[0]), degs)
    ensures AllisogBuild(rec, mat, m, degs[0])["isogeny_matrix"] == IntListList(mat)
  {
    var r := AllisogBuild(rec, mat, m, degs[0]);
    assert r["isogeny_matrix"] == IntListList(mat);
    assert r["class_size"] == Int(|mat|);
    assert r["class_deg"] == Int(m);
    assert r["isogeny_degrees"] == IntList(degs[0]);
  }

  lemma AllisogBuildKeeps(rec: Record, mat: seq<seq<int>>, d0: seq<int>, m: int)
    ensures forall k :: k in rec && k !in {"isogeny_matrix", "class_size", "class_deg", "isogeny_degrees"} ==>
              k in AllisogBuild(rec, mat, m, d0) && AllisogBuild(rec, mat, m, d0)[k] == rec[k]
  { }

  /** `parse_allisog_line` on the fields of a line: `words` as split
      for the label columns and `data` as split for the matrix. */
  function AllisogOf(words: seq<string>, data: seq<string>): (r: Result<(string, Record, seq<seq<int>>)>)
    ensures LabelColsOf(words, false, false).Err? ==> r == Err(LabelColsOf(words, false, false).error)
    ensures LabelColsOf(words, false, false).Ok? && LabelColsOf(words, false, false).value.1["number"] != Int(1) ==>
              r == Err(AssertionError)
    ensures r.Ok? ==> AllisogFacts(r.value.1, r.value.2) && r.value.0 == LabelColsOf(words, false, false).value.0
  {
    var lc := LabelColsOf(words, false, false);
    if lc.Err? then Err(lc.error)
    else if lc.value.1["number"] != Int(1) then Err(AssertionError)
    else if |data| < 6 then Err(IndexError)
    else
      var m := IsogenyMatrix(data[5]);
      if m.Err? then Err(m.error)
      else
        var rd := AllisogRecord(lc.value.1, m.value);
        Ok((lc.value.0, rd.0, rd.1))
  }

  /** `parse_allisog_line(line)`: label columns without a-invariants,
      the curve number asserted to be 1, and the isogeny matrix read
      from the sixth field. Returns the label, the record and
      `all_iso_degs`. */
  function ParseAllisogLine(line: string): (r: Result<(string, Record, seq<seq<int>>)>)
    ensures LabelCols(line, false, false).Err? ==> r == Err(LabelCols(line, false, false).error)
    ensures LabelCols(line, false, false).Ok? && LabelCols(line, false, false).value.1["number"] != Int(1) ==>
              r == Err(AssertionError)
    ensures r.Ok? ==> AllisogFacts(r.value.1, r.value.2) && r.value.0 == LabelCols(line, false, false).value.0
  {
    AllisogOf(Words(line), SplitWhitespace(line))
  }

  /** `encode` of a matrix without empty rows is read back. */
  lemma IsogenyMatrixRoundTrip(mat: seq<seq<int>>)
    requires |mat| >= 1 && forall i :: 0 <= i < |mat| ==> |mat[i]| >= 1
    ensures IsogenyMatrix(CompactListListStr(mat)) == Ok(mat)
  {
    var js := Rows(mat);
    CompactRows(mat);
    assert Inner(CompactListListStr(mat), 2, 2) == Join(js, "],[");
    forall k | 0 <= k < |js| ensures ']' !in js[k] {
      JoinedAbsent(mat[k], ']');
    }
    SplitOnJoin(js, "],[");
    forall k | 0 <= k < |js| ensures ParseInts(Split(js[k], ','), ValueError) == Ok(mat[k]) {
      forall i | 0 <= i < |mat[k]| ensures ',' !in IntStrs(mat[k])[i] {
        IntToStrChars(mat[k][i]);
      }
      SplitJoin(IntStrs(mat[k]), ',');
      ParseIntsOfIntStrs(mat[k], ValueError);
    }
    var m := ParseRows(js);
    assert m.Ok? && forall k :: 0 <= k < |mat| ==> m.value[k] == mat[k];
    assert m.value == mat;
  }

  /** Label columns whose conductor and number are decimal integers. */
  lemma LabelColsOfInts(data: seq<string>, N: int, num: int)
    requires |data| >= 3 && data[0] == IntToStr(N) && data[2] == IntToStr(num)
    ensures LabelColsOf(data, false, false) == Ok((data[0] + data[1] + data[2], LabelRecord(data, Int(N), Int(num))))
  {
    ParseIntOfIntToStr(N);
    ParseIntOfIntToStr(num);
  }

  /** A line whose last field is `encode` of a matrix without empty
      rows gives that matrix back, with the class size and the label. */
  lemma AllisogRoundTrip(N: int, cl: string, a: string, all: string, mat: seq<seq<int>>)
    requires IsWord(cl) && IsWord(a) && IsWord(all)
    requires |mat| >= 1 && forall i :: 0 <= i < |mat| ==> |mat[i]| >= 1
    ensures
      var line := Join([IntToStr(N), cl, IntToStr(1), a, all, CompactListListStr(mat)], " ");
      var r := ParseAllisogLine(line);
      r.Ok? && r.value.0 == IntToStr(N) + cl + IntToStr(1) &&
      r.value.1["isogeny_matrix"] == IntListList(mat) && r.value.1["class_size"] == Int(|mat|)
  {
    var fields := [IntToStr(N), cl, IntToStr(1), a, all, CompactListListStr(mat)];
    AllisogLineWords(N, cl, a, all, mat);
    AllisogOfLine(Join(fields, " "), fields, N, mat);
  }

  /** `parse_allisog_line` on a line whose six fields are known. */
  lemma AllisogOfLine(line: string, fields: seq<string>, N: int, mat: seq<seq<int>>)
    requires Words(line) == fields && |fields| == 6
    requires fields[0] == IntToStr(N) && fields[2] == IntToStr(1) && fields[5] == CompactListListStr(mat)
    requires |mat| >= 1 && forall i :: 0 <= i < |mat| ==> |mat[i]| >= 1
    ensures
      var r := ParseAllisogLine(line);
      r.Ok? && r.value.0 == fields[0] + fields[1] + fields[2] &&
      r.value.1["isogeny_matrix"] == IntListList(mat) && r.value.1["class_size"] == Int(|mat|)
  {
    assert ParseAllisogLine(line) == AllisogOf(fields, fields);
    AllisogOfFields(fields, N, mat);
  }

  lemma AllisogLineWords(N: int, cl: string, a: string, all: string, mat: seq<seq<int>>)
    requires IsWord(cl) && IsWord(a) && IsWord(all)
    ensures
      var fields := [IntToStr(N), cl, IntToStr(1), a, all, CompactListListStr(mat)];
      Words(Join(fields, " ")) == fields
  {
    IntWord(N);
    IntWord(1);
    MatWord(mat);
    Line6(IntToStr(N), cl, IntToStr(1), a, all, CompactListListStr(mat));
  }

  /** `parse_allisog_line` on six known fields. */
  lemma AllisogOfFields(fields: seq<string>, N: int, mat: seq<seq<int>>)
    requires |fields| == 6
    requires fields[0] == IntToStr(N) && fields[2] == IntToStr(1) && fields[5] == CompactListListStr(mat)
    requires |mat| >= 1 && forall i :: 0 <= i < |mat| ==> |mat[i]| >= 1
    ensures
      var r := AllisogOf(fields, fields);
      r.Ok? && r.value.0 == fields[0] + fields[1] + fields[2] && r.value.1["isogeny_matrix"] == IntListList(mat)
  {
    var rec := LabelRecord(fields, Int(N), Int(1));
    assert LabelColsOf(fields, false, false) == Ok((fields[0] + fields[1] + fields[2], rec)) by {
      LabelColsOfInts(fields, N, 1);
    }
    assert rec["number"] == Int(1);
    assert IsogenyMatrix(fields[5]) == Ok(mat) by {
      IsogenyMatrixRoundTrip(mat);
    }
  }

  // ---------------------------------------------------------------
  // 2adic lines
  // ---------------------------------------------------------------

  /** The record with the four 2-adic columns set. */
  function WithTwoadic(rec: Record, t: TwoadicRecord): (r: Record)
    ensures r.Keys == rec.Keys + {"twoadic_index", "twoadic_log_level", "twoadic_gens", "twoadic_label"}
    ensures r["twoadic_index"] == t.index && r["twoadic_log_level"] == t.logLevel
    ensures r["twoadic_gens"] == t.gens && r["twoadic_label"] == t.model
    ensures forall k :: k in rec && k !in {"twoadic_index", "twoadic_log_level", "twoadic_gens", "twoadic_label"} ==>
              r[k] == rec[k]
  {
    rec["twoadic_index" := t.index]["twoadic_log_level" := t.logLevel]["twoadic_gens" := t.gens]["twoadic_label" := t.model]
  }

  /** The part of `parse_twoadic_line` after the label columns: exactly
      eight fields (or AssertionError), then fields 5 to 8 read as
      index, level, generators and model label, as
      `parse_twoadic_string` reads them; for a CM curve the index is 0
      and the other three columns None. */
  function TwoadicColumns(lab: string, rec: Record, data: seq<string>, raw: bool): (r: Result<(string, Record)>)
    ensures |data| != 8 ==> r == Err(AssertionError)
    ensures r.Ok? ==>
      |data| == 8 && r.value.0 == lab && TwoadicFields(data[4], data[5], data[6], data[7], raw).Ok? &&
      r.value.1 == WithTwoadic(rec, TwoadicFields(data[4], data[5], data[6], data[7], raw).value)
    ensures r.Ok? && data[7] == "CM" ==>
      r.value.1["twoadic_index"] == (if raw then Str("0") else Int(0)) &&
      r.value.1["twoadic_log_level"] == PyNone && r.value.1["twoadic_gens"] == PyNone &&
      r.value.1["twoadic_label"] == PyNone
    ensures r.Err? ==> r.error != KeyError
  {
    if |data| != 8 then Err(AssertionError)
    else
      var t := TwoadicFields(data[4], data[5], data[6], data[7], raw);
      if t.Err? then Err(t.error) else Ok((lab, WithTwoadic(rec, t.value)))
  }

  /** `parse_twoadic_line(line, raw)`: label columns without
      a-invariants, then the 2-adic columns. */
  function ParseTwoadicLine(line: string, raw: bool): (r: Result<(string, Record)>)
    ensures LabelCols(line, false, raw).Err? ==> r == Err(LabelCols(line, false, raw).error)
    ensures LabelCols(line, false, raw).Ok? ==>
      var lc := LabelCols(line, false, raw).value;
      r == TwoadicColumns(lc.0, lc.1, SplitWhitespace(line), raw)
  {
    TwoadicOf(Words(line), SplitWhitespace(line), raw)
  }

  /** `parse_twoadic_line` on the fields of a line, split as for
      `parse_allisog_line`. */
  function TwoadicOf(words: seq<string>, data: seq<string>, raw: bool): (r: Result<(string, Record)>)
  {
    var lc := LabelColsOf(words, false, raw);
    if lc.Err? then Err(lc.error) else TwoadicColumns(lc.value.0, lc.value.1, data, raw)
  }

  /** A 2adic line written from its parts is read back: the index, the
      2-adic valuation of the level, the generators and the model. */
  lemma TwoadicLineRoundTrip(N: int, cl: string, num: int, a: string,
                             index: int, level: int, m: seq<seq<int>>, model: string)
    requires IsWord(cl) && IsWord(a) && IsWord(model) && model != "CM" && level != 0
    requires forall k :: 0 <= k < |m| ==> m[k] != []
    ensures
      var line := Join([IntToStr(N), cl, IntToStr(num), a,
                       IntToStr(index), IntToStr(level), CompactListListStr(m), model], " ");
      var r := ParseTwoadicLine(line, false);
      r.Ok? && r.value.0 == IntToStr(N) + cl + IntToStr(num) &&
      r.value.1["twoadic_index"] == Int(index) && r.value.1["twoadic_log_level"] == Int(Valuation2(level)) &&
      r.value.1["twoadic_gens"] == IntListList(m) && r.value.1["twoadic_label"] == Str(model)
  {
    var fields := [IntToStr(N), cl, IntToStr(num), a,
                  IntToStr(index), IntToStr(level), CompactListListStr(m), model];
    var t := TwoadicRecord(Int(index), Int(Valuation2(level)), IntListList(m), Str(model));
    TwoadicLineParses(fields, N, cl, num, a, index, level, m, model);
    var rec := WithTwoadic(LabelRecord(fields, Int(N), Int(num)), t);
    assert rec["twoadic_index"] == Int(index) && rec["twoadic_log_level"] == Int(Valuation2(level));
    assert rec["twoadic_gens"] == IntListList(m) && rec["twoadic_label"] == Str(model);
  }

  lemma TwoadicLineParses(fields: seq<string>, N: int, cl: string, num: int, a: string,
                          index: int, level: int, m: seq<seq<int>>, model: string)
    requires IsWord(cl) && IsWord(a) && IsWord(model) && model != "CM" && level != 0
    requires forall k :: 0 <= k < |m| ==> m[k] != []
    requires fields == [IntToStr(N), cl, IntToStr(num), a,
                        IntToStr(index), IntToStr(level), CompactListListStr(m), model]
    ensures ParseTwoadicLine(Join(fields, " "), false) ==
              Ok((fields[0] + fields[1] + fields[2],
                  WithTwoadic(LabelRecord(fields, Int(N), Int(num)),
                              TwoadicRecord(Int(index), Int(Valuation2(level)), IntListList(m), Str(model)))))
  {
    TwoadicLineWords(N, cl, num, a, index, level, m, model);
    TwoadicOfWords(Join(fields, " "), fields);
    TwoadicOfFields(fields, N, num, index, level, m, model);
  }

  lemma TwoadicOfWords(line: string, fields: seq<string>)
    requires Words(line) == fields && fields != []
    ensures ParseTwoadicLine(line, false) == TwoadicOf(fields, fields, false)
  { }

  lemma TwoadicLineWords(N: int, cl: string, num: int, a: string,
                         index: int, level: int, m: seq<seq<int>>, model: string)
    requires IsWord(cl) && IsWord(a) && IsWord(model)
    ensures
      var fields := [IntToStr(N), cl, IntToStr(num), a,
                    IntToStr(index), IntToStr(level), CompactListListStr(m), model];
      Words(Join(fields, " ")) == fields
  {
    IntWord(N);
    IntWord(num);
    IntWord(index);
    IntWord(level);
    MatWord(m);
    Line8(IntToStr(N), cl, IntToStr(num), a, IntToStr(index), IntToStr(level), CompactListListStr(m), model);
  }

  /** `parse_twoadic_line` on eight known fields. */
  lemma TwoadicOfFields(fields: seq<string>, N: int, num: int,
                        index: int, level: int, m: seq<seq<int>>, model: string)
    requires |fields| == 8
    requires fields[0] == IntToStr(N) && fields[2] == IntToStr(num) && fields[4] == IntToStr(index)
    requires fields[5] == IntToStr(level) && fields[6] == CompactListListStr(m) && fields[7] == model
    requires model != "CM" && level != 0 && forall k :: 0 <= k < |m| ==> m[k] != []
    ensures
      TwoadicOf(fields, fields, false) ==
        Ok((fields[0] + fields[1] + fields[2],
            WithTwoadic(LabelRecord(fields, Int(N), Int(num)),
                        TwoadicRecord(Int(index), Int(Valuation2(level)), IntListList(m), Str(model)))))
  {
    LabelColsOfInts(fields, N, num);
    TwoadicFieldsOfInts(index, level, m, model);
  }

  // ---------------------------------------------------------------
  // galrep lines
  // ---------------------------------------------------------------

  /** The non-maximal images of a curve: the codes, their primes and
      the product of the primes. */
  datatype GalrepData = GalrepData(images: seq<string>, primes: seq<int>, rad: int)

  /** `[int(split_galois_image_code(s)[0]) for s in codes]`: the prefix
      is a non-empty run of digits, so `int` of it always succeeds. */
  function ImagePrimes(codes: seq<string>): (r: Result<seq<int>>)
    ensures r.Ok? <==> forall k :: 0 <= k < |codes| ==> SplitGaloisImageCode(codes[k]).Ok?
    ensures r.Err? ==> r.error == IndexError
    ensures r.Ok? ==>
              |r.value| == |codes| &&
              forall k :: 0 <= k < |codes| ==>
                ParseInt(SplitGaloisImageCode(codes[k]).value.0) == Ok(r.value[k]) && r.value[k] >= 0
    decreases |codes|
  {
    if codes == [] then Ok([])
    else
      var sp := SplitGaloisImageCode(codes[0]);
      var t := ImagePrimes(codes[1..]);
      assert forall k :: 1 <= k < |codes| ==> codes[k] == codes[1..][k - 1];
      if sp.Err? then Err(IndexError)
      else if t.Err? then Err(IndexError)
      else
        ImagePrimesStep(codes, t.value);
        Ok([DigitsVal(sp.value.0) as int] + t.value)
  }

  lemma ImagePrimesStep(codes: seq<string>, v: seq<int>)
    requires |codes| >= 1 && |v| == |codes| - 1
    requires forall k :: 0 <= k < |codes| ==> SplitGaloisImageCode(codes[k]).Ok?
    requires forall k :: 0 <= k < |v| ==>
               ParseInt(SplitGaloisImageCode(codes[1..][k]).value.0) == Ok(v[k]) && v[k] >= 0
    ensures
      var r := [DigitsVal(SplitGaloisImageCode(codes[0]).value.0) as int] + v;
      forall k :: 0 <= k < |codes| ==>
        ParseInt(SplitGaloisImageCode(codes[k]).value.0) == Ok(r[k]) && r[k] >= 0
  {
    var r := [DigitsVal(SplitGaloisImageCode(codes[0]).value.0) as int] + v;
    forall k | 0 <= k < |codes|
      ensures ParseInt(SplitGaloisImageCode(codes[k]).value.0) == Ok(r[k]) && r[k] >= 0
    {
      if k == 0 {
        ParseDigits(SplitGaloisImageCode(codes[0]).value.0);
      } else {
        assert codes[k] == codes[1..][k - 1] && r[k] == v[k - 1];
      }
    }
  }

  /** Every positive factor divides the product. */
  lemma {:induction false} ProductDivisible(xs: seq<int>, k: nat)
    requires k < |xs| && xs[k] > 0
    ensures Product(xs) % xs[k] == 0
    decreases k
  {
    var p := Product(xs[1..]);
    assert Product(xs) == xs[0] * p;
    if k == 0 {
      DivModUnique(Product(xs), xs[0], p, 0);
    } else {
      assert xs[1..][k - 1] == xs[k];
      ProductDivisible(xs[1..], k - 1);
      var q := p / xs[k];
      assert p == q * xs[k];
      assert Product(xs) == (xs[0] * q) * xs[k];
      DivModUnique(Product(xs), xs[k], xs[0] * q, 0);
    }
  }

  /** The galrep columns after the label: `modp_images` are the fields
      after the first, `nonmax_primes` the numeric prefixes of the codes
      in order, and `nonmax_rad` their product. The label field itself
      is read with `parse_cremona_label`, which is not part of this
      model. */
  function GalrepFields(line: string): (r: Result<GalrepData>)
    ensures r.Ok? <==> forall k :: 1 <= k < |SplitWhitespace(line)| ==> SplitGaloisImageCode(SplitWhitespace(line)[k]).Ok?
    ensures r.Err? ==> r.error == IndexError
    ensures r.Ok? ==>
              r.value.images == SplitWhitespace(line)[1..] && |r.value.primes| == |r.value.images| &&
              forall k :: 0 <= k < |r.value.primes| ==>
                ParseInt(SplitGaloisImageCode(r.value.images[k]).value.0) == Ok(r.value.primes[k]) &&
                r.value.primes[k] >= 0 && (r.value.primes[k] > 0 ==> r.value.rad % r.value.primes[k] == 0)
  {
    var codes := SplitWhitespace(line)[1..];
    assert forall k :: 1 <= k < |SplitWhitespace(line)| ==> SplitWhitespace(line)[k] == codes[k - 1];
    var ps := ImagePrimes(codes);
    if ps.Err? then Err(IndexError)
    else
      forall k | 0 <= k < |ps.value| && ps.value[k] > 0 ensures Product(ps.value) % ps.value[k] == 0 {
        ProductDivisible(ps.value, k);
      }
      Ok(GalrepData(codes, ps.value, Product(ps.value)))
  }

  /** One code p + image splits back into p and image. */
  lemma CodeRoundTrip(p: nat, image: string)
    requires IsWord(image) && !IsDigit(image[0])
    ensures IsWord(NatToStr(p) + image) && SplitGaloisImageCode(NatToStr(p) + image) == Ok((NatToStr(p), image))
    ensures ParseInt(NatToStr(p)) == Ok(p)
  {
    IntWord(p);
    GaloisCodeRoundTrip(p, image);
    var code := NatToStr(p) + image;
    forall i | 0 <= i < |code| ensures !IsSpace(code[i]) {
      if i >= |NatToStr(p)| {
        assert code[i] == image[i - |NatToStr(p)|];
      } else {
        assert code[i] == IntToStr(p)[i];
      }
    }
  }

  /** Codes p + image split back into p and image. */
  lemma CodesRoundTrip(ps: seq<nat>, images: seq<string>, codes: seq<string>)
    requires |images| == |ps| && |codes| == |ps|
    requires forall k :: 0 <= k < |images| ==> IsWord(images[k]) && !IsDigit(images[k][0])
    requires forall k :: 0 <= k < |ps| ==> codes[k] == NatToStr(ps[k]) + images[k]
    ensures AllWords(codes) && ImagePrimes(codes) == Ok(ps)
  {
    forall k | 0 <= k < |ps|
      ensures IsWord(codes[k]) && SplitGaloisImageCode(codes[k]) == Ok((NatToStr(ps[k]), images[k]))
      ensures ParseInt(NatToStr(ps[k])) == Ok(ps[k])
    {
      CodeRoundTrip(ps[k], images[k]);
    }
    var pr := ImagePrimes(codes);
    assert pr.Ok? && forall k :: 0 <= k < |ps| ==> pr.value[k] == ps[k];
    assert pr.value == ps;
  }

  lemma WordsConsList(w: string, ws: seq<string>)
    requires IsWord(w) && AllWords(ws)
    ensures AllWords([w] + ws)
  {
    forall k | 0 <= k < |[w] + ws| ensures IsWord(([w] + ws)[k]) {
      if k >= 1 {
        assert ([w] + ws)[k] == ws[k - 1];
      }
    }
  }

  /** The codes p + image of a galrep line. */
  function GaloisCodes(ps: seq<nat>, images: seq<string>): seq<string>
    requires |images| == |ps|
  {
    seq(|ps|, k requires 0 <= k < |ps| => NatToStr(ps[k]) + images[k])
  }

  /** A galrep line written as label and codes p + image (image not
      starting with a digit) gives back the primes and their product. */
  lemma GalrepRoundTrip(lab: string, ps: seq<nat>, images: seq<string>)
    requires IsWord(lab) && |images| == |ps|
    requires forall k :: 0 <= k < |images| ==> IsWord(images[k]) && !IsDigit(images[k][0])
    ensures
      var codes := GaloisCodes(ps, images);
      var r := GalrepFields(Join([lab] + codes, " "));
      r.Ok? && r.value.images == codes && r.value.primes == ps && r.value.rad == Product(ps)
  {
    var codes := GaloisCodes(ps, images);
    CodesRoundTrip(ps, images, codes);
    var fields := [lab] + codes;
    WordsConsList(lab, codes);
    WordsJoin(fields);
    GalrepOfWords(Join(fields, " "), lab, codes, ps);
  }

  /** The galrep columns of a line whose fields are known. */
  lemma GalrepOfWords(line: string, lab: string, codes: seq<string>, ps: seq<nat>)
    requires Words(line) == [lab] + codes && ImagePrimes(codes) == Ok(ps)
    ensures
      var r := GalrepFields(line);
      r.Ok? && r.value.images == codes && r.value.primes == ps && r.value.rad == Product(ps)
  {
    assert SplitWhitespace(line)[1..] == codes;
  }

  // ---------------------------------------------------------------
  // PostgreSQL upload encoding
  // ---------------------------------------------------------------

  /** Python truthiness of a record value. A real is taken to be
      non-zero when its decimal text has a non-zero digit. */
  predicate Truthy(v: Value)
  {
    match v
    case PyNone => false
    case Str(s) => s != ""
    case Bool(b) => b
    case Int(n) => n != 0
    case QQ(q) => q.num != 0
    case IntList(l) => l != []
    case IntListList(m) => m != []
    case Real(t) => exists i :: 0 <= i < |t| && '1' <= t[i] <= '9'
    case RealList(ts) => ts != []
  }

  /** A PostgreSQL array type such as `smallint[]` or `numeric[]`. */
  predicate IsArrayType(coltype: string)
  {
    exists i :: 0 <= i < |coltype| - 1 && coltype[i] == '[' && coltype[i + 1] == ']'
  }

  /** Square brackets turned into braces, as `s.replace("[","{").replace("]","}")`. */
  function Braces(s: string): (r: string)
    ensures '[' !in r && ']' !in r
  {
    MapChar(MapChar(s, '[', '{'), ']', '}')
  }

  /** `postgres_encode(col, coltype)`: None is the COPY null marker
      `\N`, a boolean column is t or f, a rational is written as the list
      [n, d], and otherwise `str` of the value with all spaces removed,
      single quotes made double for jsonb, and brackets made braces for
      array types (the array-literal syntax of section 8.15.2 of the
      PostgreSQL manual). */
  function PostgresEncode(v: Value, coltype: string): (r: string)
    ensures v.PyNone? ==> r == "\\N"
    ensures !v.PyNone? && coltype == "boolean" ==> r == (if Truthy(v) then "t" else "f")
    ensures ' ' !in r
    ensures IsArrayType(coltype) ==> '[' !in r && ']' !in r
    ensures !v.PyNone? && coltype == "jsonb" ==> '\'' !in r
  {
    if v.PyNone? then "\\N"
    else if coltype == "boolean" then (if Truthy(v) then "t" else "f")
    else
      var w := if v.QQ? then IntList([v.q.num, v.q.den]) else v;
      var s := RemoveChar(PyStr(w), ' ');
      var s1 := if coltype == "jsonb" then MapChar(s, '\'', '"') else s;
      if IsArrayType(coltype) then Braces(s1) else s1
  }
}
