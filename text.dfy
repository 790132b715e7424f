/** Python string primitives used by the codecs: `str` of an integer,
    `int()` of a string, `str.split`, `str.join`, `str.replace` and
    slicing with negative bounds, all over `seq<char>`. */
module Text {
  import opened Wrappers

  predicate IsDigit(c: char) { '0' <= c <= '9' }

  predicate AllDigits(s: string) { forall i :: 0 <= i < |s| ==> IsDigit(s[i]) }

  function DigitChar(d: nat): (c: char)
    requires d < 10
    ensures IsDigit(c)
  {
    (('0' as int) + d) as char
  }

  /** Python `str(n)` for n >= 0: decimal digits, no leading zero. */
  function NatToStr(n: nat): (s: string)
    ensures |s| > 0 && AllDigits(s)
    ensures |s| > 1 ==> s[0] != '0'
    decreases n
  {
    if n < 10 then [DigitChar(n)] else NatToStr(n / 10) + [DigitChar(n % 10)]
  }

  /** Python `str(n)` for any integer. */
  function IntToStr(n: int): (s: string)
    ensures |s| > 0
    ensures n < 0 <==> s[0] == '-'
    ensures n >= 0 ==> AllDigits(s)
  {
    if n < 0 then "-" + NatToStr(-n) else NatToStr(n)
  }

  /** The value of a non-empty run of decimal digits. */
  function DigitsVal(s: string): nat
    requires AllDigits(s)
    decreases |s|
  {
    if s == [] then 0 else DigitsVal(s[..|s| - 1]) * 10 + ((s[|s| - 1] as int) - ('0' as int))
  }

  /** Python `int(s)` (and Sage `ZZ(s)`) on a field with no whitespace,
      underscores or non-ASCII digits: an optional sign followed by ASCII
      decimal digits parses, any other such field is a ValueError. */
  function ParseInt(s: string): (r: Result<int>)
    ensures r.Ok? ==> |s| > 0
    ensures r.Ok? && s[0] == '-' ==> r.value <= 0
    ensures r.Ok? && IsDigit(s[0]) ==> r.value >= 0
  {
    if |s| > 0 && (s[0] == '-' || s[0] == '+') then
      if |s| > 1 && AllDigits(s[1..]) then
        var v: int := DigitsVal(s[1..]);
        Ok(if s[0] == '-' then -v else v)
      else Err(ValueError)
    else if |s| > 0 && AllDigits(s) then Ok(DigitsVal(s))
    else Err(ValueError)
  }

  /** A non-empty run of digits parses as its value. */
  lemma ParseDigits(p: string)
    requires |p| > 0 && AllDigits(p)
    ensures ParseInt(p) == Ok(DigitsVal(p))
  {
    assert IsDigit(p[0]);
  }

  /** Sage `ZZ(s)` / `Integer(s)`: like `int(s)`, but a malformed
      string raises TypeError. */
  function SageInt(s: string): (r: Result<int>)
    ensures r.Ok? <==> ParseInt(s).Ok?
    ensures r.Ok? ==> r == ParseInt(s)
    ensures r.Err? ==> r.error == TypeError
  {
    if ParseInt(s).Ok? then ParseInt(s) else Err(TypeError)
  }

  lemma {:induction false} DigitsValOfNatToStr(n: nat)
    ensures DigitsVal(NatToStr(n)) == n
    decreases n
  {
    if n >= 10 {
      var s := NatToStr(n / 10);
      DigitsValOfNatToStr(n / 10);
      assert (s + [DigitChar(n % 10)])[..|s|] == s;
    }
  }

  /** `int(str(n)) == n` for every integer. */
  lemma ParseIntOfIntToStr(n: int)
    ensures ParseInt(IntToStr(n)) == Ok(n)
  {
    if n < 0 {
      DigitsValOfNatToStr(-n);
      ParseNegDigits(NatToStr(-n));
    } else {
      DigitsValOfNatToStr(n);
      ParseDigits(NatToStr(n));
    }
  }

  lemma ParseNegDigits(p: string)
    requires |p| > 0 && AllDigits(p)
    ensures ParseInt("-" + p) == Ok(0 - DigitsVal(p))
  {
    assert ("-" + p)[1..] == p;
  }

  /** `ZZ(str(n)) == n` for every integer. */
  lemma SageIntOfIntToStr(n: int)
    ensures SageInt(IntToStr(n)) == Ok(n)
  {
    ParseIntOfIntToStr(n);
  }

  /** `[int(a) for a in parts]` (or `ZZ(a)`): every piece parsed, and
      the error `e` (ValueError for `int`, TypeError for `ZZ`) raised
      when one of them is not an integer literal. */
  function ParseInts(parts: seq<string>, e: PyError): (r: Result<seq<int>>)
    ensures r.Ok? <==> forall k :: 0 <= k < |parts| ==> ParseInt(parts[k]).Ok?
    ensures r.Ok? ==> |r.value| == |parts| && forall k :: 0 <= k < |parts| ==> ParseInt(parts[k]) == Ok(r.value[k])
    ensures r.Err? ==> r.error == e
    decreases |parts|
  {
    if parts == [] then Ok([])
    else
      var h := ParseInt(parts[0]);
      var t := ParseInts(parts[1..], e);
      if h.Err? || t.Err? then Err(e) else Ok([h.value] + t.value)
  }

  /** Parsing the decimal forms of a list of integers gives the list. */
  lemma ParseIntsOfIntStrs(l: seq<int>, e: PyError)
    ensures ParseInts(IntStrs(l), e) == Ok(l)
  {
    forall k | 0 <= k < |l| ensures ParseInt(IntStrs(l)[k]) == Ok(l[k]) {
      ParseIntOfIntToStr(l[k]);
    }
    var r := ParseInts(IntStrs(l), e);
    assert r.Ok?;
    assert forall k :: 0 <= k < |l| ==> r.value[k] == l[k];
    assert r.value == l;
  }

  /** `x, y, z = [ZZ(c) for c in s[1:-1].split(":")]`: a projective
      triple '[x:y:z]'; a piece that is not an integer raises TypeError
      and a number of pieces other than three raises ValueError. */
  function ProjInts(s: string): (r: Result<seq<int>>)
    ensures r.Ok? ==> |r.value| == 3
    ensures r.Err? ==> r.error == TypeError || r.error == ValueError
  {
    var cs := ParseInts(Split(Inner(s, 1, 1), ':'), TypeError);
    if cs.Err? then cs else if |cs.value| != 3 then Err(ValueError) else cs
  }

  /** '[a:b:c]' written with `str` is read back as (a, b, c). */
  lemma ProjIntsOfStr(a: int, b: int, c: int)
    ensures ProjInts("[" + Join([IntToStr(a), IntToStr(b), IntToStr(c)], ":") + "]") == Ok([a, b, c])
  {
    var ps := [IntToStr(a), IntToStr(b), IntToStr(c)];
    var j := Join(ps, ":");
    assert Inner("[" + j + "]", 1, 1) == j;
    forall k | 0 <= k < 3 ensures ':' !in ps[k] {
      IntToStrChars(a);
      IntToStrChars(b);
      IntToStrChars(c);
    }
    SplitJoin(ps, ':');
    assert ps == IntStrs([a, b, c]);
    ParseIntsOfIntStrs([a, b, c], TypeError);
  }

  /** `wstr(n, w)`: `str(n)` with spaces prepended up to width w;
      never truncated. */
  function WStr(n: int, w: int): (r: string)
    ensures |r| == if |IntToStr(n)| < w then w else |IntToStr(n)|
    ensures r[|r| - |IntToStr(n)|..] == IntToStr(n)
    ensures forall i :: 0 <= i < |r| - |IntToStr(n)| ==> r[i] == ' '
  {
    var a := IntToStr(n);
    if |a| < w then seq(w - |a|, _ => ' ') + a else a
  }

  /** Lists of strings concatenate associatively. */
  lemma AppendAssoc(a: seq<string>, b: seq<string>, c: seq<string>)
    ensures (a + b) + c == a + (b + c)
  {
  }

  /** Python `sep.join(parts)`. */
  function Join(parts: seq<string>, sep: string): string
    decreases |parts|
  {
    if |parts| == 0 then "" else if |parts| == 1 then parts[0]
    else parts[0] + sep + Join(parts[1..], sep)
  }

  /** A character in neither the pieces nor the separator is not in
      the joined string. */
  lemma {:induction false} JoinAbsent(parts: seq<string>, sep: string, c: char)
    requires c !in sep && forall k :: 0 <= k < |parts| ==> c !in parts[k]
    ensures c !in Join(parts, sep)
    decreases |parts|
  {
    if |parts| > 1 {
      JoinAbsent(parts[1..], sep, c);
    }
  }

  /** Python `s.split(c)` for a one-character separator: always at
      least one piece, and the pieces contain no `c`. */
  function Split(s: string, c: char): (parts: seq<string>)
    ensures |parts| >= 1
    ensures forall k :: 0 <= k < |parts| ==> c !in parts[k]
    decreases |s|
  {
    if s == [] then [""]
    else
      var rest := Split(s[1..], c);
      if s[0] == c then [""] + rest
      else [[s[0]] + rest[0]] + rest[1..]
  }

  lemma {:induction false} SplitPrefix(p: string, t: string, c: char)
    requires c !in p
    ensures Split(p + t, c) == [p + Split(t, c)[0]] + Split(t, c)[1..]
    decreases |p|
  {
    if p != [] {
      assert (p + t)[1..] == p[1..] + t;
      SplitPrefix(p[1..], t, c);
      assert [p[0]] + (p[1..] + Split(t, c)[0]) == p + Split(t, c)[0];
    } else {
      assert p + t == t;
      assert p + Split(t, c)[0] == Split(t, c)[0];
      assert Split(t, c) == [Split(t, c)[0]] + Split(t, c)[1..];
    }
  }

  /** Splitting a joined list of pieces that do not contain the
      separator gives the pieces back. */
  lemma {:induction false} SplitJoin(parts: seq<string>, c: char)
    requires |parts| >= 1
    requires forall k :: 0 <= k < |parts| ==> c !in parts[k]
    ensures Split(Join(parts, [c]), c) == parts
    decreases |parts|
  {
    if |parts| == 1 {
      SplitPrefix(parts[0], "", c);
      assert parts[0] + "" == parts[0];
    } else {
      var rest := Join(parts[1..], [c]);
      SplitJoin(parts[1..], c);
      assert parts[0] + [c] + rest == parts[0] + ([c] + rest);
      SplitPrefix(parts[0], [c] + rest, c);
      assert ([c] + rest)[1..] == rest;
      assert Split([c] + rest, c) == [""] + parts[1..];
      assert parts[0] + "" == parts[0];
      assert [parts[0]] + parts[1..] == parts;
    }
  }

  /** Python `s.split(sep)` for a separator of any positive length,
      scanning left to right for non-overlapping occurrences. */
  function SplitOn(s: string, sep: string): (parts: seq<string>)
    requires |sep| > 0
    ensures |parts| >= 1
    decreases |s|
  {
    if |s| < |sep| then [s]
    else if s[..|sep|] == sep then [""] + SplitOn(s[|sep|..], sep)
    else
      var rest := SplitOn(s[1..], sep);
      [[s[0]] + rest[0]] + rest[1..]
  }

  lemma {:induction false} SplitOnPrefix(p: string, t: string, sep: string)
    requires |sep| > 0 && sep[0] !in p
    ensures SplitOn(p + t, sep) == [p + SplitOn(t, sep)[0]] + SplitOn(t, sep)[1..]
    decreases |p|
  {
    if p != [] {
      assert (p + t)[1..] == p[1..] + t;
      assert (p + t)[0] == p[0];
      SplitOnPrefix(p[1..], t, sep);
      if |p + t| < |sep| {
        assert |t| < |sep|;
        assert SplitOn(t, sep) == [t];
        assert SplitOn(p[1..] + t, sep) == [p[1..] + t];
      }
      assert [p[0]] + (p[1..] + SplitOn(t, sep)[0]) == p + SplitOn(t, sep)[0];
    } else {
      assert p + t == t;
      assert p + SplitOn(t, sep)[0] == SplitOn(t, sep)[0];
      assert SplitOn(t, sep) == [SplitOn(t, sep)[0]] + SplitOn(t, sep)[1..];
    }
  }

  lemma {:induction false} SplitOnJoin(parts: seq<string>, sep: string)
    requires |sep| > 0 && |parts| >= 1
    requires forall k :: 0 <= k < |parts| ==> sep[0] !in parts[k]
    ensures SplitOn(Join(parts, sep), sep) == parts
    decreases |parts|
  {
    if |parts| == 1 {
      SplitOnPrefix(parts[0], "", sep);
      assert parts[0] + "" == parts[0];
    } else {
      var rest := Join(parts[1..], sep);
      SplitOnJoin(parts[1..], sep);
      assert parts[0] + sep + rest == parts[0] + (sep + rest);
      SplitOnPrefix(parts[0], sep + rest, sep);
      assert (sep + rest)[..|sep|] == sep;
      assert (sep + rest)[|sep|..] == rest;
      assert SplitOn(sep + rest, sep) == [""] + parts[1..];
      assert parts[0] + "" == parts[0];
      assert [parts[0]] + parts[1..] == parts;
    }
  }

  /** Python `s.replace(c, "")`. */
  function RemoveChar(s: string, c: char): (r: string)
    ensures c !in r
    ensures forall d :: d in r ==> d in s
    decreases |s|
  {
    if s == [] then "" else (if s[0] == c then "" else [s[0]]) + RemoveChar(s[1..], c)
  }

  lemma {:induction false} RemoveCharAppend(a: string, b: string, c: char)
    ensures RemoveChar(a + b, c) == RemoveChar(a, c) + RemoveChar(b, c)
    decreases |a|
  {
    if a != [] {
      assert (a + b)[1..] == a[1..] + b;
      RemoveCharAppend(a[1..], b, c);
    } else {
      assert a + b == b;
    }
  }

  lemma {:induction false} RemoveCharAbsent(a: string, c: char)
    requires c !in a
    ensures RemoveChar(a, c) == a
    decreases |a|
  {
    if a != [] {
      RemoveCharAbsent(a[1..], c);
    }
  }

  /** Python `s.replace(a, b)` for single characters. */
  function MapChar(s: string, a: char, b: char): (r: string)
    ensures |r| == |s|
    ensures forall i :: 0 <= i < |s| ==> r[i] == if s[i] == a then b else s[i]
  {
    seq(|s|, i requires 0 <= i < |s| => if s[i] == a then b else s[i])
  }

  /** Python `s.replace(pat, rep)` for an `pat` of positive length. */
  function ReplaceStr(s: string, pat: string, rep: string): string
    requires |pat| > 0
    decreases |s|
  {
    if |s| < |pat| then s
    else if s[..|pat|] == pat then rep + ReplaceStr(s[|pat|..], pat, rep)
    else [s[0]] + ReplaceStr(s[1..], pat, rep)
  }

  lemma {:induction false} ReplaceStrPrefix(p: string, t: string, pat: string, rep: string)
    requires |pat| > 0 && pat[0] !in p
    ensures ReplaceStr(p + t, pat, rep) == p + ReplaceStr(t, pat, rep)
    decreases |p|
  {
    if p != [] {
      assert (p + t)[1..] == p[1..] + t;
      assert (p + t)[0] == p[0];
      ReplaceStrPrefix(p[1..], t, pat, rep);
      if |p + t| < |pat| {
        assert |t| < |pat| && |p[1..] + t| < |pat|;
      }
    } else {
      assert p + t == t;
    }
  }

  /** Python slice `s[lo:]` with a non-negative start. */
  function Drop(s: string, lo: nat): string { if lo <= |s| then s[lo..] else "" }

  /** Python slice `s[lo:-hi]` with non-negative `lo` and positive `hi`:
      empty when the bounds cross. */
  function Inner(s: string, lo: nat, hi: nat): (r: string)
    ensures lo + hi <= |s| ==> r == s[lo..|s| - hi]
    ensures lo + hi > |s| ==> r == ""
  {
    if lo + hi <= |s| then s[lo..|s| - hi] else ""
  }

  /** Python `str.isspace` on one character: the separators `str.split()`
      splits on. */
  predicate IsSpace(c: char)
  {
    var n := c as int;
    (9 <= n <= 13) || (0x1c <= n <= 0x20) || n == 0x85 || n == 0xa0 || n == 0x1680 ||
    (0x2000 <= n <= 0x200a) || n == 0x2028 || n == 0x2029 || n == 0x202f || n == 0x205f || n == 0x3000
  }

  /** Leading whitespace removed. */
  function TrimLeft(s: string): (r: string)
    ensures r == [] || !IsSpace(r[0])
    ensures |r| <= |s| && r == s[|s| - |r|..]
    decreases |s|
  {
    if s != [] && IsSpace(s[0]) then TrimLeft(s[1..]) else s
  }

  /** The first whitespace-free run of a string that starts with a
      non-space character. */
  function WordLen(s: string): (n: nat)
    ensures n <= |s|
    ensures forall i :: 0 <= i < n ==> !IsSpace(s[i])
    ensures n < |s| ==> IsSpace(s[n])
    decreases |s|
  {
    if s == [] || IsSpace(s[0]) then 0 else 1 + WordLen(s[1..])
  }

  /** Python `s.split()`: the maximal runs of non-whitespace characters. */
  function Words(s: string): (ws: seq<string>)
    ensures forall k :: 0 <= k < |ws| ==> ws[k] != [] && forall i :: 0 <= i < |ws[k]| ==> !IsSpace(ws[k][i])
    decreases |s|
  {
    var t := TrimLeft(s);
    if t == [] then []
    else
      var n := WordLen(t);
      AllWordsCons(t[..n], Words(t[n..]));
      [t[..n]] + Words(t[n..])
  }

  lemma AllWordsCons(w: string, ws: seq<string>)
    requires w != [] && forall i :: 0 <= i < |w| ==> !IsSpace(w[i])
    requires forall k :: 0 <= k < |ws| ==> ws[k] != [] && forall i :: 0 <= i < |ws[k]| ==> !IsSpace(ws[k][i])
    ensures var r := [w] + ws;
      forall k :: 0 <= k < |r| ==> r[k] != [] && forall i :: 0 <= i < |r[k]| ==> !IsSpace(r[k][i])
  {
    var r := [w] + ws;
    forall k | 0 <= k < |r| ensures r[k] != [] && forall i :: 0 <= i < |r[k]| ==> !IsSpace(r[k][i]) {
      if k > 0 {
        assert r[k] == ws[k - 1];
      }
    }
  }

  /** A string of non-space characters followed by a space (or by
      nothing) is one word of that length. */
  lemma {:induction false} WordLenPrefix(p: string, t: string)
    requires forall i :: 0 <= i < |p| ==> !IsSpace(p[i])
    requires t == [] || IsSpace(t[0])
    ensures WordLen(p + t) == |p|
    decreases |p|
  {
    if p != [] {
      assert (p + t)[1..] == p[1..] + t;
      WordLenPrefix(p[1..], t);
    } else {
      assert p + t == t;
    }
  }

  /** A non-empty string without whitespace. */
  predicate IsWord(w: string)
  {
    w != [] && forall i :: 0 <= i < |w| ==> !IsSpace(w[i])
  }

  /** A word followed by whitespace or by nothing is the first word. */
  lemma WordsCons(p: string, rest: string)
    requires IsWord(p)
    requires rest == [] || IsSpace(rest[0])
    ensures Words(p + rest) == [p] + Words(rest)
  {
    var j := p + rest;
    assert TrimLeft(j) == j;
    WordLenPrefix(p, rest);
    assert j[..|p|] == p && j[|p|..] == rest;
  }

  lemma WordsSpace(r: string)
    ensures Words(" " + r) == Words(r)
  {
    assert (" " + r)[1..] == r;
    assert TrimLeft(" " + r) == TrimLeft(r);
  }

  /** A joined string starts with its first piece. */
  lemma {:induction false} JoinFirst(parts: seq<string>, sep: string)
    requires |parts| >= 1
    ensures |Join(parts, sep)| >= |parts[0]| && Join(parts, sep)[..|parts[0]|] == parts[0]
  {
    if |parts| > 1 {
      assert Join(parts, sep) == parts[0] + (sep + Join(parts[1..], sep));
    }
  }

  lemma JoinCons(w: string, ws: seq<string>, sep: string)
    requires |ws| >= 1
    ensures Join([w] + ws, sep) == w + (sep + Join(ws, sep))
  {
    assert ([w] + ws)[1..] == ws;
  }

  /** `' '.join(ws).split() == ws` for non-empty words without
      whitespace. */
  lemma {:induction false} WordsJoin(ws: seq<string>)
    requires |ws| >= 1 && forall k :: 0 <= k < |ws| ==> IsWord(ws[k])
    ensures Words(Join(ws, " ")) == ws
    decreases |ws|
  {
    if |ws| == 1 {
      WordsCons(ws[0], "");
      assert ws[0] + "" == ws[0];
    } else {
      var w, tail := ws[0], ws[1..];
      assert ws == [w] + tail;
      WordsJoin(tail);
      var r := Join(tail, " ");
      JoinCons(w, tail, " ");
      WordsCons(w, " " + r);
      WordsSpace(r);
    }
  }

  /** The codec's `split(line)`: `re.split(r'\s+', line.strip())`,
      which differs from `line.split()` only on a blank line. */
  function SplitWhitespace(s: string): (ws: seq<string>)
    ensures |ws| >= 1
  {
    var w := Words(s);
    if w == [] then [""] else w
  }

  // ---------------------------------------------------------------
  // Python `str` of integer lists, with and without spaces
  // ---------------------------------------------------------------

  /** The characters of `str(n)`: digits and a leading minus sign. */
  lemma IntToStrChars(n: int)
    ensures forall c :: c in IntToStr(n) ==> c == '-' || IsDigit(c)
  {
  }

  function IntStrs(l: seq<int>): (ss: seq<string>)
    ensures |ss| == |l| && forall k :: 0 <= k < |l| ==> ss[k] == IntToStr(l[k])
  {
    seq(|l|, k requires 0 <= k < |l| => IntToStr(l[k]))
  }

  /** Python `str(l)` for a list of integers: `[1, -2, 3]`. */
  function ListStr(l: seq<int>): string
  {
    "[" + Join(IntStrs(l), ", ") + "]"
  }

  /** The same list written without spaces: `[1,-2,3]`. */
  function CompactListStr(l: seq<int>): string
  {
    "[" + Join(IntStrs(l), ",") + "]"
  }

  /** Python `str(m)` for a list of lists of integers. */
  function ListListStr(m: seq<seq<int>>): string
  {
    "[" + Join(RowStrs(m), ", ") + "]"
  }

  /** `str` of each row. */
  function RowStrs(m: seq<seq<int>>): seq<string>
  {
    seq(|m|, k requires 0 <= k < |m| => ListStr(m[k]))
  }

  function CompactListListStr(m: seq<seq<int>>): string
  {
    "[" + Join(CompactRowStrs(m), ",") + "]"
  }

  /** `encode` of each row. */
  function CompactRowStrs(m: seq<seq<int>>): seq<string>
  {
    seq(|m|, k requires 0 <= k < |m| => CompactListStr(m[k]))
  }

  /** The character removed from every piece. */
  function RemoveEach(parts: seq<string>, c: char): (r: seq<string>)
    ensures |r| == |parts| && forall k :: 0 <= k < |parts| ==> r[k] == RemoveChar(parts[k], c)
  {
    seq(|parts|, k requires 0 <= k < |parts| => RemoveChar(parts[k], c))
  }

  /** Removing a character from a joined list removes it from every
      piece and from the separator. */
  lemma {:induction false} RemoveCharJoin(parts: seq<string>, sep: string, c: char)
    ensures RemoveChar(Join(parts, sep), c) == Join(RemoveEach(parts, c), RemoveChar(sep, c))
    decreases |parts|
  {
    var mapped := RemoveEach(parts, c);
    if |parts| == 1 {
    } else if |parts| > 1 {
      RemoveCharJoin(parts[1..], sep, c);
      assert mapped[1..] == RemoveEach(parts[1..], c);
      RemoveCharAppend(parts[0] + sep, Join(parts[1..], sep), c);
      RemoveCharAppend(parts[0], sep, c);
    }
  }

  /** `str(l).replace(' ', '')` is the compact form. */
  lemma RemoveSpacesList(l: seq<int>)
    ensures RemoveChar(ListStr(l), ' ') == CompactListStr(l)
  {
    var ss := IntStrs(l);
    RemoveCharJoin(ss, ", ", ' ');
    assert RemoveChar(", ", ' ') == ",";
    forall k | 0 <= k < |ss| ensures RemoveChar(ss[k], ' ') == ss[k] {
      IntToStrChars(l[k]);
      RemoveCharAbsent(ss[k], ' ');
    }
    assert RemoveEach(ss, ' ') == ss;
    Bracketed(Join(ss, ", "), Join(ss, ","));
  }

  /** `str(m).replace(' ', '')` is the compact form. */
  lemma RemoveSpacesListList(m: seq<seq<int>>)
    ensures RemoveChar(ListListStr(m), ' ') == CompactListListStr(m)
  {
    var ss := RowStrs(m);
    var cs := CompactRowStrs(m);
    RemoveCharJoin(ss, ", ", ' ');
    assert RemoveChar(", ", ' ') == ",";
    forall k | 0 <= k < |m| ensures RemoveChar(ss[k], ' ') == cs[k] {
      RemoveSpacesList(m[k]);
    }
    assert RemoveEach(ss, ' ') == cs;
    Bracketed(Join(ss, ", "), Join(cs, ","));
  }

  lemma Bracketed(j: string, j': string)
    requires RemoveChar(j, ' ') == j'
    ensures RemoveChar("[" + j + "]", ' ') == "[" + j' + "]"
  {
    assert RemoveChar("[", ' ') == "[";
    assert RemoveChar("]", ' ') == "]";
    RemoveCharAppend("[" + j, "]", ' ');
    RemoveCharAppend("[", j, ' ');
  }
}
