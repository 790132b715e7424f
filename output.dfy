/** The output half of scripts/files.py: one line of a data file, the
    PostgreSQL encoding of a column, the column order of an upload
    table and one row of an upload file. */
module FileOutput {
  import opened Wrappers
  import opened Text
  import opened Codec
  import StrOrder
  import Files

  // ---------------------------------------------------------------
  // Data-file lines
  // ---------------------------------------------------------------

  predicate HasCols(E: Files.Record, cols: seq<string>)
  {
    forall k :: 0 <= k < |cols| ==> cols[k] in E
  }

  /** The encoded values of the selected columns, in order. */
  function Encoded(E: Files.Record, cols: seq<string>): (ws: seq<string>)
    requires HasCols(E, cols)
    ensures |ws| == |cols| && forall k :: 0 <= k < |cols| ==> ws[k] == Encode(E[cols[k]])
  {
    seq(|cols|, k requires 0 <= k < |cols| => Encode(E[cols[k]]))
  }

  /** `make_line(E, columns)`: the encoded columns joined by spaces; a
      column missing from the record raises KeyError. */
  function MakeLine(E: Files.Record, cols: seq<string>): (r: Result<string>)
    ensures r.Err? <==> !HasCols(E, cols)
    ensures r.Err? ==> r.error == KeyError
  {
    if HasCols(E, cols) then Ok(Join(Encoded(E, cols), " ")) else Err(KeyError)
  }

  /** A line written by `make_line` reads back: split on whitespace it
      has one word per column, and `decode` of each word gives the
      record's value, whenever each value fits its column's kind and
      encodes to a single word. */
  lemma MakeLineRoundTrip(E: Files.Record, cols: seq<string>)
    requires HasCols(E, cols)
    requires forall k :: 0 <= k < |cols| ==> Fits(ColumnKind(cols[k]), E[cols[k]])
    requires forall k :: 0 <= k < |cols| ==> IsWord(Encode(E[cols[k]]))
    ensures var ws := Words(MakeLine(E, cols).value);
      |ws| == |cols| && forall k :: 0 <= k < |cols| ==> Decode(cols[k], ws[k]) == Ok(E[cols[k]])
  {
    var ws := Encoded(E, cols);
    if cols == [] {
      assert Join(ws, " ") == "";
      assert TrimLeft("") == "";
    } else {
      WordsJoin(ws);
    }
    forall k | 0 <= k < |cols| ensures Decode(cols[k], ws[k]) == Ok(E[cols[k]]) {
      DecodeEncode(cols[k], E[cols[k]]);
    }
  }

  // ---------------------------------------------------------------
  // PostgreSQL column encoding
  // ---------------------------------------------------------------

  /** Braces turned back into square brackets. */
  function Unbraces(s: string): (r: string)
    ensures '{' !in r && '}' !in r
  {
    MapChar(MapChar(s, '{', '['), '}', ']')
  }

  /** Brackets and braces are swapped back and forth without loss in a
      string that had no braces. */
  lemma UnbracesBraces(s: string)
    requires '{' !in s && '}' !in s
    ensures Unbraces(Files.Braces(s)) == s
  {
    var r := Unbraces(Files.Braces(s));
    forall i | 0 <= i < |s| ensures r[i] == s[i] {
      assert s[i] != '{' && s[i] != '}';
    }
  }

  /** The compact form of an integer list has no braces. */
  lemma ListNoBraces(l: seq<int>)
    ensures '{' !in CompactListStr(l) && '}' !in CompactListStr(l)
  {
    JoinedAbsent(l, '{');
    JoinedAbsent(l, '}');
  }

  /** The compact form of a list of integer lists has no braces. */
  lemma MatrixNoBraces(m: seq<seq<int>>)
    ensures '{' !in CompactListListStr(m) && '}' !in CompactListListStr(m)
  {
    var rows := CompactRowStrs(m);
    forall k | 0 <= k < |m| ensures '{' !in rows[k] && '}' !in rows[k] {
      ListNoBraces(m[k]);
    }
    JoinAbsent(rows, ",", '{');
    JoinAbsent(rows, ",", '}');
  }

  /** The two column encoders agree on integers, lists, rationals and
      lists of reals: `postgres_encode` is `encode` with brackets made
      braces for an array column and unchanged otherwise. */
  lemma PostgresOfEncode(v: Value, coltype: string)
    requires v.Int? || v.IntList? || v.IntListList? || v.QQ?
    requires coltype != "boolean" && coltype != "jsonb"
    ensures Files.PostgresEncode(v, coltype) ==
            if Files.IsArrayType(coltype) then Files.Braces(Encode(v)) else Encode(v)
  {
    if v.Int? {
      IntToStrChars(v.n);
      RemoveCharAbsent(IntToStr(v.n), ' ');
    }
  }

  /** Outer brackets become braces when nothing inside is a bracket. */
  lemma BracesOfBracketed(j: string)
    requires '[' !in j && ']' !in j
    ensures Files.Braces("[" + j + "]") == "{" + j + "}"
  {
    var b := Files.Braces("[" + j + "]");
    forall i | 0 <= i < |b| ensures b[i] == ("{" + j + "}")[i] {
      if 0 < i < |b| - 1 {
        assert ("[" + j + "]")[i] == j[i - 1];
      }
    }
  }

  /** An integer list in an array column is written `{1,-2,3}`, and
      with the braces made brackets again `parse_int_list` reads it back. */
  lemma PostgresListRoundTrip(l: seq<int>, coltype: string)
    requires Files.IsArrayType(coltype) && coltype != "boolean"
    ensures Files.PostgresEncode(IntList(l), coltype) == "{" + Join(IntStrs(l), ",") + "}"
    ensures ParseIntList(Unbraces(Files.PostgresEncode(IntList(l), coltype)), true) == Ok(l)
  {
    var j := Join(IntStrs(l), ",");
    PostgresOfEncode(IntList(l), coltype);
    EncodeCompact(IntList(l));
    JoinedAbsent(l, '[');
    JoinedAbsent(l, ']');
    BracesOfBracketed(j);
    ListNoBraces(l);
    UnbracesBraces(CompactListStr(l));
    ParseIntListRoundTrip(l);
  }

  /** A matrix in an array column reads back with `parse_int_list_list`
      once its braces are made brackets again. */
  lemma PostgresMatrixRoundTrip(m: seq<seq<int>>, coltype: string)
    requires Files.IsArrayType(coltype) && coltype != "boolean"
    ensures ParseIntListList(Unbraces(Files.PostgresEncode(IntListList(m), coltype))) == Ok(m)
  {
    PostgresOfEncode(IntListList(m), coltype);
    EncodeCompact(IntListList(m));
    MatrixNoBraces(m);
    UnbracesBraces(CompactListListStr(m));
    ParseIntListListRoundTrip(m);
  }

  // ---------------------------------------------------------------
  // Table schemas
  // ---------------------------------------------------------------

  /** A table's schema: column names and PostgreSQL types, in the
      order of the dictionary that holds them. */
  type Schema = seq<(string, string)>

  /** `list(schema.keys())`. */
  function Keys(s: Schema): (ks: seq<string>)
    ensures |ks| == |s| && forall k :: 0 <= k < |s| ==> ks[k] == s[k].0
  {
    seq(|s|, k requires 0 <= k < |s| => s[k].0)
  }

  /** `schema[col]`: the type of the first entry for col, or KeyError. */
  function Lookup(s: Schema, col: string): (r: Result<string>)
    ensures r.Ok? <==> col in Keys(s)
    ensures r.Err? ==> r.error == KeyError
    ensures r.Ok? ==> (col, r.value) in s
    decreases |s|
  {
    if s == [] then Err(KeyError)
    else if s[0].0 == col then Ok(s[0].1)
    else
      assert Keys(s) == [s[0].0] + Keys(s[1..]);
      Lookup(s[1..], col)
  }

  /** `schema[col] = t`: the entry for col given type t in place, or a
      new entry at the end. */
  function SetType(s: Schema, col: string, t: string): (r: Schema)
    ensures Keys(r) == if col in Keys(s) then Keys(s) else Keys(s) + [col]
    ensures Lookup(r, col) == Ok(t)
    ensures forall c :: c != col ==> Lookup(r, c) == Lookup(s, c)
    decreases |s|
  {
    if s == [] then [(col, t)]
    else if s[0].0 == col then
      assert s == [s[0]] + s[1..];
      SetTypeHere(s[0], s[1..], col, t);
      [(col, t)] + s[1..]
    else
      var rest := SetType(s[1..], col, t);
      assert s == [s[0]] + s[1..];
      SetTypeStep(s[0], s[1..], rest, col, t);
      [s[0]] + rest
  }

  lemma KeysCons(x: (string, string), s: Schema)
    ensures Keys([x] + s) == [x.0] + Keys(s)
  {
    var l, r := Keys([x] + s), [x.0] + Keys(s);
    forall k | 0 <= k < |l| ensures l[k] == r[k] {
      if k > 0 {
        assert ([x] + s)[k] == s[k - 1];
      }
    }
  }

  /** Looking up in a schema with one more entry in front. */
  lemma LookupCons(x: (string, string), s: Schema, c: string)
    ensures Lookup([x] + s, c) == if x.0 == c then Ok(x.1) else Lookup(s, c)
  {
    assert ([x] + s)[1..] == s;
  }

  /** Setting the type of the first column. */
  lemma SetTypeHere(x: (string, string), s: Schema, col: string, t: string)
    requires x.0 == col
    ensures Keys([(col, t)] + s) == Keys([x] + s) && col in Keys([x] + s)
    ensures Lookup([(col, t)] + s, col) == Ok(t)
    ensures forall c :: c != col ==> Lookup([(col, t)] + s, c) == Lookup([x] + s, c)
  {
    KeysCons(x, s);
    KeysCons((col, t), s);
    LookupCons((col, t), s, col);
    forall c | c != col ensures Lookup([(col, t)] + s, c) == Lookup([x] + s, c) {
      LookupCons((col, t), s, c);
      LookupCons(x, s, c);
    }
  }

  /** Setting the type of a later column, given the rest is set. */
  lemma SetTypeStep(x: (string, string), s: Schema, rest: Schema, col: string, t: string)
    requires x.0 != col
    requires Keys(rest) == if col in Keys(s) then Keys(s) else Keys(s) + [col]
    requires Lookup(rest, col) == Ok(t)
    requires forall c :: c != col ==> Lookup(rest, c) == Lookup(s, c)
    ensures Keys([x] + rest) == if col in Keys([x] + s) then Keys([x] + s) else Keys([x] + s) + [col]
    ensures Lookup([x] + rest, col) == Ok(t)
    ensures forall c :: c != col ==> Lookup([x] + rest, c) == Lookup([x] + s, c)
  {
    KeysCons(x, s);
    KeysCons(x, rest);
    assert col in Keys([x] + s) <==> col in Keys(s);
    AppendAssoc([x.0], Keys(s), [col]);
    LookupCons(x, rest, col);
    forall c | c != col ensures Lookup([x] + rest, c) == Lookup([x] + s, c) {
      LookupCons(x, rest, c);
      LookupCons(x, s, c);
    }
  }


  const GalrepCols: seq<string> := ["label", "lmfdb_label", "prime", "image"]
  const TorsionGrowthCols: seq<string> := ["label", "lmfdb_label", "degree", "field", "torsion"]

  /** The two columns a table's rows are keyed by: the class labels for
      `ec_classdata`, the curve labels otherwise. */
  function FrontCols(table: string): (string, string)
  {
    if table == "ec_classdata" then ("iso", "lmfdb_iso") else ("label", "lmfdb_label")
  }

  /** `cols.remove(first); cols.remove(second); cols = [first, second] + cols`. */
  function MoveToFront(cols: seq<string>, first: string, second: string): (r: Result<seq<string>>)
    ensures r.Err? ==> r.error == ValueError
  {
    var c1 := StrOrder.Remove(cols, first);
    if c1.Err? then Err(c1.error)
    else
      var c2 := StrOrder.Remove(c1.value, second);
      if c2.Err? then Err(c2.error) else Ok([first, second] + c2.value)
  }

  /** `if 'id' in cols: cols.remove('id')`, then `['id'] + cols` when
      asked for. */
  function PlaceId(cols: seq<string>, includeId: bool): seq<string>
  {
    var c := if "id" in cols then StrOrder.Remove(cols, "id").value else cols;
    if includeId then ["id"] + c else c
  }

  /** `table_cols(table, include_id)`: fixed lists for the galrep and
      torsion-growth tables; otherwise the schema's columns sorted, the
      two key columns moved to the front (ValueError if one is
      missing), any `id` column dropped, and `id` put first when asked
      for. An unknown table raises KeyError. */
  function TableCols(schemas: map<string, Schema>, table: string, includeId: bool): (r: Result<seq<string>>)
    ensures table == "ec_galrep" ==> r == Ok(GalrepCols)
    ensures table == "ec_torsion_growth" ==> r == Ok(TorsionGrowthCols)
  {
    if table == "ec_galrep" then Ok(GalrepCols)
    else if table == "ec_torsion_growth" then Ok(TorsionGrowthCols)
    else if table !in schemas then Err(KeyError)
    else
      var (first, second) := FrontCols(table);
      var c := MoveToFront(StrOrder.Sort(Keys(schemas[table])), first, second);
      if c.Err? then c else Ok(PlaceId(c.value, includeId))
  }

  /** Moving two distinct columns of a sorted list to the front succeeds
      exactly when both are there, and leaves the others sorted. */
  lemma MoveToFrontShape(cols: seq<string>, first: string, second: string)
    requires StrOrder.Sorted(cols) && first != second
    ensures var r := MoveToFront(cols, first, second);
      && (r.Ok? <==> first in cols && second in cols)
      && (r.Ok? ==>
            |r.value| >= 2 && r.value[..2] == [first, second] && StrOrder.Sorted(r.value[2..]) &&
            multiset(r.value[2..]) == multiset(cols) - multiset{first, second})
  {
    if first in cols {
      StrOrder.RemoveSorted(cols, first);
      var c1 := StrOrder.Remove(cols, first).value;
      assert second in cols <==> second in multiset(c1);
      if second in c1 {
        StrOrder.RemoveSorted(c1, second);
        var c2 := StrOrder.Remove(c1, second).value;
        assert ([first, second] + c2)[2..] == c2;
      }
    }
  }

  /** Removing `id` from a list headed by two other columns removes it
      from the tail. */
  lemma RemoveIdTail(a: string, b: string, t: seq<string>)
    requires a != "id" && b != "id" && "id" in t
    ensures StrOrder.Remove([a, b] + t, "id") == Ok([a, b] + StrOrder.Remove(t, "id").value)
  {
    StrOrder.RemoveCons(b, t, "id");
    StrOrder.RemoveCons(a, [b] + t, "id");
    PairCons(a, b, t);
    PairCons(a, b, StrOrder.Remove(t, "id").value);
  }

  lemma PairCons(a: string, b: string, t: seq<string>)
    ensures [a] + ([b] + t) == [a, b] + t
  {
  }

  /** Placing `id` in a list headed by two other columns: `id` first when
      asked for, the two columns next, and the sorted tail without `id`. */
  lemma PlaceIdShape(cols: seq<string>, includeId: bool)
    requires |cols| >= 2 && cols[0] != "id" && cols[1] != "id" && StrOrder.Sorted(cols[2..])
    ensures var r := PlaceId(cols, includeId);
      var pre := if includeId then ["id", cols[0], cols[1]] else [cols[0], cols[1]];
      |r| >= |pre| && r[..|pre|] == pre && StrOrder.Sorted(r[|pre|..]) &&
      multiset(r[|pre|..]) == multiset(cols[2..]) - multiset{"id"}
  {
    var t := cols[2..];
    var rest := if "id" in t then StrOrder.Remove(t, "id").value else t;
    var pre := if includeId then ["id", cols[0], cols[1]] else [cols[0], cols[1]];
    PlaceIdSplit(cols, includeId);
    IdFreeTail(t);
    PrefixSplit(pre, rest);
  }

  lemma PlaceIdSplit(cols: seq<string>, includeId: bool)
    requires |cols| >= 2 && cols[0] != "id" && cols[1] != "id"
    ensures var t := cols[2..];
      PlaceId(cols, includeId) ==
        (if includeId then ["id", cols[0], cols[1]] else [cols[0], cols[1]]) +
        (if "id" in t then StrOrder.Remove(t, "id").value else t)
  {
    var t := cols[2..];
    assert cols == [cols[0], cols[1]] + t;
    assert "id" in cols <==> "id" in t;
    if "id" in t {
      RemoveIdTail(cols[0], cols[1], t);
    }
  }

  /** Dropping `id` from a sorted list leaves it sorted. */
  lemma IdFreeTail(t: seq<string>)
    requires StrOrder.Sorted(t)
    ensures var rest := if "id" in t then StrOrder.Remove(t, "id").value else t;
      StrOrder.Sorted(rest) && multiset(rest) == multiset(t) - multiset{"id"}
  {
    if "id" in t {
      StrOrder.RemoveSorted(t, "id");
    } else {
      assert "id" !in multiset(t);
      assert multiset(t) - multiset{"id"} == multiset(t);
    }
  }

  lemma PrefixSplit(pre: seq<string>, rest: seq<string>)
    ensures |pre + rest| >= |pre| && (pre + rest)[..|pre|] == pre && (pre + rest)[|pre|..] == rest
  {
  }

  /** The columns of a schema-driven table: `id` first when asked for,
      then the two key columns, then every other column of the schema
      once in sorted order, `id` excluded. The key columns must be in the
      schema, and an unknown table raises KeyError. */
  lemma TableColsShape(schemas: map<string, Schema>, table: string, includeId: bool)
    requires table != "ec_galrep" && table != "ec_torsion_growth"
    ensures var r := TableCols(schemas, table, includeId);
      var (first, second) := FrontCols(table);
      var pre := if includeId then ["id", first, second] else [first, second];
      && (table !in schemas ==> r == Err(KeyError))
      && (table in schemas ==>
            (r.Ok? <==> first in Keys(schemas[table]) && second in Keys(schemas[table])) &&
            (r.Err? ==> r.error == ValueError))
      && (r.Ok? ==>
            |r.value| >= |pre| && r.value[..|pre|] == pre &&
            StrOrder.Sorted(r.value[|pre|..]) &&
            multiset(r.value[|pre|..]) == multiset(Keys(schemas[table])) - multiset{first, second} - multiset{"id"})
  {
    var (first, second) := FrontCols(table);
    if table in schemas {
      var ks := Keys(schemas[table]);
      var cols := StrOrder.Sort(ks);
      assert first in ks <==> first in multiset(cols);
      assert second in ks <==> second in multiset(cols);
      MoveToFrontShape(cols, first, second);
      var c := MoveToFront(cols, first, second);
      if c.Ok? {
        PlaceIdShape(c.value, includeId);
      }
    }
  }

  // ---------------------------------------------------------------
  // Upload rows
  // ---------------------------------------------------------------

  /** `record.get(col, None)`. */
  function Get(record: Files.Record, col: string): Value
  {
    if col in record then record[col] else PyNone
  }

  predicate InSchema(s: Schema, cols: seq<string>)
  {
    forall k :: 0 <= k < |cols| ==> cols[k] in Keys(s)
  }

  /** Each column's value encoded with the column's type. */
  function RowFields(s: Schema, cols: seq<string>, record: Files.Record): (fs: seq<string>)
    requires InSchema(s, cols)
    ensures |fs| == |cols|
    ensures forall k :: 0 <= k < |cols| ==> fs[k] == Files.PostgresEncode(Get(record, cols[k]), Lookup(s, cols[k]).value)
  {
    seq(|cols|, k requires 0 <= k < |cols| => Files.PostgresEncode(Get(record, cols[k]), Lookup(s, cols[k]).value))
  }

  /** One row of an upload file: the encoded columns joined by '|'; a
      column the schema does not list raises KeyError. */
  function RowText(s: Schema, cols: seq<string>, record: Files.Record): (r: Result<string>)
    ensures r.Err? <==> !InSchema(s, cols)
    ensures r.Err? ==> r.error == KeyError
  {
    if InSchema(s, cols) then Ok(Join(RowFields(s, cols, record), "|")) else Err(KeyError)
  }

  /** A row splits on '|' into one field per column when no encoded
      value contains '|'; a column missing from the record, or holding
      None, is the null marker `\N`. */
  lemma RowTextSplit(s: Schema, cols: seq<string>, record: Files.Record)
    requires |cols| >= 1 && InSchema(s, cols)
    requires forall k :: 0 <= k < |cols| ==> '|' !in RowFields(s, cols, record)[k]
    ensures var fs := Split(RowText(s, cols, record).value, '|');
      |fs| == |cols| &&
      (forall k :: 0 <= k < |cols| ==> fs[k] == Files.PostgresEncode(Get(record, cols[k]), Lookup(s, cols[k]).value)) &&
      (forall k :: 0 <= k < |cols| && (cols[k] !in record || record[cols[k]] == PyNone) ==> fs[k] == "\\N")
  {
    SplitJoin(RowFields(s, cols, record), '|');
  }

  /** The schemas of the upload tables, which `data_to_string` updates
      in place. */
  class SchemaStore {
    var schemas: map<string, Schema>

    constructor(initial: map<string, Schema>)
      ensures schemas == initial
    {
      schemas := initial;
    }

    /** `data_to_string(table, cols, record)`: when `id` is among the
        columns the table's schema is first given `id: bigint` (the
        shared schema itself is changed), then the row is encoded. An
        unknown table raises KeyError and changes nothing. */
    method DataToString(table: string, cols: seq<string>, record: Files.Record) returns (r: Result<string>)
      modifies this
      ensures table !in old(schemas) ==> r == Err(KeyError) && schemas == old(schemas)
      ensures table in old(schemas) ==>
        var s := if "id" in cols then SetType(old(schemas)[table], "id", "bigint") else old(schemas)[table];
        schemas == old(schemas)[table := s] && r == RowText(s, cols, record)
      ensures table in old(schemas) && "id" in cols ==> Lookup(schemas[table], "id") == Ok("bigint")
    {
      if table !in schemas {
        return Err(KeyError);
      }
      var s := schemas[table];
      if "id" in cols {
        s := SetType(s, "id", "bigint");
      }
      schemas := schemas[table := s];
      r := RowText(s, cols, record);
    }
  }
}
