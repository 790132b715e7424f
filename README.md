# ecdata scripts: a verified model

This project models the self-contained logic of the Python scripts that build
and maintain John Cremona's elliptic curve tables (`scripts/` of the ecdata
repository). Every place where the scripts call Sage, Magma, PARI, mwrank or
sympow becomes a parameter. Examples are heights, torsion points, saturation,
isogeny maps, a_p values, root numbers, modular degrees and point searches.
The self-contained logic listed below is modelled and proved:

- **Generator reduction** (`redgens.dfy`, `redtors.dfy`, `torsion.dfy`,
  `minkey.dfy`, `lattice.dfy`):
  - Points modulo torsion are integer coordinate vectors. The canonical height
    is the quadratic form of an exact, symmetric, integer Gram matrix.
  - Modelled: `check_minkowski`, the 2-D Gauss loop and the rank-3 Minkowski
    loop of `mreduce_gens`, `reduce_mod_2d`, the torsion-generator choice of
    `reduce_tgens`, and `reduce_gens` with `reduce_one`.
  - Torsion is Z/c1 x Z/c2. The string length `len(str(P))` used as a sort key
    is a weight function parameter.
- **Point propagation through an isogeny class** (`ecdb.dfy`, `ecutils.dfy`):
  - Both versions of `map_points`, over an abstract point type and a matrix of
    optional maps.
  - The ec_utils version adds `maxp` and the resaturation, with the mwrank
    precision saved and restored.
  - A corrected propagation that provably reaches every curve reachable from
    curve 0 by the given maps.
- **Text formats** (`codec.dfy`, `files.dfy`, `output.dfy`, `ecdb.dfy`,
  `aplist.dfy`, `eqn.dfy`):
  - Integer-list, matrix, point and 2-adic codecs.
  - Column `encode`/`decode`, the line parsers of the data files and
    `make_y_coords`.
  - The PostgreSQL upload encoding: the array-literal syntax of section 8.15.2
    of the PostgreSQL manual and the `\N` null marker of the COPY text format.
  - `table_cols`, `data_to_string`, the aplist line and the LaTeX equation.
  - Most come with round-trip lemmas.
- **Small state machines and decision rules**:
  - the Magma restart counter (`magma.dfy`);
  - the modular-degree fallback (`moddeg.dfy`);
  - the merged integral-point list (`intpts.dfy`);
  - the merge of two sorted generator files (`ecdb.dfy`);
  - the Cremona-to-LMFDB renumbering of the alllabels files (`labels.dfy`).

Python exceptions are the `PyError` values of a `Result`, in `wrappers.dfy`.
Python strings are `seq<char>`. Shared helpers live in their own modules:
`text.dfy` (decimal forms, split, join, replace), `arith.dfy` (gcd, rounding
half away from zero, `isqrt`, 2-adic valuation, primes, normalised rationals),
`sortedseqs.dfy` and `strorder.dfy`.

## Model

| member | source | states |
|---|---|---|
| RedGens.HeightSum | scripts/red_gens.py:100-101 | h(P+Q) = h(P) + 2<P,Q> + h(Q) for the height form |
| RedGens.PairingFromHeights | scripts/red_gens.py:100-101 | (h(P+Q) - h(P) - h(Q))/2 is exactly the height pairing <P,Q> |
| RedGens.CheckMinkowskiPair | scripts/red_gens.py:70-75 | for two points the check holds iff h1 < h2 and 2\|<P1,P2>\| < h1 |
| RedGens.CheckMinkowskiTripleHeights | scripts/red_gens.py:76-89 | a triple that passes the check has strictly increasing heights |
| RedGens.GaussStep | scripts/red_gens.py:145-150 | the update formulas give the height of P2 - xP1 and its pairing with P1; the Gram determinant is kept and the new first height stays positive |
| RedGens.StepTracks | scripts/red_gens.py:144-152 | after each step h1, h2, h12 are the heights and pairing of the current pair, and the pair is a unimodular change of basis of the input pair |
| RedGens.ExitReduced | scripts/red_gens.py:151-152 | at the exit test h1 > h2, the returned pair [P2, P1] is reduced: increasing heights, 2\|pairing\| <= first height, same lattice and determinant |
| RedGens.GaussPass | scripts/red_gens.py:145-150 | one pass of the loop body: the new numbers are the next Gauss iterate of the start numbers, they stay the heights and pairing of a unimodular image of the input pair, the new h2 is the old h1 and 2\|h12\| <= h2 |
| RedGens.Gauss2 | scripts/red_gens.py:138-152 | the 2-D loop never raises; when it returns, the pair is reduced and is a unimodular image of the input pair; it does return whenever h(P1) <= fuel and no tie h1 = h2 occurs among the first fuel iterates |
| RedGens.RoundedProjection | scripts/red_gens.py:110-117 | (n1, n2) are the coordinates of the orthogonal projection of P3 on the plane of P1, P2, each rounded half away from zero |
| RedGens.ProjectionSolvesGramSystem | scripts/red_gens.py:110-114 | (y1, y2) solve the 2x2 Gram system of the projection |
| RedGens.Candidates | scripts/red_gens.py:124-125 | there are nine candidates, each of the lattice's dimension |
| RedGens.CandidatesAreShifts | scripts/red_gens.py:121-125 | candidate i is P3 - n1P1 - n2P2 plus the i-th of 0, -+P1, -+P2, -+(P1+P2), -+(P1-P2) |
| RedGens.FirstMinIsBest | scripts/red_gens.py:124-132 | the first candidate of least height is no higher than any other candidate, and strictly lower than every earlier one |
| RedGens.ReduceMod2D | scripts/red_gens.py:91-132 | for a reduced pair, the result is P3 - n1P1 - n2P2 + one of the nine shifts, of least height among the nine, and first in the source's order |
| Spans.SameSpan2Unimodular | scripts/red_gens.py:145-150 | an integer change of basis of determinant +-1 maps a pair to a pair generating the same subgroup |
| Spans.SameSpan3Unimodular | scripts/red_gens.py:163 | such a change of (P1, P2) keeps the subgroup generated by (P1, P2, P3) |
| Spans.SameSpan3Shift | scripts/red_gens.py:166 | replacing P3 by P3 + k1P1 + k2P2 keeps the subgroup of the triple |
| Spans.SameSpan3Permute | scripts/red_gens.py:178 | the reorderings (P1,P3,P2) and (P3,P1,P2) keep the subgroup of the triple |
| Spans.SameSpan3Trans | scripts/red_gens.py:160-178 | generating the same subgroup is transitive across passes of the loop |
| RedGens.PairOfTriple | scripts/red_gens.py:163 | the first two points of an independent triple form an independent pair |
| RedGens.TriplePermute | scripts/red_gens.py:178 | the reorderings (P1,P3,P2) and (P3,P1,P2) keep the triple independent |
| RedGens.TripleUnimodular | scripts/red_gens.py:163 | a unimodular change of basis of (P1, P2) keeps the triple independent |
| RedGens.TripleShift | scripts/red_gens.py:166 | replacing P3 by P3 + k1P1 + k2P2 keeps the triple independent |
| RedGens.PassKeepsTriple | scripts/red_gens.py:163-166 | a unimodular change of (P1, P2) followed by a shift of P3 keeps the triple independent and keeps the subgroup it generates |
| RedGens.Rank3PassHolds | scripts/red_gens.py:163-166 | one pass makes (P1, P2) reduced and P3 the best shift modulo them; the triple stays independent and generates the same subgroup as before the pass |
| RedGens.Rank3Step | scripts/red_gens.py:160-169 | the loop body computes such a pass (same subgroup included) whenever the 2-D loop returns, and the 2-D loop fails to return only out of fuel or after a tie |
| RedGens.MReduce3 | scripts/red_gens.py:154-180 | a reduced triple comes back unchanged; a returned triple passes `check_minkowski`, has h(P3) >= h(P2), is independent and generates the same subgroup as the input; the only exception is RuntimeError |
| RedGens.MReduce | scripts/red_gens.py:134-180 | fewer than 2 or more than 3 points come back unchanged; a result is Minkowski reduced and generates the same subgroup as the input; only three points can raise, with RuntimeError; two points return whenever h(P1) <= fuel and no tie occurs |
| MinKey.FirstMin | scripts/red_gens.py:25-26 | a stable sort's first element is the first index holding the least key |
| Torsion.Order | scripts/red_gens.py:21 | the order n satisfies 1 <= n <= group size and n t = 0 |
| Torsion.OrderIsLeast | scripts/red_gens.py:21 | no smaller positive multiple of t is 0 |
| RedTors.CoprimeMultiples | scripts/red_gens.py:24 | the list holds exactly the i with 1 <= i < n and gcd(n, i) = 1, in increasing order |
| RedTors.MultipleWeights | scripts/red_gens.py:24-25 | entry t is the weight of ks[t] P1 |
| RedTors.ReduceCyclicFails | scripts/red_gens.py:19-29 | the cyclic case fails, with IndexError, exactly for a generator of order 1 |
| RedTors.ReduceCyclicChoice | scripts/red_gens.py:24-29 | the result is k P1 for a unit k mod n1 of least weight; every smaller unit gives a strictly heavier point |
| RedTors.PairsWith | scripts/red_gens.py:50-52 | the pairs (P, Q) appended are exactly those with P among P1, P1a, P1b and P != Q2 |
| RedTors.CellPairsMember | scripts/red_gens.py:43-52 | the pairs of cell (i, j) are exactly those whose Q = iP1 + jP2 has order n2 and whose P is a 2-torsion point other than (n2/2)Q |
| RedTors.GenPairsAreGood | scripts/red_gens.py:42-52 | `gen_pairs` holds exactly the good pairs |
| RedTors.AppendPairs | scripts/red_gens.py:50-52 | the innermost loop appends exactly `PairsWith` |
| RedTors.AppendRow | scripts/red_gens.py:45-52 | the loop over i appends the pairs of the row's cells, in order |
| RedTors.GenPairs | scripts/red_gens.py:42-52 | the nested loops build the full list of pairs in loop order |
| RedTors.GenPairsNonEmpty | scripts/red_gens.py:38-55 | once the assertion on the orders holds, `gen_pairs` is non-empty, so `gen_pairs[0]` exists |
| RedTors.ReducedTorsionPair | scripts/red_gens.py:30-61 | more than two generators, or orders other than 2 and {2,4,6,8}, raise AssertionError; otherwise the result is the first good pair of least total weight, ordered by x for [2,2] |
| RedTors.LightestPairIsGood | scripts/red_gens.py:53-55 | the first pair of least weight exists and is good |
| RedTors.ReducedTorsionSmall | scripts/red_gens.py:16-29 | no generator, or one of order 2, is returned as given; order 1 raises IndexError; a larger order gives the cyclic choice |
| RedTors.ReduceTGens | scripts/red_gens.py:10-61 | the result is the reduced torsion list, and two generators are left in the array in increasing order of order (`tgens.reverse()`) |
| RedTors.Translates | scripts/red_gens.py:201-202 | the candidates are P + T for T in Tlist, then -P + T, in that order |
| RedTors.TranslateHeight | scripts/red_gens.py:200-202 | a torsion translate of P or -P has the height of P |
| RedTors.ReduceOne | scripts/red_gens.py:200-204 | the result is the first lightest of the translates, and it has the height of P |
| RedTors.ReduceOneWithoutTorsion | scripts/red_gens.py:198-204 | without torsion generators the result is P or -P |
| RedTors.ReduceFree | scripts/red_gens.py:196-206 | the generators are Minkowski reduced into generators of the same subgroup, then each goes through `reduce_one`; only three generators can raise RuntimeError |
| RedTors.ReduceGens | scripts/red_gens.py:182-211 | torsion errors propagate; no free generators gives ([], reduced torsion); otherwise one generator per input, each `reduce_one` of its Minkowski-reduced counterpart (which together generate the same subgroup as the LLL-reduced input), with T = 0 when there is no torsion |
| Ecdb.Image | scripts/ecdb.py:106 | the image list has the source's length and holds f(P) at each position |
| Ecdb.FillStep | scripts/ecdb.py:105-107 | one inner step keeps one list per curve |
| Ecdb.FillRow | scripts/ecdb.py:104-107 | one row keeps one list per curve |
| Ecdb.FillRows | scripts/ecdb.py:101-107 | the state after k rows has one list per curve |
| Ecdb.MapPoints | scripts/ecdb.py:93-107 | the loops with their early return compute `MapPointsSpec`: empty lists for no points, [Plist] for one curve, else the return-at-full pass |
| Ecdb.StepConsistent | scripts/ecdb.py:105-106 | an inner step keeps every list consistent: entry 0 is Plist and each filled entry is the image of another entry |
| Ecdb.RowConsistent | scripts/ecdb.py:104-107 | a row keeps the lists consistent |
| Ecdb.FillRowsConsistent | scripts/ecdb.py:99-107 | the loop keeps the lists consistent |
| Ecdb.RowKeeps | scripts/ecdb.py:105 | a row never overwrites a non-empty list |
| Ecdb.FillRowsKeep | scripts/ecdb.py:104-106 | a list, once non-empty, is never overwritten by later rows |
| Ecdb.ReturnAtFullConsistent | scripts/ecdb.py:100-103 | what the early return gives is consistent |
| Ecdb.MapPointsConsistent | scripts/ecdb.py:93-107 | when `map_points` returns, entry 0 is Plist and every non-empty entry is the image of another entry |
| Ecdb.MapPointsFallsOff | scripts/ecdb.py:100-107 | on three curves linked 0 -> 2 -> 1 every list gets filled, yet the function returns nothing |
| Ecdb.MapPointsLeavesEmpty | scripts/ecdb.py:104-106 | on four curves linked 0-3-1-2 the copies of still-empty lists count toward nfill, and the function returns with curves 1 and 2 empty |
| Ecdb.ClosedReachesAll | scripts/ecdb.py:89-92 | in a closed state every curve reached by a chain of maps from curve 0 has points |
| Ecdb.FillingCounts | scripts/ecdb.py:105-107 | filling an empty list raises the count of filled lists by one |
| Ecdb.PropagateRow | scripts/ecdb.py:104-107 | corrected row: copies only from a list holding points, keeps consistency, and reports growth; without growth the row is closed |
| Ecdb.FillGrows | scripts/ecdb.py:105-107 | filling an empty list from a filled one keeps consistency and fills one more list |
| Ecdb.PropagatePass | scripts/ecdb.py:101-107 | a corrected pass keeps consistency; either more lists are filled or the state is closed under all maps |
| Ecdb.PropagatePoints | scripts/ecdb.py:89-107 | the corrected propagation is consistent and closed, and every curve reachable from curve 0 gets points |
| Ecdb.ScaleRat | scripts/ecdb.py:57 | z*q is the normalised rational equal to z times q |
| Ecdb.PointPtoA | scripts/ecdb.py:62-64 | a successful read gives two normalised rationals |
| Ecdb.PointRoundTrip | scripts/ecdb.py:54-64 | `pointPtoA(pointstr(P))` gives back [x, y] when den x divides den y |
| Ecdb.PointAtInfinity | scripts/ecdb.py:62-64 | [0:1:0] cannot be read back: ZeroDivisionError |
| Ecdb.ListstrCompact | scripts/ecdb.py:45-46 | `liststr` is the compact list form: only spaces are removed |
| Ecdb.MapBracket | scripts/ecdb.py:68 | parentheses are replaced by brackets character by character |
| Ecdb.MapBracketJoin | scripts/ecdb.py:68 | the replacement distributes over a join |
| Ecdb.MapBracketVector | scripts/ecdb.py:68 | a tuple written with parentheses becomes the list form |
| Ecdb.MatstrCompact | scripts/ecdb.py:67-68 | `matstr(m)` is the compact list of the matrix's rows |
| Ecdb.Compare | scripts/ecdb.py:514-521 | `compare` succeeds iff both conductors are integers |
| Ecdb.CompareConductorFirst | scripts/ecdb.py:514-521 | different conductors are ordered by size; only equal ones consult the code comparison |
| Ecdb.CompareTotal | scripts/ecdb.py:514-521 | `compare` is a total preorder on well-formed lines when the code comparison is one |
| Ecdb.LineKey | scripts/ecdb.py:531-532 | `split(' ', 3)` unpacks iff the line has at least three spaces |
| Ecdb.MergeLines | scripts/ecdb.py:528-544 | the cursor loops compute the merge `Merge` of the two line lists |
| Ecdb.MergeStart | scripts/ecdb.py:528-529 | the loops start with nothing written and both files at their first line |
| Ecdb.MergeFails | scripts/ecdb.py:531-533 | a comparison that raises ends the merge with its error |
| Ecdb.MergeTakes | scripts/ecdb.py:533-538 | the first file's head is written iff compare < 0, otherwise the second's |
| Ecdb.MergeDrains | scripts/ecdb.py:539-544 | once one file is used up the other is copied line by line |
| Ecdb.MergeEnds | scripts/ecdb.py:530-544 | when both files are used up, what was written is the result |
| Ecdb.MergeGens | scripts/ecdb.py:523-548 | the input name needs exactly one dot; the output is `mallgens.<suffix>` holding the merged lines, or the merge's error |
| Ecdb.MergeInterleaves | scripts/ecdb.py:530-544 | every line of both files is written exactly once, and each file's order is kept |
| Ecdb.MergeHead | scripts/ecdb.py:533-538 | ties go to the second file |
| Ecdb.MergeSorted | scripts/ecdb.py:530-544 | two sorted files merge without error into a sorted file |
| EcUtils.Mwrank.constructor | scripts/ec_utils.py:133-134 | mwrank's working precision starts at the given value |
| EcUtils.RowMaxPrime | scripts/ec_utils.py:161 | over one row, the largest prime dividing a map degree (0 if none) |
| EcUtils.MaxPrimeRows | scripts/ec_utils.py:161 | the same over the first k rows |
| EcUtils.MaxP | scripts/ec_utils.py:161 | `maxp` is 0 or a prime dividing some map degree, and no prime dividing a degree exceeds it |
| EcUtils.FillUntilFull | scripts/ec_utils.py:165-173 | the loop with `break` keeps one list per curve |
| EcUtils.FillPass | scripts/ec_utils.py:165-173 | the nested loops with `break` compute `FillUntilFull` |
| EcUtils.BreakAgreesWithReturn | scripts/ec_utils.py:167-169 | where the ecdb.py loop returns, the ec_utils loop breaks with the same lists |
| EcUtils.FillUntilFullConsistent | scripts/ec_utils.py:165-173 | the lists left by the loop are consistent with the maps |
| EcUtils.FallsOffFilledHere | scripts/ec_utils.py:167-173 | on the 0 -> 2 -> 1 class the ec_utils loop fills every list |
| EcUtils.LeavesEmptyFill | scripts/ec_utils.py:165-173 | on the 0-3-1-2 class the ec_utils loop leaves curves 1 and 2 empty |
| EcUtils.LeavesEmptyRaises | scripts/ec_utils.py:177-181 | there, reading `Qlists[1][0]` raises IndexError |
| EcUtils.SaturateAll | scripts/ec_utils.py:177-183 | entry 0 is kept and every other list is saturated at primes up to maxp |
| EcUtils.Resaturate | scripts/ec_utils.py:175-184 | an empty list raises IndexError with the precision left raised; otherwise all lists are saturated and the precision is restored |
| EcUtils.MapPointsSat | scripts/ec_utils.py:153-185 | the method computes `MapPointsSatSpec`; on success the mwrank precision is back at its entry value |
| EcUtils.Rank1GensNonEmpty | scripts/ec_utils.py:75-109 | a successful rank-1 search is never empty, so the fallbacks after the PARI call are unreachable; it fails iff the search is empty and PARI raises |
| EcUtils.GetGens | scripts/ec_utils.py:115-142 | rank 0 gives [] without using Magma; otherwise one `get_magma` call, the rank-dependent search, saturation, and the precision restored |
| MagmaCounter.MagmaServer.constructor | scripts/magma.py:16-20 | a fresh instance with both scripts loaded and the counter at 0 |
| MagmaCounter.MagmaServer.GetMagma | scripts/magma.py:24-38 | restart with the counter at 1 when it equals the maximum, otherwise increment; the instance returned has both scripts loaded |
| MagmaCounter.AfterCallsClosedForm | scripts/magma.py:20-38 | the k-th call finds the counter at (k-1) mod max + 1, served by instance (k-1) div max |
| MagmaCounter.FirstCall | scripts/magma.py:34-37 | the first call sets the counter to 1 without a restart |
| MagmaCounter.CountBounded | scripts/magma.py:26-37 | the counter never exceeds the maximum |
| MagmaCounter.InstanceServes | scripts/magma.py:24-38 | instance i serves exactly calls i*max+1 .. (i+1)*max |
| Intpts.MergePoints | scripts/intpts.py:20-26 | the result is strictly ascending with the union of both lists as its elements; the warning is given iff the lists differ |
| Intpts.MergePointsCanonical | scripts/intpts.py:25-26 | the result is the one ascending list of the union, whatever the input order |
| Intpts.MergePointsAgree | scripts/intpts.py:20-27 | agreeing sorted searches give their common list and no warning |
| Intpts.GetIntegralPoints | scripts/intpts.py:11-27 | one `get_magma` call is made, and the result is the merge of the two searches |
| Moddeg.MagmaFirst | scripts/moddeg.py:5-22 | when Magma does not raise, sympow is never consulted; a non-zero Magma value is returned, and 0 otherwise |
| Moddeg.SympowFallback | scripts/moddeg.py:7-28 | after a Magma RuntimeError: a sympow value, 0 if sympow raised RuntimeError, and any other sympow exception propagates |
| Codec.ParseIntList | scripts/codec.py:15-20 | errors are TypeError; the result is [] iff the (stripped) text is empty |
| Codec.ParseJoined | scripts/codec.py:19-20 | comma-joined decimal forms read back as the list |
| Codec.ParseIntListRoundTrip | scripts/codec.py:15-20 | `parse_int_list(encode(l)) == l` |
| Codec.ParseEachList | scripts/codec.py:27 | each piece is read in order, and the whole fails iff some piece fails |
| Codec.ParseIntListList | scripts/codec.py:22-27 | errors are TypeError |
| Codec.ParseIntListListRoundTrip | scripts/codec.py:22-27 | `parse_int_list_list(encode(m)) == m`, including [] and [[]] |
| Codec.ProjToAff | scripts/codec.py:29-34 | succeeds iff `pointPtoA` reads the same string |
| Codec.ProjToWeightedProj | scripts/codec.py:36-43 | c = gcd(x, z) > 0, a c = x, b unchanged, c divides z; both x and z zero raises ZeroDivisionError |
| Codec.PointToWeightedProj | scripts/codec.py:45-53 | a = num x, b = num y, c >= 0 |
| Codec.WeightedProjToAffine | scripts/codec.py:79-84 | a triple gives (a/c^2, b/c^3) normalised; c = 0 raises ZeroDivisionError; another length raises ValueError |
| Codec.WeightedRoundTrip | scripts/codec.py:45-53 | with den x = c^2 and den y = c^3 the weighted coordinates read back as (x, y) |
| Codec.PointToProj | scripts/codec.py:55-63 | the only error is TypeError |
| Codec.PointToProjRoundTrip | scripts/codec.py:55-63 | when den x divides den y the string is `pointstr`, and `proj_to_aff` reads it back as (x, y) |
| Codec.FirstDigit | scripts/codec.py:76 | the position of the first digit |
| Codec.DigitRun | scripts/codec.py:76 | the length of the maximal digit run |
| Codec.SplitGaloisImageCode | scripts/codec.py:71-77 | p is the first maximal run of digits (IndexError when there is none), and the rest is s without its first \|p\| characters |
| Codec.GaloisCodeRoundTrip | scripts/codec.py:71-77 | a prime followed by an image label splits back into the two, and the prime reads back |
| Codec.GaloisCodeSplits | scripts/codec.py:76-77 | when s starts with a digit, p + rest == s |
| Codec.Encode | scripts/codec.py:136-151 | None is "?", a string is unchanged, a bool is 1/0, an integer its decimal form, and lists and rationals have no spaces |
| Codec.EncodeCompact | scripts/codec.py:146-149 | lists, matrices and rationals [n,d] are written in compact list form |
| Codec.ColumnKind | scripts/codec.py:153-170 | the kind is Unknown iff the column is in no list, and a string column is a string column |
| Codec.Decode | scripts/codec.py:172-193 | an unknown or string column gives the data unchanged |
| Codec.DecodeEncode | scripts/codec.py:172-190 | `decode(col, encode(v)) == v` for every value of the column's kind |
| Codec.DecodeEncodeBool | scripts/codec.py:181-182 | booleans round-trip through 1/0 |
| Codec.DecodeEncodeQQ | scripts/codec.py:187-188 | normalised rationals round-trip through [n,d] |
| Codec.RealListEncode | scripts/codec.py:148-149 | a list of reals is its texts joined by ',' in brackets |
| Codec.RealListSplit | scripts/codec.py:189-190 | the real-list decoder splits those texts back apart |
| Codec.ParseEachGen | scripts/codec.py:118 | each generator is read in order; errors are ValueError |
| Codec.TwoadicGens | scripts/codec.py:114-118 | errors are ValueError |
| Codec.TwoadicEmptyGen | scripts/codec.py:117-118 | an empty generator [[]] raises ValueError |
| Codec.ReplaceBrackets | scripts/codec.py:117 | replacing '],[' by '];[' in bracketed rows joined by ',' joins them by ';' |
| Codec.TwoadicGensRoundTrip | scripts/codec.py:114-118 | generators written by `encode` read back when none is empty |
| Codec.GenRoundTrip | scripts/codec.py:118 | one bracketed generator reads back |
| Codec.IntValue | scripts/codec.py:106 | `int(s)` succeeds iff s is an optional sign followed by ASCII decimal digits, else ValueError |
| Codec.TwoadicFields | scripts/codec.py:98-118 | 'CM' gives index 0 and None for the rest; otherwise the label is kept and the log-level is the 2-adic valuation of the level |
| Codec.ParseTwoadicString | scripts/codec.py:86-119 | anything but four fields is an AssertionError |
| Codec.TwoadicRoundTrip | scripts/codec.py:86-119 | a line written from index, level, generators and label reads back with the valuation of the level |
| Files.IntOrRaw | scripts/files.py:74-77 | `int(t)`, or t itself when raw; ValueError iff not raw and t is not an optional sign followed by ASCII decimal digits |
| Files.LabelRecord | scripts/files.py:73-78 | label = concatenation of three fields, iso = of two, isoclass = field 1 |
| Files.LabelColsOf | scripts/files.py:62-83 | no fields is IndexError; a result satisfies the label facts; errors are IndexError, ValueError or TypeError |
| Files.LabelCols | scripts/files.py:51-83 | the same for a line split on whitespace |
| Files.LabelColsRoundTrip | scripts/files.py:73-83 | a line written as conductor, class, number and a-invariants reads back field for field |
| Files.MakeYCoords | scripts/files.py:311-317 | fails (ValueError) iff not five a-invariants or a negative discriminant; two values iff the discriminant is non-zero |
| Files.HalfRoots | scripts/files.py:316-317 | y = (d - b)/2 and -b - y are the two roots of y^2 + by = f |
| Files.YCoordsRoots | scripts/files.py:311-317 | every returned y is on the curve iff the discriminant is a square; then two distinct values summing to -b, or one for d = 0 |
| Files.CountIntegralPoints | scripts/files.py:319-320 | the count lies between \|xs\| and 2\|xs\|, equals \|xs\| iff every discriminant is 0 and 2\|xs\| iff none is |
| Files.ParseRows | scripts/files.py:272 | each row is read with `int` and is non-empty; errors are ValueError |
| Files.RowMax | scripts/files.py:274 | `max(row)` is an entry of the row and bounds it |
| Files.MatMax | scripts/files.py:274 | `class_deg` is an entry of the matrix and bounds every entry |
| Files.IsoDegs | scripts/files.py:275 | `all_iso_degs` of each row is strictly ascending with the row's entries as its elements |
| Files.IsogenyMatrix | scripts/files.py:271-272 | the matrix has at least one row and no empty row; errors are ValueError |
| Files.AllisogRecord | scripts/files.py:272-276 | the matrix, class size, class degree and isogeny degrees are set, and every other column is kept |
| Files.AllisogOf | scripts/files.py:268-283 | label errors propagate; a number other than 1 is an AssertionError; a result satisfies the allisog facts |
| Files.ParseAllisogLine | scripts/files.py:255-283 | the same for a line |
| Files.IsogenyMatrixRoundTrip | scripts/files.py:271-272 | `encode` of a matrix without empty rows reads back |
| Files.AllisogRoundTrip | scripts/files.py:255-283 | an allisog line written from its parts gives back the label, the matrix and the class size |
| Files.WithTwoadic | scripts/files.py:400-421 | the four 2-adic columns are set and every other column is kept |
| Files.TwoadicColumns | scripts/files.py:398-422 | anything but eight fields is AssertionError; CM sets index 0 and None elsewhere; otherwise the fields read as in `parse_twoadic_string` |
| Files.ParseTwoadicLine | scripts/files.py:385-422 | label errors propagate; otherwise the 2-adic columns of the split line |
| Files.TwoadicLineRoundTrip | scripts/files.py:385-422 | a 2adic line written from its parts reads back |
| Files.ImagePrimes | scripts/files.py:447 | the prefixes are non-negative integers, read in order; IndexError iff a code has no digit |
| Files.ProductDivisible | scripts/files.py:448 | every positive prime of the list divides `nonmax_rad` |
| Files.GalrepFields | scripts/files.py:445-448 | `modp_images` are the fields after the label, `nonmax_primes` their prefixes in order, each dividing `nonmax_rad` |
| Files.CodeRoundTrip | scripts/files.py:447 | one code p + image splits back |
| Files.CodesRoundTrip | scripts/files.py:447 | a list of codes gives back its primes |
| Files.GalrepRoundTrip | scripts/files.py:445-449 | a galrep line gives back its codes, primes and their product |
| Files.Braces | scripts/files.py:945 | no square bracket remains |
| Files.PostgresEncode | scripts/files.py:928-946 | None is \N, a boolean column t/f, no spaces, no brackets in array types, no single quote in jsonb |
| FileOutput.Encoded | scripts/files.py:778 | the encoded values of the selected columns, in order |
| FileOutput.MakeLine | scripts/files.py:774-778 | KeyError iff a column is missing |
| FileOutput.MakeLineRoundTrip | scripts/files.py:774-778 | a line splits into one word per column, and `decode` of each word gives the record's value |
| FileOutput.PostgresOfEncode | scripts/files.py:939-945 | for integers, lists and rationals `postgres_encode` is `encode` with braces for array types |
| FileOutput.PostgresListRoundTrip | scripts/files.py:944-945 | a list in an array column is {1,-2,3} and reads back once the braces are brackets again |
| FileOutput.PostgresMatrixRoundTrip | scripts/files.py:944-945 | the same for a matrix |
| FileOutput.Keys | scripts/files.py:960 | the column names of the schema, in order |
| FileOutput.Lookup | scripts/files.py:987 | `schema[col]` succeeds iff col is a key, else KeyError |
| FileOutput.SetType | scripts/files.py:984-985 | col gets type t in place, or is appended as a new key; every other column is unchanged |
| FileOutput.MoveToFront | scripts/files.py:963-970 | errors are ValueError |
| FileOutput.MoveToFrontShape | scripts/files.py:963-970 | succeeds iff both key columns are present; they come first, and the rest stays sorted and loses only them |
| FileOutput.RemoveIdTail | scripts/files.py:971-972 | removing `id` behind two other columns removes it from the tail |
| FileOutput.PlaceIdShape | scripts/files.py:971-974 | `id` is first iff asked for, then the two key columns, then the sorted tail without `id` |
| FileOutput.IdFreeTail | scripts/files.py:971-972 | dropping `id` keeps a list sorted |
| FileOutput.TableCols | scripts/files.py:948-975 | fixed lists for ec_galrep and ec_torsion_growth |
| FileOutput.TableColsShape | scripts/files.py:948-975 | an unknown table is KeyError, a missing key column ValueError; otherwise id?, the key columns, then every other column once, ascending |
| FileOutput.RowFields | scripts/files.py:987 | each column's value encoded with the column's type |
| FileOutput.RowText | scripts/files.py:987 | KeyError iff some column is not in the schema |
| FileOutput.RowTextSplit | scripts/files.py:987 | the row splits on '\|' into one field per column, with \N for a missing or None column |
| FileOutput.SchemaStore.constructor | scripts/files.py:875 | the shared schema dictionary |
| FileOutput.SchemaStore.DataToString | scripts/files.py:977-987 | unknown table is KeyError and changes nothing; with `id` requested the shared schema gets id: bigint; the row is encoded with that schema |
| Aplist.Token | scripts/aplist.py:20-32 | an entry's text without padding is one word |
| Aplist.PaddedOfWStr | scripts/aplist.py:9-13 | `wstr(n, w)` is `str(n)` preceded only by spaces |
| Aplist.MyApStr | scripts/aplist.py:20-32 | the entry is its token padded; width 2 or 3 at a bad prime by p <= 23; at least that at a good prime |
| Aplist.ApStrWidth | scripts/aplist.py:20-32 | within the Hasse bound every entry below 100 has exactly its column width |
| Aplist.TokenGood | scripts/aplist.py:30-32 | at a good prime the token reads back as a_p |
| Aplist.PrimeTokens | scripts/aplist.py:20-32 | tokens read as a_p at good primes and are the root number's sign at bad ones |
| Aplist.ApEntries | scripts/aplist.py:36 | one entry per prime below 100, in order |
| Aplist.BadEntry | scripts/aplist.py:40-43 | an appended entry is one word |
| Aplist.BadEntryText | scripts/aplist.py:40-43 | it is +(q) or -(q) by the root number at q |
| Aplist.Above100 | scripts/aplist.py:38-39 | exactly the members above 100 |
| Aplist.Above100Increasing | scripts/aplist.py:37-39 | they stay in increasing order |
| Aplist.BigPrimesOfSupport | scripts/aplist.py:37-39 | the appended primes are exactly the primes above 100 dividing D, increasing |
| Aplist.BadEntriesAbove | scripts/aplist.py:37-43 | one entry per member above 100, in order |
| Aplist.AppendBadEntries | scripts/aplist.py:38-43 | the loop appends exactly those entries |
| Aplist.MyAplist | scripts/aplist.py:34-44 | the method computes `AplistLine` |
| Aplist.LineWords | scripts/aplist.py:44 | the joined entries split back into their tokens |
| Aplist.AplistWords | scripts/aplist.py:34-44 | an aplist line read word by word gives the tokens for p < 100, then +(q)/-(q) for each prime q > 100 dividing D |
| Eqn.SignedStr | scripts/eqn.py:18-19 | a sign followed by digits |
| Eqn.SignedStrRoundTrip | scripts/eqn.py:19 | the signed form reads back as the integer |
| Eqn.SignedChars | scripts/eqn.py:18-19 | no x, y or space, a digit after the sign |
| Eqn.TermChars | scripts/eqn.py:17-19 | the right-hand terms have no y and no space |
| Eqn.LatexEquation | scripts/eqn.py:11-20 | fails, with ValueError, iff there are not five a-invariants |
| Eqn.EquationFrame | scripts/eqn.py:13-20 | starts with \(y^2, ends with \), contains no spaces |
| Eqn.XyIffA1 | scripts/eqn.py:14 | "+xy" occurs iff a1 != 0 |
| Eqn.YIffA3 | scripts/eqn.py:15 | "+y" occurs iff a3 != 0 |
| Eqn.ReadLinearRoundTrip | scripts/eqn.py:18-19 | the x and constant terms read back as a4 and a6 |
| Eqn.ReadRhsRoundTrip | scripts/eqn.py:16-20 | the right-hand side reads back as (a2 if +-1 else 0, a4, a6) |
| Eqn.EquationRoundTrip | scripts/eqn.py:11-20 | the equation reads back as the presence of the xy and y terms, a2 when it is +-1 (0 otherwise), a4 and a6 |
| Labels.Sort | scripts/labels.py:27 | `sorted` by a-invariants: ascending, and a permutation |
| Labels.SortStrict | scripts/labels.py:27 | distinct curves are sorted strictly |
| Labels.IndexOf | scripts/labels.py:29 | `index` is the first position holding x |
| Labels.Lab2 | scripts/labels.py:29 | one LMFDB number per curve |
| Labels.Lab2Monotone | scripts/labels.py:27-29 | curve i gets a smaller number than curve j iff its a-invariants come first |
| Labels.Lab2Permutation | scripts/labels.py:27-29 | with distinct curves, the numbers are a permutation of 1..n |
| Labels.Lab2Injective | scripts/labels.py:29 | distinct curves get distinct numbers |
| Labels.Lab2Onto | scripts/labels.py:29 | every number 1..n is used |
| Labels.ClassLines | scripts/labels.py:30-32 | one line per curve, in class order |
| Labels.WriteClass | scripts/labels.py:30-32 | the inner loop appends exactly those lines |
| Labels.LineOfFields | scripts/labels.py:31 | a line splits into N cl lab1 N cl lab2, and the numbers read back |
| Labels.ParseCurveLine | scripts/labels.py:24 | ValueError iff the line does not have seven fields; conductor, class and a-invariants are taken |
| Labels.OutputName | scripts/labels.py:17-18 | ValueError iff the input name does not have exactly one dot |
| Labels.OutputNameOf | scripts/labels.py:17-18 | `curves.X` gives `<pref>alllabels.X` |
| Labels.AllLabelsFails | scripts/labels.py:20-24 | the run fails iff some line does not have seven fields, and then with ValueError |
| Labels.AllLabelsCons | scripts/labels.py:20-32 | the first line's class lines come first, then the rest |
| Labels.MakeAllLabels | scripts/labels.py:15-36 | the loop writes the class lines of each line until a line fails to split |

## Left out

- Sage, Magma, PARI, mwrank and sympow are parameters: heights (an exact Gram matrix), torsion points, isogeny classes and maps, saturation, point searches, Heegner points, integral points, modular degrees, a_p and root numbers, `lll_reduce` and `cmp_code`.
- `len(str(P))` is a weight function parameter, and the x-coordinate used to order [2,2] torsion is a key function parameter.
- Floating point: real heights and rounding become exact integer arithmetic. RR values are kept as their text.
- File and process I/O: files are lists of lines, written output is a returned value, `print` and verbose output are left out, and the warning of `get_integral_points` is a boolean.
- The Magma process itself (start, quit, script loading) is abstract: an instance number and a flag that the scripts are loaded.
- `parse_cremona_label` and the one-column branch of `parse_line_label_cols` are not part of this model.
- The other functions of scripts/ecdb.py, scripts/ec_utils.py and scripts/files.py are not part of this model: the `make_*`, `fix_*`, `read_*` and upload-file drivers, and `parse_allgens_line`, `parse_iwasawa_line` and the other parsers.
- scripts/misc.py and the root labels.py repeat functions modelled here. The copies of `wstr`/`my_ap_str` in scripts/ecdb.py and scripts/ec_utils.py are the ones in `aplist.dfy`.
- RedGens.Gauss2: takes a fuel bound. The source loop can run forever on a tie h1 = h2, so the model promises a return only when h(P1) <= fuel and no tie occurs among the first fuel iterates of (h1, h2, h12).
- Text.ParseInt: Python `int()` also accepts surrounding whitespace, `_` between digits and non-ASCII decimal digits; the model accepts only an optional sign followed by ASCII digits. The fields it parses come from whitespace splitting or comma splitting of text that `str` wrote, so they never hold any of these.
- Text.SageInt: the same restriction as Text.ParseInt.
- Codec.SplitGaloisImageCode: Python's `\d` in `re.findall(r'\d+', s)` also matches non-ASCII decimal digits; the model's digit runs are ASCII '0'..'9' only. Galois image codes are ASCII, so they never hold any.
- Codec.IntValue: the same restriction as Text.ParseInt.
- Files.IntOrRaw: the same restriction as Text.ParseInt.
- RedGens.MReduce3: takes a fuel bound, because the rank-3 loop has no decreasing measure. When the fuel runs out the outcome is `Diverged`, and nothing more is claimed.
- RedGens.MReduce: inherits the fuel of the two loops.
- RedTors.ReduceGens: inherits the fuel of the two loops.
- RedTors.ReduceFree: inherits the fuel of the two loops.
- RedGens.ReduceMod2D: the source's two asserts (h1 <= h2 and 2|h12| <= h1), and h1 > 0, are preconditions. The AssertionError path is not modelled.
- RedGens.ReduceMod2D: there is no claim that the result is the closest lattice vector. Only the minimum among the nine candidates is proved.
- Codec.Decode: `sage_eval` is not modelled, so real columns decode to their text.
- Codec.Encode: the value type is closed. The fallback that prints and returns an unknown value unchanged is not modelled.
- Files.PostgresEncode: for None, boolean, array and jsonb columns it states properties of the string, not the full string. The full string for integers, lists and rationals is in FileOutput.PostgresOfEncode.
- Files.ParseAllisogLine: `all_iso_degs` is returned beside the record as a list, with entry n-1 for key n, rather than as a dict inside the record.
- Files.GalrepFields: the label field is read by `parse_cremona_label`, which is not part of this model.
- Eqn.LatexEquation: the a-invariants are integers already, so the `int(a)` conversion is not modelled.
- EcUtils.GetGens: PARI exceptions propagate, as in the source. The Magma and mwrank fallbacks of `get_rank1_gens` are unreachable (see EcUtils.Rank1GensNonEmpty) and are not modelled.
- Intpts.GetIntegralPoints: the two searches are inputs. Their order shows only as the single `get_magma` call.

## Findings

| source | as written | input that shows it | evidently intended | confidence | as-written member | corrected member |
|---|---|---|---|---|---|---|
| scripts/ecdb.py:100-107 | `map_points` returns only when `nfill == ncurves` is seen at the top of a row. When the last list is filled in the last row, the loop ends and the function returns None. | three curves with maps 0 -> 2 and 2 -> 1, Plist = [P] | return the lists once they are all filled | not executed | Ecdb.MapPointsFallsOff | Ecdb.PropagatePoints |
| scripts/ecdb.py:104-106 | a list is copied from a source list that may still be empty, and the copy counts toward `nfill` | four curves linked 0-3, 3-1, 1-2 in both directions, Plist = [P]: the function returns with curves 1 and 2 empty | copy only from lists that hold points, until nothing changes | not executed | Ecdb.MapPointsLeavesEmpty | Ecdb.PropagatePoints |
