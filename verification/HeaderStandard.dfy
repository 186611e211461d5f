/** deflate.lua, parse_huffmantables, on whole headers: a header as section 3.2.7 of RFC 1951
    reads it, exactly when the program reads the same, and headers on which it does not. */
module HeaderStandard {
  import opened Bits
  import opened BitStreams
  import opened Huffman
  import opened HuffmanRfc
  import opened HuffmanRead
  import opened HuffmanRoundTrip
  import opened DeflateSpec
  import opened BlockSpec
  import opened Encoder
  import opened DeflateRoundTrip
  import opened HeaderRuns

  // ----- The standard's header

  /** One sequence of exactly HLIT + 257 + HDIST + 1 lengths, cut in two. */
  function StandardHeader(bits: seq<bool>): Option<(seq<nat>, seq<nat>, seq<bool>)> {
    match ReadCounts(bits)
    case None => None
    case Some((nlit, ndist, ncodelen, r)) =>
      match ReadCodeLengths(r, 0, ncodelen, Repeat<nat>(0, 19))
      case None => None
      case Some((cl, r')) =>
        TableOfUsable(cl);
        match OneRun(TableOf(cl), r', nlit, ndist)
        case None => None
        case Some((lens, rest)) => if |lens| == nlit + ndist then Some((lens[..nlit], lens[nlit..], rest)) else None
  }

  /** The first run ends at the boundary, and what follows it does not repeat a length other than zero. */
  predicate RunsMeet(bits: seq<bool>) {
    match ReadCounts(bits)
    case None => false
    case Some((nlit, ndist, ncodelen, r)) =>
      match ReadCodeLengths(r, 0, ncodelen, Repeat<nat>(0, 19))
      case None => false
      case Some((cl, r')) =>
        TableOfUsable(cl);
        match RunLengths(TableOf(cl), r', nlit, [], 0)
        case None => false
        case Some((lit, r'')) => |lit| == nlit && (!Repeats(TableOf(cl), r'') || lit[nlit - 1] == 0)
  }

  /** On every header that the standard allows, the program finds the same two code length tables
      and the same end if and only if the runs meet at the boundary. */
  lemma HeaderAgreesIff(bits: seq<bool>)
    requires StandardHeader(bits).Some?
    ensures RunHeader(bits) == StandardHeader(bits) <==> RunsMeet(bits)
  {
    hide ReadCounts, ReadCodeLengths, TableOf, OneRun, TwoRuns, RunLengths, Repeats;
    var (nlit, ndist, ncodelen, r) := ReadCounts(bits).value;
    var (cl, r') := ReadCodeLengths(r, 0, ncodelen, Repeat<nat>(0, 19)).value;
    TableOfUsable(cl);
    TwoRunsAgreeIff(TableOf(cl), r', nlit, ndist);
  }

  // ----- Headers written as the standard has them

  ghost predicate StandardOk(cl: seq<nat>, ncodelen: nat, nlit: nat, ndist: nat, ops: seq<Op>) {
    && |cl| == 19 && AtMost(cl, 7) && Kraft(cl, 7) && 4 <= ncodelen <= 19
    && (forall j :: ncodelen <= j < 19 ==> cl[CODELEN_ORDER[j]] == 0)
    && OpsFit(ops, cl) && 257 <= nlit <= 288 && 1 <= ndist <= 32
    && |ExpandOps(ops, 0)| == nlit + ndist
  }

  function StandardBits(cl: seq<nat>, ncodelen: nat, nlit: nat, ndist: nat, ops: seq<Op>): seq<bool>
    requires StandardOk(cl, ncodelen, nlit, ndist, ops)
  {
    ToBits(nlit - 257, 5) + (ToBits(ndist - 1, 5) + (ToBits(ncodelen - 4, 4)
      + (EncodeCodeLengths(cl, 0, ncodelen) + EncodeOps(ops, cl))))
  }

  /** Up to the runs of lengths, such a header is read back as it was written. */
  lemma FrontRoundTrip(cl: seq<nat>, ncodelen: nat, nlit: nat, ndist: nat, ops: seq<Op>, rest: seq<bool>)
    requires StandardOk(cl, ncodelen, nlit, ndist, ops)
    ensures var r := EncodeCodeLengths(cl, 0, ncodelen) + (EncodeOps(ops, cl) + rest);
            && ReadCounts(StandardBits(cl, ncodelen, nlit, ndist, ops) + rest) == Some((nlit, ndist, ncodelen, r))
            && ReadCodeLengths(r, 0, ncodelen, Repeat<nat>(0, 19)) == Some((cl, EncodeOps(ops, cl) + rest))
  {
    hide Kraft, OpsFit, ExpandOps, EncodeOps, EncodeCodeLengths, ReadCounts, ReadCodeLengths, ToBits;
    var lens, runs := EncodeCodeLengths(cl, 0, ncodelen), EncodeOps(ops, cl);
    StartPart(cl);
    CodeLengthsRoundTrip(cl, 0, ncodelen, Repeat<nat>(0, 19), runs + rest);
    CountsRoundTrip(nlit, ndist, ncodelen, lens + (runs + rest));
    Regroup4(ToBits(nlit - 257, 5), ToBits(ndist - 1, 5), ToBits(ncodelen - 4, 4), lens + runs, rest);
    Regroup(lens, runs, rest);
  }

  /** The standard's reading undoes the writing, runs across the boundary included. */
  lemma StandardRoundTrip(cl: seq<nat>, ncodelen: nat, nlit: nat, ndist: nat, ops: seq<Op>, rest: seq<bool>)
    requires StandardOk(cl, ncodelen, nlit, ndist, ops)
    ensures var lens := ExpandOps(ops, 0);
            StandardHeader(StandardBits(cl, ncodelen, nlit, ndist, ops) + rest) == Some((lens[..nlit], lens[nlit..], rest))
  {
    hide ReadCounts, ReadCodeLengths, TableOf, RunLengths, StandardBits, Kraft, OpsFit, ExpandOps;
    FrontRoundTrip(cl, ncodelen, nlit, ndist, ops, rest);
    OpsRoundTrip(ops, cl, nlit + ndist, [], 0, rest);
    assert [] + ExpandOps(ops, 0) == ExpandOps(ops, 0);
  }

  lemma {:induction false} EncodeConcat(a: seq<Op>, b: seq<Op>, cl: seq<nat>)
    requires OpsFit(a + b, cl)
    ensures OpsFit(a, cl) && OpsFit(b, cl)
    ensures EncodeOps(a + b, cl) == EncodeOps(a, cl) + EncodeOps(b, cl)
    decreases |a|
  {
    FitsInParts(a, b, cl);
    hide OpFits, SymbolBits, OpSymbol, OpExtra;
    if a == [] {
      assert a + b == b;
    } else {
      assert (a + b)[1..] == a[1..] + b;
      EncodeConcat(a[1..], b, cl);
      Regroup(SymbolBits(cl, OpSymbol(a[0])) + OpExtra(a[0]), EncodeOps(a[1..], cl), EncodeOps(b, cl));
    }
  }

  lemma FitsInParts(a: seq<Op>, b: seq<Op>, cl: seq<nat>)
    requires OpsFit(a + b, cl)
    ensures OpsFit(a, cl) && OpsFit(b, cl) && (a != [] ==> OpsFit(a[1..] + b, cl))
  {
    hide OpFits;
    forall i | 0 <= i < |a| ensures OpFits(a[i], cl) { assert (a + b)[i] == a[i]; }
    forall i | 0 <= i < |b| ensures OpFits(b[i], cl) { assert (a + b)[|a| + i] == b[i]; }
    if a != [] {
      forall i | 0 <= i < |a[1..] + b| ensures OpFits((a[1..] + b)[i], cl) { assert (a + b)[i + 1] == (a[1..] + b)[i]; }
    }
  }

  /** What the program's first run makes of the front part of the runs, if that part reaches nlit
      lengths with its last run. */
  lemma FirstRunReads(cl: seq<nat>, ncodelen: nat, nlit: nat, ndist: nat, front: seq<Op>, back: seq<Op>, rest: seq<bool>)
    requires StandardOk(cl, ncodelen, nlit, ndist, front + back) && front != []
    requires |ExpandOps(front[..|front| - 1], 0)| < nlit <= |ExpandOps(front, 0)|
    ensures OpsFit(back, cl)
    ensures var bits := StandardBits(cl, ncodelen, nlit, ndist, front + back) + rest;
            var lit := ExpandOps(front, 0);
            RunsMeet(bits) <==>
              |lit| == nlit && (!Repeats(TableOf(cl), EncodeOps(back, cl) + rest) || lit[nlit - 1] == 0)
  {
    OkParts(cl, ncodelen, nlit, ndist, front + back);
    hide ReadCounts, ReadCodeLengths, TableOf, RunLengths, StandardBits, StandardOk, RunsMeet, Kraft, OpsFit, ExpandOps,
         EncodeOps, EncodeCodeLengths, Repeats;
    FrontRoundTrip(cl, ncodelen, nlit, ndist, front + back, rest);
    EncodeConcat(front, back, cl);
    Regroup(EncodeOps(front, cl), EncodeOps(back, cl), rest);
    OpsUpTo(front, cl, nlit, [], 0, EncodeOps(back, cl) + rest);
    assert [] + ExpandOps(front, 0) == ExpandOps(front, 0);
    MeetWhen(StandardBits(cl, ncodelen, nlit, ndist, front + back) + rest, nlit, ndist, ncodelen,
             EncodeCodeLengths(cl, 0, ncodelen) + (EncodeOps(front + back, cl) + rest), cl,
             EncodeOps(front + back, cl) + rest, ExpandOps(front, 0), EncodeOps(back, cl) + rest);
  }

  lemma OkParts(cl: seq<nat>, ncodelen: nat, nlit: nat, ndist: nat, ops: seq<Op>)
    requires StandardOk(cl, ncodelen, nlit, ndist, ops)
    ensures |cl| == 19 && ncodelen <= 19 && Kraft(cl, 7) && OpsFit(ops, cl) && nlit >= 257
  {
  }

  lemma MeetWhen(bits: seq<bool>, nlit: nat, ndist: nat, ncodelen: nat, r: seq<bool>, cl: seq<nat>, r': seq<bool>,
                 lit: seq<nat>, r'': seq<bool>)
    requires ReadCounts(bits) == Some((nlit, ndist, ncodelen, r)) && ncodelen <= 19
    requires ReadCodeLengths(r, 0, ncodelen, Repeat<nat>(0, 19)) == Some((cl, r')) && Usable(TableOf(cl))
    requires RunLengths(TableOf(cl), r', nlit, [], 0) == Some((lit, r'')) && |lit| >= nlit >= 1
    ensures RunsMeet(bits) <==> |lit| == nlit && (!Repeats(TableOf(cl), r'') || lit[nlit - 1] == 0)
  {
    hide ReadCounts, ReadCodeLengths, TableOf, RunLengths, Repeats, Usable;
  }

  // ----- Headers on which the program disagrees with the standard

  /** Every header with a run that crosses from the literal to the distance lengths. */
  lemma CrossingHeader(cl: seq<nat>, ncodelen: nat, nlit: nat, ndist: nat, front: seq<Op>, back: seq<Op>, rest: seq<bool>)
    requires StandardOk(cl, ncodelen, nlit, ndist, front + back) && front != []
    requires |ExpandOps(front[..|front| - 1], 0)| < nlit < |ExpandOps(front, 0)|
    ensures var bits := StandardBits(cl, ncodelen, nlit, ndist, front + back) + rest;
            StandardHeader(bits).Some? && RunHeader(bits) != StandardHeader(bits)
  {
    hide StandardHeader, RunHeader, RunsMeet, StandardBits, StandardOk, ExpandOps, EncodeOps, Repeats;
    StandardRoundTrip(cl, ncodelen, nlit, ndist, front + back, rest);
    FirstRunReads(cl, ncodelen, nlit, ndist, front, back, rest);
    HeaderAgreesIff(StandardBits(cl, ncodelen, nlit, ndist, front + back) + rest);
  }

  /** Every header whose distance lengths open by repeating a literal length other than zero. */
  lemma OpeningRepeatHeader(cl: seq<nat>, ncodelen: nat, nlit: nat, ndist: nat, front: seq<Op>, extra: nat, back: seq<Op>, rest: seq<bool>)
    requires StandardOk(cl, ncodelen, nlit, ndist, front + ([RepeatPrevious(extra)] + back)) && front != []
    requires |ExpandOps(front, 0)| == nlit && ExpandOps(front, 0)[nlit - 1] != 0
    ensures var bits := StandardBits(cl, ncodelen, nlit, ndist, front + ([RepeatPrevious(extra)] + back)) + rest;
            StandardHeader(bits).Some? && RunHeader(bits) != StandardHeader(bits)
  {
    var ops := [RepeatPrevious(extra)] + back;
    CodeLengthKraft(cl, ncodelen, nlit, ndist, front + ops);
    hide StandardHeader, RunHeader, RunsMeet, StandardBits, StandardOk, ExpandOps, EncodeOps, Repeats, Kraft;
    StandardRoundTrip(cl, ncodelen, nlit, ndist, front + ops, rest);
    LastRunCounts(front, 0);
    FirstRunReads(cl, ncodelen, nlit, ndist, front, ops, rest);
    OpensWithRepeat(cl, extra, back, rest);
    HeaderAgreesIff(StandardBits(cl, ncodelen, nlit, ndist, front + ops) + rest);
  }

  lemma CodeLengthKraft(cl: seq<nat>, ncodelen: nat, nlit: nat, ndist: nat, ops: seq<Op>)
    requires StandardOk(cl, ncodelen, nlit, ndist, ops)
    ensures Kraft(cl, 7)
  {
  }

  lemma OpensWithRepeat(cl: seq<nat>, extra: nat, back: seq<Op>, rest: seq<bool>)
    requires Kraft(cl, 7) && OpsFit([RepeatPrevious(extra)] + back, cl)
    ensures Repeats(TableOf(cl), EncodeOps([RepeatPrevious(extra)] + back, cl) + rest)
  {
    var ops := [RepeatPrevious(extra)] + back;
    assert OpFits(ops[0], cl);
    assert ops[1..] == back;
    hide TableOf, SymbolBits, Kraft, DecodeSymbol, ToBits, OpFits;
    var tail := ToBits(extra, 2) + (EncodeOps(back, cl) + rest);
    SymbolRoundTrip(cl, 7, 16, tail);
    Regroup(SymbolBits(cl, 16) + ToBits(extra, 2), EncodeOps(back, cl), rest);
    Regroup(SymbolBits(cl, 16), ToBits(extra, 2), EncodeOps(back, cl) + rest);
  }

  // ----- Such headers exist

  /** Code length codes for the symbols 1, 16 and 18: two, two and one bit. */
  const SOME_CODE: seq<nat> := Repeat<nat>(0, 1) + Repeat<nat>(2, 1) + Repeat<nat>(0, 14) + Repeat<nat>(2, 1) + Repeat<nat>(0, 1) + Repeat<nat>(1, 1)

  lemma {:induction false} ZerosAddNothing(lens: seq<nat>, n: nat, top: nat)
    requires forall i :: 0 <= i < |lens| ==> lens[i] <= top
    ensures forall i :: 0 <= i < |lens + Repeat<nat>(0, n)| ==> (lens + Repeat<nat>(0, n))[i] <= top
    ensures LensKraftSum(lens + Repeat<nat>(0, n), top) == LensKraftSum(lens, top)
  {
    if n == 0 {
      assert lens + Repeat<nat>(0, 0) == lens;
    } else {
      ZerosAddNothing(lens, n - 1, top);
      var longer := lens + Repeat<nat>(0, n);
      assert longer[..|longer| - 1] == lens + Repeat<nat>(0, n - 1);
    }
  }

  lemma SomeCodeIsKraft()
    ensures |SOME_CODE| == 19 && AtMost(SOME_CODE, 7) && Kraft(SOME_CODE, 7)
    ensures HasCode(SOME_CODE, 1) && HasCode(SOME_CODE, 16) && HasCode(SOME_CODE, 18)
  {
    hide Pow2, LensKraftSum;
    SmallPowers();
    var a := [] + Repeat<nat>(0, 1);
    var b := a + Repeat<nat>(2, 1);
    var c := b + Repeat<nat>(0, 14);
    var d := c + Repeat<nat>(2, 1);
    var e := d + Repeat<nat>(0, 1);
    NoLengths();
    ZerosAddNothing([], 1, 7);
    OneLength(a, 2);
    ZerosAddNothing(b, 14, 7);
    OneLength(c, 2);
    ZerosAddNothing(d, 1, 7);
    OneLength(e, 1);
    assert SOME_CODE == e + Repeat<nat>(1, 1);
  }

  lemma NoLengths()
    ensures LensKraftSum([], 7) == 0
  {
  }

  lemma OneLength(lens: seq<nat>, v: nat)
    requires 1 <= v <= 7 && forall i :: 0 <= i < |lens| ==> lens[i] <= 7
    ensures forall i :: 0 <= i < |lens + Repeat<nat>(v, 1)| ==> (lens + Repeat<nat>(v, 1))[i] <= 7
    ensures LensKraftSum(lens + Repeat<nat>(v, 1), 7) == LensKraftSum(lens, 7) + Pow2(7 - v)
  {
    hide Pow2;
    KraftOfRepeat(lens, v, 1, 7);
    assert Times(1, Pow2(7 - v)) == Times(0, Pow2(7 - v)) + Pow2(7 - v);
  }

  /** With any code length code that has a code for 18, two long runs of zeros cross the boundary. */
  lemma CrossingExists(cl: seq<nat>, rest: seq<bool>)
    requires |cl| == 19 && AtMost(cl, 7) && Kraft(cl, 7) && HasCode(cl, 18)
    ensures StandardOk(cl, 19, 257, 1, [ZerosLong(127), ZerosLong(109)] + [])
    ensures var bits := StandardBits(cl, 19, 257, 1, [ZerosLong(127), ZerosLong(109)] + []) + rest;
            StandardHeader(bits).Some? && RunHeader(bits) != StandardHeader(bits)
  {
    hide Kraft, HasCode, StandardHeader, RunHeader, StandardBits;
    var ops := [ZerosLong(127), ZerosLong(109)];
    assert ops[..1] == [ZerosLong(127)] && ops[1..] == [ZerosLong(109)] && ops + [] == ops;
    ExpandOne(ZerosLong(127), 0);
    ExpandOne(ZerosLong(109), 0);
    CrossingHeader(cl, 19, 257, 1, ops, [], rest);
  }

  lemma ExpandOne(op: Op, prev: nat)
    ensures ExpandOps([op], prev) == OpRun(op, prev)
  {
    assert [op][1..] == [];
    assert OpRun(op, prev) + [] == OpRun(op, prev);
  }

  /** With codes for 1, 16 and 18: zeros up to a last literal length of 1, which the distance lengths repeat. */
  lemma OpeningRepeatExists(cl: seq<nat>, rest: seq<bool>)
    requires |cl| == 19 && AtMost(cl, 7) && Kraft(cl, 7) && HasCode(cl, 1) && HasCode(cl, 16) && HasCode(cl, 18)
    ensures var front := [ZerosLong(127), ZerosLong(107), Length(1)];
            && StandardOk(cl, 19, 257, 3, front + ([RepeatPrevious(0)] + []))
            && var bits := StandardBits(cl, 19, 257, 3, front + ([RepeatPrevious(0)] + [])) + rest;
               StandardHeader(bits).Some? && RunHeader(bits) != StandardHeader(bits)
  {
    var front := [ZerosLong(127), ZerosLong(107), Length(1)];
    OpeningOps(cl);
    hide Kraft, HasCode, StandardHeader, RunHeader, StandardBits, Repeat, OpsFit, ExpandOps;
    OpeningRepeatHeader(cl, 19, 257, 3, front, 0, [], rest);
  }

  lemma ExpandCons(op: Op, ops: seq<Op>, prev: nat)
    ensures ExpandOps([op] + ops, prev) == OpRun(op, prev) + ExpandOps(ops, OpRun(op, prev)[|OpRun(op, prev)| - 1])
  {
    hide OpRun;
    assert ([op] + ops)[1..] == ops;
  }

  lemma OpeningOps(cl: seq<nat>)
    requires HasCode(cl, 1) && HasCode(cl, 16) && HasCode(cl, 18)
    ensures var front := [ZerosLong(127), ZerosLong(107), Length(1)];
            var ops := front + ([RepeatPrevious(0)] + []);
            && OpsFit(ops, cl) && |ExpandOps(ops, 0)| == 260
            && |ExpandOps(front, 0)| == 257 && ExpandOps(front, 0)[256] == 1
  {
    hide ExpandOps, HasCode;
    var a, b, c, d := ZerosLong(127), ZerosLong(107), Length(1), RepeatPrevious(0);
    ExpandOne(c, 0);
    ExpandOne(d, 1);
    ExpandCons(c, [d], 0);
    ExpandCons(b, [c], 0);
    ExpandCons(b, [c] + [d], 0);
    ExpandCons(a, [b] + [c], 0);
    ExpandCons(a, [b] + ([c] + [d]), 0);
    assert [a] + ([b] + [c]) == [a, b, c];
    assert [a] + ([b] + ([c] + [d])) == [a, b, c] + ([d] + []);
  }

  /** The program and the standard disagree on headers of both kinds. */
  lemma ProgramDisagrees() returns (crossing: seq<bool>, opening: seq<bool>)
    ensures StandardHeader(crossing).Some? && RunHeader(crossing) != StandardHeader(crossing)
    ensures StandardHeader(opening).Some? && RunHeader(opening) != StandardHeader(opening)
  {
    SomeCodeIsKraft();
    hide Kraft, HasCode, StandardHeader, RunHeader, SOME_CODE, AtMost, StandardBits, StandardOk;
    CrossingExists(SOME_CODE, []);
    crossing := StandardBits(SOME_CODE, 19, 257, 1, [ZerosLong(127), ZerosLong(109)] + []) + [];
    OpeningRepeatExists(SOME_CODE, []);
    opening := StandardBits(SOME_CODE, 19, 257, 3, [ZerosLong(127), ZerosLong(107), Length(1)] + ([RepeatPrevious(0)] + [])) + [];
  }
}
