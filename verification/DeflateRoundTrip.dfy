/** Decoding undoes encoding: tokens, headers, blocks and streams of blocks, for every choice
    of code lengths that satisfies the Kraft inequality. */
module DeflateRoundTrip {
  import opened Bits
  import opened BitStreams
  import opened Huffman
  import opened HuffmanRfc
  import opened HuffmanRead
  import opened HuffmanRoundTrip
  import opened Window
  import opened DeflateSpec
  import opened BlockSpec
  import opened Encoder

  lemma Regroup3<T>(a: seq<T>, b: seq<T>, c: seq<T>, rest: seq<T>)
    ensures (a + (b + c)) + rest == a + (b + (c + rest))
  {
    Regroup(a, b + c, rest);
    Regroup(b, c, rest);
  }

  lemma Regroup4<T>(a: seq<T>, b: seq<T>, c: seq<T>, d: seq<T>, rest: seq<T>)
    ensures (a + (b + (c + d))) + rest == a + (b + (c + (d + rest)))
  {
    Regroup(a, b + (c + d), rest);
    Regroup3(b, c, d, rest);
  }

  // ----- Tokens

  lemma LengthRoundTrip(len: nat, rest: seq<bool>)
    requires 3 <= len <= 258
    ensures |LEN_BASE| == |LEN_EXTRA| == 29
    ensures var i := LengthIndex(len);
            LengthOf(257 + i, ToBits(len - LEN_BASE[i], LEN_EXTRA[i]) + rest) == Some((len, rest))
  {
    hide LengthIndex, ReadBits, Pow2, ToBits, LEN_BASE, LEN_EXTRA;
    LengthExtraFits(len);
    var i := LengthIndex(len);
    FieldRoundTrip(len - LEN_BASE[i], LEN_EXTRA[i], rest);
  }

  lemma DistanceRoundTrip(d: nat, lens: seq<nat>, top: nat, rest: seq<bool>)
    requires 1 <= d <= 32768 && Kraft(lens, top) && HasCode(lens, DistanceIndex(d))
    ensures |DIST_BASE| == |DIST_EXTRA| == 30
    ensures var j := DistanceIndex(d);
            DistanceOf(TableOf(lens), SymbolBits(lens, j) + (ToBits(d - DIST_BASE[j], DIST_EXTRA[j]) + rest)) == Some((d, rest))
  {
    hide DistanceIndex, ReadBits, Pow2, ToBits, TableOf, SymbolBits, DecodeSymbol, Kraft, DIST_BASE, DIST_EXTRA;
    DistanceExtraFits(d);
    var j := DistanceIndex(d);
    var extra := ToBits(d - DIST_BASE[j], DIST_EXTRA[j]);
    SymbolRoundTrip(lens, top, j, extra + rest);
    FieldRoundTrip(d - DIST_BASE[j], DIST_EXTRA[j], rest);
  }

  lemma MatchRoundTrip(len: nat, d: nat, out: seq<byte>, dist: seq<nat>, top: nat, rest: seq<bool>)
    requires 3 <= len <= 258 && 1 <= d <= 32768 && d <= |out|
    requires Kraft(dist, top) && HasCode(dist, DistanceIndex(d))
    ensures |LEN_BASE| == |LEN_EXTRA| == 29 && |DIST_BASE| == |DIST_EXTRA| == 30
    ensures var i, j := LengthIndex(len), DistanceIndex(d);
            var dbits := SymbolBits(dist, j) + (ToBits(d - DIST_BASE[j], DIST_EXTRA[j]) + rest);
            RunMatch(257 + i, ToBits(len - LEN_BASE[i], LEN_EXTRA[i]) + dbits, out, TableOf(dist)) == More(rest, Copy(out, d, len))
  {
    hide TableOf, SymbolBits, Kraft, LengthIndex, DistanceIndex, LengthOf, DistanceOf, Copy, LEN_BASE, DIST_BASE, ToBits;
    TableSizes();
    var i, j := LengthIndex(len), DistanceIndex(d);
    var dbits := SymbolBits(dist, j) + (ToBits(d - DIST_BASE[j], DIST_EXTRA[j]) + rest);
    LengthRoundTrip(len, dbits);
    DistanceRoundTrip(d, dist, top, rest);
    assert Effective(d) == d;
  }

  lemma TokenRoundTrip(tok: Token, out: seq<byte>, lit: seq<nat>, dist: seq<nat>, top: nat, rest: seq<bool>)
    requires Kraft(lit, top) && Kraft(dist, top) && TokenFits(tok, |out|, lit, dist)
    ensures RunItem(EncodeToken(tok, |out|, lit, dist) + rest, out, TableOf(lit), TableOf(dist))
         == More(rest, Apply(out, tok))
  {
    hide TableOf, SymbolBits, DecodeSymbol, Kraft, LengthIndex, DistanceIndex, RunMatch, Copy, ToBits,
         LEN_BASE, LEN_EXTRA, DIST_BASE, DIST_EXTRA;
    TableSizes();
    match tok
    case Literal(b) => SymbolRoundTrip(lit, top, b, rest);
    case Match(len, d) =>
      var i, j := LengthIndex(len), DistanceIndex(d);
      var lextra, dcode, dextra := ToBits(len - LEN_BASE[i], LEN_EXTRA[i]), SymbolBits(dist, j), ToBits(d - DIST_BASE[j], DIST_EXTRA[j]);
      Regroup4(SymbolBits(lit, 257 + i), lextra, dcode, dextra, rest);
      SymbolRoundTrip(lit, top, 257 + i, lextra + (dcode + (dextra + rest)));
      MatchRoundTrip(len, d, out, dist, top, rest);
  }

  /** The items of a block give exactly the LZ77 expansion of its tokens, and the reader is left
      just after the end-of-block code. */
  lemma {:induction false} TokensRoundTrip(toks: seq<Token>, out: seq<byte>, lit: seq<nat>, dist: seq<nat>, top: nat, rest: seq<bool>)
    requires Kraft(lit, top) && Kraft(dist, top) && HasCode(lit, 256)
    requires TokensFit(toks, out, lit, dist)
    ensures RunCompressed(EncodeTokens(toks, out, lit, dist) + rest, out, lit, dist) == Done(rest, Expand(out, toks))
    decreases |toks|
  {
    TableOfUsable(lit);
    TableOfUsable(dist);
    hide TableOf, SymbolBits, Kraft, Usable, EncodeToken, TokenFits, Apply;
    if toks == [] {
      SymbolRoundTrip(lit, top, 256, rest);
      hide DecodeSymbol;
    } else {
      var o := Apply(out, toks[0]);
      var tail := EncodeTokens(toks[1..], o, lit, dist) + rest;
      TokenRoundTrip(toks[0], out, lit, dist, top, tail);
      TokensRoundTrip(toks[1..], o, lit, dist, top, rest);
      Regroup(EncodeToken(toks[0], |out|, lit, dist), EncodeTokens(toks[1..], o, lit, dist), rest);
      hide RunItem;
      ItemSuffix(EncodeTokens(toks, out, lit, dist) + rest, out, TableOf(lit), TableOf(dist));
    }
  }

  // ----- Headers

  lemma OpRoundTrip(op: Op, cl: seq<nat>, prev: nat, rest: seq<bool>)
    requires Kraft(cl, 7) && OpFits(op, cl)
    ensures LengthStep(TableOf(cl), SymbolBits(cl, OpSymbol(op)) + OpExtra(op) + rest, prev) == Some((OpRun(op, prev), rest))
  {
    hide TableOf, SymbolBits, DecodeSymbol, Kraft, RepeatRun, Repeat;
    SymbolRoundTrip(cl, 7, OpSymbol(op), OpExtra(op) + rest);
    Regroup(SymbolBits(cl, OpSymbol(op)), OpExtra(op), rest);
    match op
    case Length(n) => assert [] + rest == rest;
    case RepeatPrevious(extra) => RunRoundTrip(extra, 2, 4, 3, prev, rest) by { assert Pow2(2) == 4; }
    case ZerosShort(extra) => RunRoundTrip(extra, 3, 8, 3, 0, rest) by { assert Pow2(3) == 8; }
    case ZerosLong(extra) => RunRoundTrip(extra, 7, 128, 11, 0, rest) by { assert Pow2(7) == 128; }
  }

  lemma RunRoundTrip(extra: nat, n: nat, bound: nat, base: nat, v: nat, rest: seq<bool>)
    requires bound == Pow2(n) && extra < bound
    ensures RepeatRun(ToBits(extra, n) + rest, n, base, v) == Some((Repeat<nat>(v, base + extra), rest))
  {
    hide ToBits, ReadBits, Repeat;
    FieldRoundTrip(extra, n, rest);
  }

  /** The first runs of a sequence, up to the one that reaches n lengths, are read back. */
  lemma {:induction false} OpsUpTo(ops: seq<Op>, cl: seq<nat>, n: nat, lens: seq<nat>, prev: nat, rest: seq<bool>)
    requires Kraft(cl, 7) && OpsFit(ops, cl)
    requires n <= |lens| + |ExpandOps(ops, prev)|
    requires ops != [] ==> |lens| + |ExpandOps(ops[..|ops| - 1], prev)| < n
    ensures Usable(TableOf(cl))
    ensures RunLengths(TableOf(cl), EncodeOps(ops, cl) + rest, n, lens, prev) == Some((lens + ExpandOps(ops, prev), rest))
    decreases |ops|
  {
    TableOfUsable(cl);
    hide TableOf, SymbolBits, Kraft, Usable, OpSymbol, OpExtra, OpRun, LengthStep;
    if ops == [] {
      assert [] + rest == rest && lens + [] == lens;
    } else {
      var run := OpRun(ops[0], prev);
      var code := SymbolBits(cl, OpSymbol(ops[0])) + OpExtra(ops[0]);
      var tail := EncodeOps(ops[1..], cl) + rest;
      OpRoundTrip(ops[0], cl, prev, tail);
      AllButLast(ops, prev);
      OpsUpTo(ops[1..], cl, n, lens + run, run[|run| - 1], rest);
      Regroup(code, EncodeOps(ops[1..], cl), rest);
      Regroup(lens, run, ExpandOps(ops[1..], run[|run| - 1]));
      StepSuffix(TableOf(cl), EncodeOps(ops, cl) + rest, prev);
    }
  }

  lemma AllButLast(ops: seq<Op>, prev: nat)
    requires ops != []
    ensures var run := OpRun(ops[0], prev);
            if |ops| == 1 then ExpandOps(ops[..|ops| - 1], prev) == []
            else ExpandOps(ops[..|ops| - 1], prev) == run + ExpandOps(ops[1..][..|ops[1..]| - 1], run[|run| - 1])
  {
    hide OpRun;
    if |ops| > 1 {
      assert ops[..|ops| - 1][1..] == ops[1..][..|ops[1..]| - 1];
    }
  }

  lemma {:induction false} LastRunCounts(ops: seq<Op>, prev: nat)
    requires ops != []
    ensures |ExpandOps(ops[..|ops| - 1], prev)| < |ExpandOps(ops, prev)|
    decreases |ops|
  {
    hide OpRun;
    AllButLast(ops, prev);
    if |ops| > 1 {
      var run := OpRun(ops[0], prev);
      LastRunCounts(ops[1..], run[|run| - 1]);
    }
  }

  lemma OpsRoundTrip(ops: seq<Op>, cl: seq<nat>, n: nat, lens: seq<nat>, prev: nat, rest: seq<bool>)
    requires Kraft(cl, 7) && OpsFit(ops, cl)
    requires |lens| + |ExpandOps(ops, prev)| == n
    ensures Usable(TableOf(cl))
    ensures RunLengths(TableOf(cl), EncodeOps(ops, cl) + rest, n, lens, prev) == Some((lens + ExpandOps(ops, prev), rest))
  {
    hide TableOf, ExpandOps, EncodeOps, Kraft, RunLengths, OpsFit, Usable;
    if ops != [] { LastRunCounts(ops, prev); }
    OpsUpTo(ops, cl, n, lens, prev, rest);
  }

  const CODELEN_PLACE: seq<nat> := [3, 17, 15, 13, 11, 9, 7, 5, 4, 6, 8, 10, 12, 14, 16, 18, 0, 1, 2]

  /** The order of the code length code lengths is a permutation of 0..18. */
  lemma OrderIsPermutation(v: nat)
    requires v < 19
    ensures |CODELEN_PLACE| == |CODELEN_ORDER| == 19
    ensures CODELEN_PLACE[v] < 19 && CODELEN_ORDER[CODELEN_PLACE[v]] == v
    ensures CODELEN_ORDER[v] < 19 && CODELEN_PLACE[CODELEN_ORDER[v]] == v
  {
  }

  /** lens already holds the lengths at the first i places of the order, and zero elsewhere. */
  ghost predicate PartOf(lens: seq<nat>, cl: seq<nat>, i: nat) {
    |lens| == |cl| == |CODELEN_PLACE| == 19
    && forall v :: 0 <= v < 19 ==> lens[v] == if CODELEN_PLACE[v] < i then cl[v] else 0
  }

  lemma {:induction false} CodeLengthsRoundTrip(cl: seq<nat>, i: nat, n: nat, lens: seq<nat>, rest: seq<bool>)
    requires |cl| == 19 && AtMost(cl, 7) && i <= n <= 19 && PartOf(lens, cl, i)
    requires forall j :: n <= j < 19 ==> cl[CODELEN_ORDER[j]] == 0
    ensures ReadCodeLengths(EncodeCodeLengths(cl, i, n) + rest, i, n, lens) == Some((cl, rest))
    decreases n - i
  {
    if i == n {
      assert [] + rest == rest;
      WholePart(lens, cl, n);
    } else {
      var v := CODELEN_ORDER[i];
      var tail := EncodeCodeLengths(cl, i + 1, n) + rest;
      FieldRoundTrip(cl[v], 3, tail) by { assert Pow2(3) == 8; }
      NextPart(lens, cl, i);
      hide PartOf, ReadBits;
      CodeLengthsRoundTrip(cl, i + 1, n, lens[v := cl[v]], rest);
      Regroup(ToBits(cl[v], 3), EncodeCodeLengths(cl, i + 1, n), rest);
    }
  }

  lemma WholePart(lens: seq<nat>, cl: seq<nat>, n: nat)
    requires |cl| == 19 && n <= 19 && PartOf(lens, cl, n)
    requires forall j :: n <= j < 19 ==> cl[CODELEN_ORDER[j]] == 0
    ensures lens == cl
  {
    forall v | 0 <= v < 19 ensures lens[v] == cl[v] {
      OrderIsPermutation(v);
      hide CODELEN_ORDER, CODELEN_PLACE;
      assert CODELEN_PLACE[v] >= n ==> cl[CODELEN_ORDER[CODELEN_PLACE[v]]] == 0;
    }
  }

  lemma NextPart(lens: seq<nat>, cl: seq<nat>, i: nat)
    requires |cl| == 19 && i < 19 && PartOf(lens, cl, i)
    ensures var v := CODELEN_ORDER[i];
            PartOf(lens[v := cl[v]], cl, i + 1)
  {
    OrderIsPermutation(i);
    forall w | 0 <= w < 19 ensures CODELEN_PLACE[w] == i ==> w == CODELEN_ORDER[i] {
      OrderIsPermutation(w);
    }
    hide CODELEN_ORDER, CODELEN_PLACE;
  }

  /** A header is read back as the code lengths it was made for. */
  lemma HeaderRoundTrip(h: Header, rest: seq<bool>)
    requires HeaderOk(h)
    ensures RunHeader(EncodeHeader(h) + rest) == Some((h.Lit(), h.Dist(), rest))
  {
    hide EncodeHeaderBody, RunHeaderBody, ExpandOps, HeaderOk, ToBits, ReadCounts;
    HeaderBodyRoundTrip(h, rest);
    HeaderCounts(h);
    var nlit, ndist, body := |h.Lit()|, |h.Dist()|, EncodeHeaderBody(h);
    Regroup4(ToBits(nlit - 257, 5), ToBits(ndist - 1, 5), ToBits(h.ncodelen - 4, 4), body, rest);
    CountsRoundTrip(nlit, ndist, h.ncodelen, body + rest);
  }

  lemma HeaderCounts(h: Header)
    requires HeaderOk(h)
    ensures 257 <= |h.Lit()| <= 288 && 1 <= |h.Dist()| <= 32 && 4 <= h.ncodelen <= 19
  {
  }

  lemma CountsRoundTrip(nlit: nat, ndist: nat, ncodelen: nat, body: seq<bool>)
    requires 257 <= nlit <= 288 && 1 <= ndist <= 32 && 4 <= ncodelen <= 19
    ensures ReadCounts(ToBits(nlit - 257, 5) + (ToBits(ndist - 1, 5) + (ToBits(ncodelen - 4, 4) + body)))
         == Some((nlit, ndist, ncodelen, body))
  {
    SmallPowers();
    hide Pow2, ReadBits, ToBits;
    var t2 := ToBits(ncodelen - 4, 4) + body;
    var t1 := ToBits(ndist - 1, 5) + t2;
    FieldRoundTrip(nlit - 257, 5, t1);
    FieldRoundTrip(ndist - 1, 5, t2);
    FieldRoundTrip(ncodelen - 4, 4, body);
  }

  lemma HeaderBodyRoundTrip(h: Header, rest: seq<bool>)
    requires HeaderOk(h)
    ensures RunHeaderBody(EncodeHeaderBody(h) + rest, |h.Lit()|, |h.Dist()|, h.ncodelen) == Some((h.Lit(), h.Dist(), rest))
  {
    hide Kraft, OpsFit, AtMost;
    var ops1, ops2 := EncodeOps(h.litOps, h.cl), EncodeOps(h.distOps, h.cl);
    StartPart(h.cl);
    CodeLengthsRoundTrip(h.cl, 0, h.ncodelen, Repeat<nat>(0, 19), ops1 + (ops2 + rest));
    OpsRoundTrip(h.litOps, h.cl, |h.Lit()|, [], 0, ops2 + rest);
    OpsRoundTrip(h.distOps, h.cl, |h.Dist()|, [], 0, rest);
    hide EncodeCodeLengths, EncodeOps, ReadCodeLengths, RunLengths, TableOf, ExpandOps, HeaderOk;
    Regroup3(EncodeCodeLengths(h.cl, 0, h.ncodelen), ops1, ops2, rest);
    assert [] + h.Lit() == h.Lit() && [] + h.Dist() == h.Dist();
  }

  lemma StartPart(cl: seq<nat>)
    requires |cl| == 19
    ensures PartOf(Repeat<nat>(0, 19), cl, 0)
  {
    assert |CODELEN_PLACE| == 19;
  }

  // ----- The fixed code satisfies the Kraft inequality

  function Times(n: nat, p: nat): nat { if n == 0 then 0 else Times(n - 1, p) + p }

  lemma {:induction false} TimesIsProduct(n: nat, p: nat)
    ensures Times(n, p) == n * p
  {
    if n != 0 { TimesIsProduct(n - 1, p); }
  }

  lemma {:induction false} KraftOfRepeat(lens: seq<nat>, v: nat, n: nat, top: nat)
    requires 1 <= v <= top && forall i :: 0 <= i < |lens| ==> lens[i] <= top
    ensures forall i :: 0 <= i < |lens + Repeat<nat>(v, n)| ==> (lens + Repeat<nat>(v, n))[i] <= top
    ensures LensKraftSum(lens + Repeat<nat>(v, n), top) == LensKraftSum(lens, top) + Times(n, Pow2(top - v))
  {
    hide Pow2, Repeat;
    if n == 0 {
      assert lens + Repeat<nat>(v, 0) == lens;
    } else {
      KraftOfRepeat(lens, v, n - 1, top);
      RepeatMore(lens, v, n);
      KraftOfOneMore(lens + Repeat<nat>(v, n - 1), v, top);
    }
  }

  lemma RepeatMore(lens: seq<nat>, v: nat, n: nat)
    requires n >= 1
    ensures lens + Repeat<nat>(v, n) == lens + Repeat<nat>(v, n - 1) + [v]
  {
  }

  lemma KraftOfOneMore(lens: seq<nat>, v: nat, top: nat)
    requires 1 <= v <= top && forall i :: 0 <= i < |lens| ==> lens[i] <= top
    ensures forall i :: 0 <= i < |lens + [v]| ==> (lens + [v])[i] <= top
    ensures LensKraftSum(lens + [v], top) == LensKraftSum(lens, top) + Pow2(top - v)
  {
    hide Pow2;
    assert (lens + [v])[..|lens|] == lens;
  }

  lemma EmptyKraftSum()
    ensures LensKraftSum([], 15) == 0
  {
  }

  lemma FixedKraft()
    ensures Kraft(FIXED_LIT, 15) && Kraft(FIXED_DIST, 15)
  {
    hide Pow2, LensKraftSum, Times;
    SmallPowers();
    EmptyKraftSum();
    TimesIsProduct(144, 128);
    TimesIsProduct(112, 64);
    TimesIsProduct(24, 256);
    TimesIsProduct(8, 128);
    TimesIsProduct(32, 1024);
    KraftOfRepeat([], 8, 144, 15);
    KraftOfRepeat([] + Repeat<nat>(8, 144), 9, 112, 15);
    KraftOfRepeat([] + Repeat<nat>(8, 144) + Repeat<nat>(9, 112), 7, 24, 15);
    KraftOfRepeat([] + Repeat<nat>(8, 144) + Repeat<nat>(9, 112) + Repeat<nat>(7, 24), 8, 8, 15);
    KraftOfRepeat([], 5, 32, 15);
    assert FIXED_LIT == [] + Repeat<nat>(8, 144) + Repeat<nat>(9, 112) + Repeat<nat>(7, 24) + Repeat<nat>(8, 8);
    assert FIXED_DIST == [] + Repeat<nat>(5, 32);
  }

  // ----- Blocks

  lemma {:induction false} StoredRoundTrip(data: seq<byte>, out: seq<byte>, rest: seq<bool>)
    ensures RunStored(BytesToBits(data) + rest, |data|, out) == Done(rest, out + data)
    decreases |data|
  {
    if data == [] {
      assert BytesToBits(data) + rest == rest && out + data == out;
    } else {
      var tail := BytesToBits(data[1..]) + rest;
      FieldRoundTrip(data[0], 8, tail) by { assert Pow2(8) == 256; }
      Regroup(ToBits(data[0], 8), BytesToBits(data[1..]), rest);
      StoredRoundTrip(data[1..], out + [data[0]], rest);
      hide ToBits, ReadBits, LsbVal;
      assert out + [data[0]] + data[1..] == out + data;
    }
  }

  lemma StoredBlockRoundTrip(data: seq<byte>, pad: seq<bool>, nlen: nat, out: seq<byte>, pos: nat, rest: seq<bool>)
    requires |data| < 65536 && |pad| == 7 && nlen < 65536
    requires (pos + |EncodeStored(data, pad, nlen, pos)| + |rest|) % 8 == 0
    ensures RunStoredBlock(EncodeStored(data, pad, nlen, pos) + rest, out) == Done(rest, out + data)
  {
    hide ToBits, ReadBits, BytesToBits, Pow2, RunStored, Padding, AlignToByte;
    var len, second := ToBits(|data|, 16), ToBits(nlen, 16);
    var t2 := second + (BytesToBits(data) + rest);
    Regroup4(Padding(pos, pad), len, second, BytesToBits(data), rest);
    PaddingLength(pos, pad);
    PaddingSkipped(pos, pad, len + t2);
    SmallPowers();
    FieldRoundTrip(|data|, 16, t2);
    FieldRoundTrip(nlen, 16, BytesToBits(data) + rest);
    StoredRoundTrip(data, out, rest);
  }

  lemma PaddingLength(pos: nat, pad: seq<bool>)
    requires |pad| == 7
    ensures (pos + |Padding(pos, pad)|) % 8 == 0
  {
    var r := pos % 8;
    assert pos == 8 * (pos / 8) + r;
    assert |Padding(pos, pad)| == if r == 0 then 0 else 8 - r;
  }

  lemma PaddingSkipped(pos: nat, pad: seq<bool>, bits: seq<bool>)
    requires |pad| == 7 && (pos + |Padding(pos, pad)| + |bits|) % 8 == 0 && |bits| % 8 == 0
    ensures AlignToByte(Padding(pos, pad) + bits) == bits
  {
    PaddingAligns(pos, pad, |bits|);
    hide Padding;
    assert (Padding(pos, pad) + bits)[|Padding(pos, pad)|..] == bits;
  }

  lemma PaddingAligns(pos: nat, pad: seq<bool>, n: nat)
    requires |pad| == 7 && (pos + |Padding(pos, pad)| + n) % 8 == 0 && n % 8 == 0
    ensures (|Padding(pos, pad)| + n) % 8 == |Padding(pos, pad)|
  {
  }

  lemma BodyRoundTrip(b: Block, out: seq<byte>, pos: nat, rest: seq<bool>)
    requires BlockOk(b, out)
    requires (pos + |EncodeBody(b, out, pos)| + |rest|) % 8 == 0
    ensures RunBody(BlockType(b), EncodeBody(b, out, pos) + rest, out) == Done(rest, BlockOutput(b, out))
  {
    hide RunStoredBlock, RunHeader, RunCompressed, EncodeStored, EncodeTokens, EncodeHeader, TokensFit,
         HeaderOk, Kraft, FIXED_LIT, FIXED_DIST, Expand, ExpandOps;
    match b
    case Stored(data, pad, nlen) => StoredBlockRoundTrip(data, pad, nlen, out, pos, rest);
    case Fixed(toks) =>
      FixedKraft();
      FixedHasEnd();
      TokensRoundTrip(toks, out, FIXED_LIT, FIXED_DIST, 15, rest);
    case Dynamic(h, toks) =>
      var items := EncodeTokens(toks, out, h.Lit(), h.Dist());
      Regroup(EncodeHeader(h), items, rest);
      HeaderRoundTrip(h, items + rest);
      TokensRoundTrip(toks, out, h.Lit(), h.Dist(), 15, rest);
  }

  /** Every block is read back, at whatever bit position it starts. */
  lemma BlockRoundTrip(b: Block, out: seq<byte>, pos: nat, final: bool, rest: seq<bool>)
    requires BlockOk(b, out)
    requires (pos + |EncodeBlock(b, out, pos, final)| + |rest|) % 8 == 0
    ensures RunBlock(EncodeBlock(b, out, pos, final) + rest, out) == BlockDone(rest, BlockOutput(b, out), final)
  {
    SmallPowers();
    hide EncodeBody, RunBody, BlockOk, BlockOutput, ReadBits, Pow2, ToBits;
    var body := EncodeBody(b, out, pos + 3);
    Regroup3(ToBits(BitVal(final), 1), ToBits(BlockType(b), 2), body, rest);
    FieldRoundTrip(BitVal(final), 1, ToBits(BlockType(b), 2) + (body + rest));
    FieldRoundTrip(BlockType(b), 2, body + rest);
    assert |EncodeBlock(b, out, pos, final)| == 3 + |body|;
    BodyRoundTrip(b, out, pos + 3, rest);
  }

  /** The main round trip: inflating what any encoder of this form writes gives the expansion of
      its blocks and leaves the reader just after the last block. */
  lemma {:induction false} StreamRoundTrip(blocks: seq<Block>, out: seq<byte>, pos: nat, rest: seq<bool>)
    requires BlocksOk(blocks, out)
    requires (pos + |EncodeBlocks(blocks, out, pos)| + |rest|) % 8 == 0
    ensures RunBlocks(EncodeBlocks(blocks, out, pos) + rest, out) == Done(rest, BlocksOutput(blocks, out))
    decreases |blocks|
  {
    hide EncodeBlock, RunBlock, BlockOk, BlockOutput;
    var final := |blocks| == 1;
    var first, o := EncodeBlock(blocks[0], out, pos, final), BlockOutput(blocks[0], out);
    if final {
      BlockRoundTrip(blocks[0], out, pos, final, rest);
      assert blocks[1..] == [] && BlocksOutput(blocks[1..], o) == o;
    } else {
      var tail := EncodeBlocks(blocks[1..], o, pos + |first|);
      Regroup(first, tail, rest);
      BlockRoundTrip(blocks[0], out, pos, final, tail + rest);
      StreamRoundTrip(blocks[1..], o, pos + |first|, rest);
    }
  }
}
