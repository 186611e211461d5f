/** The other direction of the round trip, for headers, blocks and streams: a stream is decoded by
    standard means if and only if it is one that the encoder writes. */
module StreamConverse {
  import opened Bits
  import opened BitStreams
  import opened Huffman
  import opened HuffmanRfc
  import opened HuffmanRead
  import opened HuffmanRoundTrip
  import opened Window
  import opened DeflateSpec
  import opened BlockSpec
  import opened Encoder
  import opened DeflateRoundTrip
  import opened ItemConverse

  // ----- Runs of code lengths

  lemma RunIs(bits: seq<bool>, n: nat, base: nat, v: nat, run: seq<nat>, rest: seq<bool>) returns (extra: nat)
    requires RepeatRun(bits, n, base, v) == Some((run, rest))
    ensures extra < Pow2(n) && run == Repeat<nat>(v, base + extra) && bits == ToBits(extra, n) + rest
  {
    extra := ReadBits(bits, n).value.0;
    hide ReadBits, Repeat;
    FieldIs(bits, n, extra, rest);
  }

  lemma OpIs(cl: seq<nat>, bits: seq<bool>, prev: nat, run: seq<nat>, rest: seq<bool>) returns (op: Op)
    requires Kraft(cl, 7) && LengthStep(TableOf(cl), bits, prev) == Some((run, rest))
    ensures OpFits(op, cl) && OpSymbol(op) < |cl| && run == OpRun(op, prev)
    ensures bits == SymbolBits(cl, OpSymbol(op)) + OpExtra(op) + rest
  {
    SmallPowers();
    hide TableOf, DecodeSymbol, SymbolBits, Kraft, RepeatRun, ToBits, Pow2, Repeat;
    var (sym, r) := DecodeSymbol(TableOf(cl), bits).value;
    SymbolIs(cl, 7, bits, sym, r);
    if sym <= 15 {
      op := Length(sym);
      assert SymbolBits(cl, sym) + [] == SymbolBits(cl, sym);
    } else if sym == 16 {
      var extra := RunIs(r, 2, 3, prev, run, rest);
      op := RepeatPrevious(extra);
    } else if sym == 17 {
      var extra := RunIs(r, 3, 3, 0, run, rest);
      op := ZerosShort(extra);
    } else {
      var extra := RunIs(r, 7, 11, 0, run, rest);
      op := ZerosLong(extra);
    }
    Regroup(SymbolBits(cl, OpSymbol(op)), OpExtra(op), rest);
  }

  lemma {:induction false} OpsAre(cl: seq<nat>, bits: seq<bool>, n: nat, lens: seq<nat>, prev: nat, all: seq<nat>, rest: seq<bool>)
    returns (ops: seq<Op>)
    requires Kraft(cl, 7) && Usable(TableOf(cl)) && RunLengths(TableOf(cl), bits, n, lens, prev) == Some((all, rest))
    ensures OpsFit(ops, cl) && all == lens + ExpandOps(ops, prev)
    ensures bits == EncodeOps(ops, cl) + rest
    decreases |bits|
  {
    hide TableOf, SymbolBits, Kraft, Usable, OpSymbol, OpExtra, OpRun, OpFits, LengthStep;
    StepSuffix(TableOf(cl), bits, prev);
    if |lens| >= n {
      ops := [];
      assert [] + rest == rest && lens + [] == lens;
    } else {
      var (run, r) := LengthStep(TableOf(cl), bits, prev).value;
      var op := OpIs(cl, bits, prev, run, r);
      var more := OpsAre(cl, r, n, lens + run, run[|run| - 1], all, rest);
      ops := [op] + more;
      assert ops[1..] == more;
      Regroup(SymbolBits(cl, OpSymbol(op)) + OpExtra(op), EncodeOps(more, cl), rest);
      Regroup(lens, run, ExpandOps(more, run[|run| - 1]));
    }
  }

  // ----- Code length code lengths

  lemma OrderInRange(i: nat)
    requires i < 19
    ensures |CODELEN_ORDER| == 19 && CODELEN_ORDER[i] < 19
    ensures forall j: nat :: j < 19 && j != i ==> CODELEN_ORDER[j] != CODELEN_ORDER[i]
  {
    OrderIsPermutation(i);
    forall j: nat | j < 19 && j != i ensures CODELEN_ORDER[j] != CODELEN_ORDER[i] {
      OrderIsPermutation(j);
    }
  }

  /** The lengths read are the ones encoded; those not read keep what they were. */
  lemma {:induction false} CodeLengthsAre(bits: seq<bool>, i: nat, n: nat, lens: seq<nat>, cl: seq<nat>, rest: seq<bool>)
    requires i <= n <= 19 == |lens| && AtMost(lens, 7) && |CODELEN_ORDER| == 19
    requires ReadCodeLengths(bits, i, n, lens) == Some((cl, rest))
    ensures |cl| == 19 && AtMost(cl, 7) && bits == EncodeCodeLengths(cl, i, n) + rest
    ensures forall j: nat :: j < i || n <= j < 19 ==> j < 19 && 0 <= CODELEN_ORDER[j] < 19 && cl[CODELEN_ORDER[j]] == lens[CODELEN_ORDER[j]]
    decreases n - i
  {
    forall j: nat | j < 19 ensures 0 <= CODELEN_ORDER[j] < 19 { OrderInRange(j); }
    hide CODELEN_ORDER, Pow2, ToBits, LsbVal;
    if i == n {
      assert [] + rest == rest;
    } else {
      OrderInRange(i);
      var (v, r) := ReadBits(bits, 3).value;
      ThreeBits(bits, v, r);
      var next := lens[CODELEN_ORDER[i] := v];
      CodeLengthsAre(r, i + 1, n, next, cl, rest);
      assert cl[CODELEN_ORDER[i]] == next[CODELEN_ORDER[i]] == v;
      Regroup(ToBits(v, 3), EncodeCodeLengths(cl, i + 1, n), rest);
    }
  }

  lemma ThreeBits(bits: seq<bool>, v: nat, rest: seq<bool>)
    requires ReadBits(bits, 3) == Some((v, rest))
    ensures v <= 7 && bits == ToBits(v, 3) + rest
  {
    SmallPowers();
    hide Pow2, ReadBits;
    FieldIs(bits, 3, v, rest);
  }

  // ----- Headers

  /** What the standard asks of a header besides being readable: codes that satisfy Kraft, and runs
      that end exactly where the counts say. */
  ghost predicate StandardCodes(bits: seq<bool>) {
    match ReadCounts(bits)
    case None => false
    case Some((nlit, ndist, ncodelen, r)) =>
      match ReadCodeLengths(r, 0, ncodelen, Repeat<nat>(0, 19))
      case None => false
      case Some((cl, r')) =>
        TableOfUsable(cl);
        Kraft(cl, 7) &&
        match TwoRuns(TableOf(cl), r', nlit, ndist)
        case None => false
        case Some((lit, dist, _)) => |lit| == nlit && |dist| == ndist && Kraft(lit, 15) && Kraft(dist, 15)
  }

  lemma CountsAre(bits: seq<bool>, nlit: nat, ndist: nat, ncodelen: nat, r: seq<bool>)
    requires ReadCounts(bits) == Some((nlit, ndist, ncodelen, r))
    ensures 257 <= nlit <= 288 && 1 <= ndist <= 32 && 4 <= ncodelen <= 19
    ensures bits == ToBits(nlit - 257, 5) + (ToBits(ndist - 1, 5) + (ToBits(ncodelen - 4, 4) + r))
  {
    SmallPowers();
    hide Pow2, ToBits, ReadBits, IsSuffix;
    var (hlit, r1) := ReadBits(bits, 5).value;
    FieldIs(bits, 5, hlit, r1);
    var (hdist, r2) := ReadBits(r1, 5).value;
    FieldIs(r1, 5, hdist, r2);
    var (hclen, r3) := ReadBits(r2, 4).value;
    FieldIs(r2, 4, hclen, r3);
  }

  /** A header that is read with standard codes was written as the encoder writes it. */
  lemma HeaderIs(bits: seq<bool>, lit: seq<nat>, dist: seq<nat>, rest: seq<bool>) returns (h: Header)
    requires StandardCodes(bits) && RunHeader(bits) == Some((lit, dist, rest))
    ensures HeaderOk(h) && h.Lit() == lit && h.Dist() == dist && bits == EncodeHeader(h) + rest
    ensures Kraft(lit, 15) && Kraft(dist, 15)
  {
    hide ReadCounts, ReadCodeLengths, TableOf, RunLengths, Kraft, OpsFit, ExpandOps, EncodeOps, EncodeCodeLengths, ToBits, AtMost,
         CODELEN_ORDER;
    var (nlit, ndist, ncodelen, r) := ReadCounts(bits).value;
    CountsAre(bits, nlit, ndist, ncodelen, r);
    var (cl, r') := ReadCodeLengths(r, 0, ncodelen, Repeat<nat>(0, 19)).value;
    CodeLengthCode(r, ncodelen, cl, r');
    TableOfUsable(cl);
    var (_, m) := RunLengths(TableOf(cl), r', nlit, [], 0).value;
    var litOps := OpsAre(cl, r', nlit, [], 0, lit, m);
    var distOps := OpsAre(cl, m, ndist, [], 0, dist, rest);
    assert [] + ExpandOps(litOps, 0) == ExpandOps(litOps, 0) && [] + ExpandOps(distOps, 0) == ExpandOps(distOps, 0);
    h := Header(cl, ncodelen, litOps, distOps);
    var lens, ops1, ops2 := EncodeCodeLengths(cl, 0, ncodelen), EncodeOps(litOps, cl), EncodeOps(distOps, cl);
    Regroup3(lens, ops1, ops2, rest);
    Regroup4(ToBits(nlit - 257, 5), ToBits(ndist - 1, 5), ToBits(ncodelen - 4, 4), lens + (ops1 + ops2), rest);
  }

  lemma CodeLengthCode(bits: seq<bool>, n: nat, cl: seq<nat>, rest: seq<bool>)
    requires n <= 19 && ReadCodeLengths(bits, 0, n, Repeat<nat>(0, 19)) == Some((cl, rest))
    ensures |cl| == 19 == |CODELEN_ORDER| && AtMost(cl, 7) && bits == EncodeCodeLengths(cl, 0, n) + rest
    ensures forall j :: n <= j < 19 ==> 0 <= CODELEN_ORDER[j] < 19 && cl[CODELEN_ORDER[j]] == 0
  {
    assert |CODELEN_ORDER| == 19;
    hide CODELEN_ORDER, ReadCodeLengths, EncodeCodeLengths;
    CodeLengthsAre(bits, 0, n, Repeat<nat>(0, 19), cl, rest);
  }

  lemma HeaderIsStandard(h: Header, rest: seq<bool>)
    requires HeaderOk(h) && Kraft(h.Lit(), 15) && Kraft(h.Dist(), 15)
    ensures StandardCodes(EncodeHeader(h) + rest)
  {
    hide Kraft, OpsFit, AtMost, ExpandOps, EncodeOps, EncodeCodeLengths, ReadCodeLengths, ReadCounts, RunLengths, TableOf, ToBits;
    var lens, ops1, ops2 := EncodeCodeLengths(h.cl, 0, h.ncodelen), EncodeOps(h.litOps, h.cl), EncodeOps(h.distOps, h.cl);
    Regroup3(lens, ops1, ops2, rest);
    Regroup4(ToBits(|h.Lit()| - 257, 5), ToBits(|h.Dist()| - 1, 5), ToBits(h.ncodelen - 4, 4), lens + (ops1 + ops2), rest);
    CountsRoundTrip(|h.Lit()|, |h.Dist()|, h.ncodelen, lens + (ops1 + (ops2 + rest)));
    StartPart(h.cl);
    CodeLengthsRoundTrip(h.cl, 0, h.ncodelen, Repeat<nat>(0, 19), ops1 + (ops2 + rest));
    OpsRoundTrip(h.litOps, h.cl, |h.Lit()|, [], 0, ops2 + rest);
    OpsRoundTrip(h.distOps, h.cl, |h.Dist()|, [], 0, rest);
    assert [] + h.Lit() == h.Lit() && [] + h.Dist() == h.Dist();
  }

  // ----- Stored blocks

  lemma {:induction false} StoredIs(bits: seq<bool>, n: nat, out: seq<byte>, rest: seq<bool>, o: seq<byte>) returns (data: seq<byte>)
    requires RunStored(bits, n, out) == Done(rest, o)
    ensures |data| == n && bits == BytesToBits(data) + rest && o == out + data
    decreases n
  {
    hide ReadBits, ToBits, LsbVal, RunStored, BytesToBits;
    if n == 0 {
      data := [];
      NothingStored(bits, out);
    } else {
      var b, r := FirstStored(bits, n, out);
      var more := StoredIs(r, n - 1, out + [b], rest, o);
      data := [b] + more;
      BytesCons(b, more);
      Regroup(ToBits(b, 8), BytesToBits(more), rest);
      Regroup(out, [b], more);
    }
  }

  lemma NothingStored(bits: seq<bool>, out: seq<byte>)
    ensures RunStored(bits, 0, out) == Done(bits, out) && BytesToBits([]) + bits == bits && out + [] == out
  {
  }

  lemma FirstStored(bits: seq<bool>, n: nat, out: seq<byte>) returns (b: byte, r: seq<bool>)
    requires n >= 1 && RunStored(bits, n, out).Done?
    ensures RunStored(bits, n, out) == RunStored(r, n - 1, out + [b]) && bits == ToBits(b, 8) + r
  {
    ByteValue(bits);
    b, r := ReadBits(bits, 8).value.0, ReadBits(bits, 8).value.1;
    hide LsbVal, ToBits;
    FieldIs(bits, 8, b, r);
  }

  lemma BytesCons(b: byte, more: seq<byte>)
    ensures BytesToBits([b] + more) == ToBits(b, 8) + BytesToBits(more)
  {
    hide ToBits;
    assert ([b] + more)[1..] == more;
  }

  /** The bits skipped to reach a byte boundary, as padding. */
  lemma SkippedBits(bits: seq<bool>, pos: nat) returns (pad: seq<bool>)
    requires (pos + |bits|) % 8 == 0
    ensures |pad| == 7 && bits == Padding(pos, pad) + AlignToByte(bits)
  {
    var k := |bits| % 8;
    SkippedCount(pos, |bits|);
    pad := bits[..k] + Repeat<bool>(false, 7 - k);
    assert pad[..k] == bits[..k];
    assert bits == bits[..k] + bits[k..];
  }

  lemma SkippedCount(pos: nat, n: nat)
    requires (pos + n) % 8 == 0
    ensures n % 8 == (8 - pos % 8) % 8
  {
  }

  lemma StoredBlockIs(bits: seq<bool>, out: seq<byte>, pos: nat, rest: seq<bool>, o: seq<byte>) returns (b: Block)
    requires (pos + |bits|) % 8 == 0 && RunStoredBlock(bits, out) == Done(rest, o)
    ensures b.Stored? && BlockOk(b, out) && BlockOutput(b, out) == o
    ensures bits == EncodeStored(b.data, b.pad, b.nlen, pos) + rest
  {
    SmallPowers();
    hide AlignToByte, ReadBits, RunStored, ToBits, BytesToBits, Padding, Pow2;
    var pad := SkippedBits(bits, pos);
    var a := AlignToByte(bits);
    var (len, r) := ReadBits(a, 16).value;
    FieldIs(a, 16, len, r);
    var (nlen, r') := ReadBits(r, 16).value;
    FieldIs(r, 16, nlen, r');
    var data := StoredIs(r', len, out, rest, o);
    b := Stored(data, pad, nlen);
    Regroup4(Padding(pos, pad), ToBits(len, 16), ToBits(nlen, 16), BytesToBits(data), rest);
  }

  // ----- Blocks

  ghost predicate StandardTokens(bits: seq<bool>, out: seq<byte>, lit: seq<nat>, dist: seq<nat>) {
    TableOfUsable(lit);
    TableOfUsable(dist);
    StandardItems(bits, out, TableOf(lit), TableOf(dist))
  }

  /** The body of a block is readable by standard means. */
  ghost predicate StandardBody(btype: nat, bits: seq<bool>, out: seq<byte>) {
    if btype == 1 then StandardTokens(bits, out, FIXED_LIT, FIXED_DIST)
    else btype == 2 ==>
      StandardCodes(bits) &&
      match RunHeader(bits)
      case None => true
      case Some((lit, dist, rest)) => StandardTokens(rest, out, lit, dist)
  }

  lemma TokensAre(lit: seq<nat>, dist: seq<nat>, top: nat, bits: seq<bool>, out: seq<byte>, rest: seq<bool>, o: seq<byte>)
    returns (toks: seq<Token>)
    requires Kraft(lit, top) && Kraft(dist, top) && StandardTokens(bits, out, lit, dist)
    requires RunCompressed(bits, out, lit, dist) == Done(rest, o)
    ensures HasCode(lit, 256) && TokensFit(toks, out, lit, dist) && o == Expand(out, toks)
    ensures bits == EncodeTokens(toks, out, lit, dist) + rest
  {
    TableOfUsable(lit);
    TableOfUsable(dist);
    hide TableOf, Kraft, Usable, StandardItems, RunItems, EncodeTokens;
    toks := ItemsAre(lit, dist, top, bits, out, rest, o);
  }

  lemma BodyIs(btype: nat, bits: seq<bool>, out: seq<byte>, pos: nat, rest: seq<bool>, o: seq<byte>) returns (b: Block)
    requires (pos + |bits|) % 8 == 0 && StandardBody(btype, bits, out) && RunBody(btype, bits, out) == Done(rest, o)
    ensures BlockOk(b, out) && BlockType(b) == btype && BlockOutput(b, out) == o
    ensures bits == EncodeBody(b, out, pos) + rest
  {
    hide RunStoredBlock, RunHeader, RunCompressed, StandardCodes, StandardTokens, TokensFit, HeaderOk, Kraft, EncodeTokens,
         EncodeHeader, EncodeStored, Expand, FIXED_LIT, FIXED_DIST;
    if btype == 0 {
      b := StoredBlockIs(bits, out, pos, rest, o);
    } else if btype == 1 {
      FixedKraft();
      var toks := TokensAre(FIXED_LIT, FIXED_DIST, 15, bits, out, rest, o);
      b := Fixed(toks);
    } else {
      var (lit, dist, r) := RunHeader(bits).value;
      var h := HeaderIs(bits, lit, dist, r);
      var toks := TokensAre(lit, dist, 15, r, out, rest, o);
      b := Dynamic(h, toks);
      Regroup(EncodeHeader(h), EncodeTokens(toks, out, lit, dist), rest);
    }
  }

  lemma BodyIsStandard(b: Block, out: seq<byte>, pos: nat, rest: seq<bool>)
    requires BlockOk(b, out)
    ensures StandardBody(BlockType(b), EncodeBody(b, out, pos) + rest, out)
  {
    hide RunStoredBlock, RunHeader, RunCompressed, StandardCodes, TokensFit, HeaderOk, Kraft, EncodeTokens, StandardItems,
         EncodeHeader, EncodeStored, Expand, FIXED_LIT, FIXED_DIST, TableOf, Usable, ExpandOps;
    match b
    case Stored(_, _, _) =>
    case Fixed(toks) =>
      FixedKraft();
      FixedHasEnd();
      TokensAreStandard(toks, out, FIXED_LIT, FIXED_DIST, 15, rest);
    case Dynamic(h, toks) =>
      var items := EncodeTokens(toks, out, h.Lit(), h.Dist());
      Regroup(EncodeHeader(h), items, rest);
      HeaderRoundTrip(h, items + rest);
      HeaderIsStandard(h, items + rest);
      TokensAreStandard(toks, out, h.Lit(), h.Dist(), 15, rest);
  }

  /** The block at the front of bits is readable by standard means. */
  ghost predicate StandardBlock(bits: seq<bool>, out: seq<byte>) {
    |bits| >= 3 && StandardBody(LsbVal(bits[1..][..2]), bits[1..][2..], out)
  }

  lemma TypeField(bits: seq<bool>, final: nat, r1: seq<bool>, btype: nat, r2: seq<bool>)
    requires ReadBits(bits, 1) == Some((final, r1)) && ReadBits(r1, 2) == Some((btype, r2))
    ensures |bits| >= 3 && btype == LsbVal(bits[1..][..2]) && r2 == bits[1..][2..] && final <= 1
    ensures bits == ToBits(final, 1) + (ToBits(btype, 2) + r2)
  {
    FieldIs(bits, 1, final, r1);
    FieldIs(r1, 2, btype, r2);
    assert Pow2(1) == 2;
  }

  lemma BlockIs(bits: seq<bool>, out: seq<byte>, pos: nat, rest: seq<bool>, o: seq<byte>, final: bool) returns (b: Block)
    requires (pos + |bits|) % 8 == 0 && StandardBlock(bits, out) && RunBlock(bits, out) == BlockDone(rest, o, final)
    ensures BlockOk(b, out) && BlockOutput(b, out) == o && bits == EncodeBlock(b, out, pos, final) + rest
  {
    hide ReadBits, StandardBody, RunBody, BlockOk, BlockOutput, EncodeBody, ToBits, LsbVal;
    var (f, r1) := ReadBits(bits, 1).value;
    var (btype, r2) := ReadBits(r1, 2).value;
    TypeField(bits, f, r1, btype, r2);
    b := BodyIs(btype, r2, out, pos + 3, rest, o);
    Regroup3(ToBits(BitVal(final), 1), ToBits(btype, 2), EncodeBody(b, out, pos + 3), rest);
    assert f == BitVal(final);
  }

  lemma BlockIsStandard(b: Block, out: seq<byte>, pos: nat, final: bool, rest: seq<bool>)
    requires BlockOk(b, out)
    ensures StandardBlock(EncodeBlock(b, out, pos, final) + rest, out)
  {
    SmallPowers();
    hide StandardBody, BlockOk, EncodeBody, ReadBits, Pow2, ToBits, LsbVal;
    var body := EncodeBody(b, out, pos + 3);
    Regroup3(ToBits(BitVal(final), 1), ToBits(BlockType(b), 2), body, rest);
    FieldRoundTrip(BitVal(final), 1, ToBits(BlockType(b), 2) + (body + rest));
    FieldRoundTrip(BlockType(b), 2, body + rest);
    TypeField(EncodeBlock(b, out, pos, final) + rest, BitVal(final), ToBits(BlockType(b), 2) + (body + rest), BlockType(b), body + rest);
    BodyIsStandard(b, out, pos + 3, rest);
  }

  // ----- Streams

  /** Every block of the stream is readable by standard means. */
  ghost predicate StandardStream(bits: seq<bool>, out: seq<byte>)
    decreases |bits|
  {
    BlockBounded(bits, out);
    StandardBlock(bits, out) &&
    match RunBlock(bits, out)
    case BlockFail(_, _) => true
    case BlockDone(rest, o, final) => final || StandardStream(rest, o)
  }

  lemma {:induction false} StreamIs(bits: seq<bool>, out: seq<byte>, pos: nat, rest: seq<bool>, o: seq<byte>) returns (blocks: seq<Block>)
    requires (pos + |bits|) % 8 == 0 && StandardStream(bits, out) && RunBlocks(bits, out) == Done(rest, o)
    ensures BlocksOk(blocks, out) && BlocksOutput(blocks, out) == o && bits == EncodeBlocks(blocks, out, pos) + rest
    decreases |bits|
  {
    hide RunBlock, StandardBlock, BlockOk, BlockOutput, EncodeBlock;
    BlockBounded(bits, out);
    var BlockDone(r, m, final) := RunBlock(bits, out);
    var b := BlockIs(bits, out, pos, r, m, final);
    var first := EncodeBlock(b, out, pos, final);
    if final {
      blocks := [b];
      assert blocks[1..] == [];
    } else {
      assert pos + |bits| == pos + |first| + |r|;
      var more := StreamIs(r, m, pos + |first|, rest, o);
      blocks := [b] + more;
      assert blocks[1..] == more;
      Regroup(first, EncodeBlocks(more, m, pos + |first|), rest);
    }
  }

  lemma {:induction false} StreamIsStandard(blocks: seq<Block>, out: seq<byte>, pos: nat, rest: seq<bool>)
    requires BlocksOk(blocks, out) && (pos + |EncodeBlocks(blocks, out, pos)| + |rest|) % 8 == 0
    ensures StandardStream(EncodeBlocks(blocks, out, pos) + rest, out)
    decreases |blocks|
  {
    hide EncodeBlock, RunBlock, BlockOk, BlockOutput, StandardBlock;
    var final := |blocks| == 1;
    var first, o := EncodeBlock(blocks[0], out, pos, final), BlockOutput(blocks[0], out);
    BlockBounded(EncodeBlocks(blocks, out, pos) + rest, out);
    if final {
      BlockRoundTrip(blocks[0], out, pos, final, rest);
      BlockIsStandard(blocks[0], out, pos, final, rest);
    } else {
      var tail := EncodeBlocks(blocks[1..], o, pos + |first|);
      Regroup(first, tail, rest);
      BlockRoundTrip(blocks[0], out, pos, final, tail + rest);
      BlockIsStandard(blocks[0], out, pos, final, tail + rest);
      StreamIsStandard(blocks[1..], o, pos + |first|, rest);
    }
  }

  /** A stream is decoded, by standard means only, to o with rest left over, if and only if it is the
      encoding of blocks whose output is o, followed by rest. The standard means leave out codes beyond
      Kraft, runs of lengths that overshoot their count, distance symbols above 29, and symbol 284 for
      a length of 258. */
  lemma DecodesIffEncoded(bits: seq<bool>, out: seq<byte>, pos: nat, rest: seq<bool>, o: seq<byte>)
    requires (pos + |bits|) % 8 == 0
    ensures RunBlocks(bits, out) == Done(rest, o) && StandardStream(bits, out) <==>
              exists blocks ::
                BlocksOk(blocks, out) && BlocksOutput(blocks, out) == o && bits == EncodeBlocks(blocks, out, pos) + rest
  {
    hide RunBlocks, StandardStream, BlocksOk, BlocksOutput, EncodeBlocks;
    if RunBlocks(bits, out) == Done(rest, o) && StandardStream(bits, out) {
      var blocks := StreamIs(bits, out, pos, rest, o);
    }
    forall blocks | BlocksOk(blocks, out) && BlocksOutput(blocks, out) == o && bits == EncodeBlocks(blocks, out, pos) + rest
      ensures RunBlocks(bits, out) == Done(rest, o) && StandardStream(bits, out)
    {
      StreamRoundTrip(blocks, out, pos, rest);
      StreamIsStandard(blocks, out, pos, rest);
    }
  }
}
