/** A specification encoder for DEFLATE, following sections 3.2.3 to 3.2.7 of RFC 1951: it turns
    a description of blocks (tokens, code lengths, runs of lengths) into bits. */
module Encoder {
  import opened Bits
  import opened BitStreams
  import opened Huffman
  import opened HuffmanRfc
  import opened HuffmanRead
  import opened HuffmanRoundTrip
  import opened Window
  import opened DeflateSpec
  import opened BlockSpec

  // ----- Tokens

  datatype Token = Literal(b: byte) | Match(len: nat, dist: nat)

  /** What a token adds to the output; a match beyond its start means nothing. */
  function Apply(out: seq<byte>, tok: Token): seq<byte> {
    match tok
    case Literal(b) => out + [b]
    case Match(len, dist) => if 1 <= dist <= |out| then Copy(out, dist, len) else out
  }

  /** The last place not above i where base is at most v. */
  function LastAtMost(base: seq<nat>, v: nat, i: nat): (r: nat)
    requires i < |base| && base[0] <= v
    ensures r <= i && base[r] <= v && (r < i ==> base[r + 1] > v)
  {
    if base[i] <= v then i else LastAtMost(base, v, i - 1)
  }

  function LengthIndex(len: nat): (i: nat)
    requires 3 <= len <= 258
    ensures i < 29 == |LEN_BASE| && LEN_BASE[i] <= len
  {
    LastAtMost(LEN_BASE, len, 28)
  }

  function DistanceIndex(dist: nat): (i: nat)
    requires 1 <= dist <= 32768
    ensures i < 30 == |DIST_BASE| && DIST_BASE[i] <= dist
  {
    LastAtMost(DIST_BASE, dist, 29)
  }

  ghost predicate HasCode(lens: seq<nat>, sym: nat) { sym < |lens| && lens[sym] != 0 }

  /** A token that may follow outLen bytes of output and whose symbols have codes. */
  ghost predicate TokenFits(tok: Token, outLen: nat, lit: seq<nat>, dist: seq<nat>) {
    match tok
    case Literal(b) => HasCode(lit, b)
    case Match(len, d) =>
      && 3 <= len <= 258 && 1 <= d <= 32768 && d <= outLen
      && HasCode(lit, 257 + LengthIndex(len)) && HasCode(dist, DistanceIndex(d))
  }

  function EncodeToken(tok: Token, outLen: nat, lit: seq<nat>, dist: seq<nat>): seq<bool>
    requires TokenFits(tok, outLen, lit, dist)
  {
    match tok
    case Literal(b) => SymbolBits(lit, b)
    case Match(len, d) =>
      TableSizes();
      var i, j := LengthIndex(len), DistanceIndex(d);
      SymbolBits(lit, 257 + i) + (ToBits(len - LEN_BASE[i], LEN_EXTRA[i])
        + (SymbolBits(dist, j) + ToBits(d - DIST_BASE[j], DIST_EXTRA[j])))
  }

  ghost predicate TokensFit(toks: seq<Token>, out: seq<byte>, lit: seq<nat>, dist: seq<nat>)
    decreases |toks|
  {
    toks == [] || (TokenFits(toks[0], |out|, lit, dist) && TokensFit(toks[1..], Apply(out, toks[0]), lit, dist))
  }

  /** The LZ77 expansion of a list of tokens. */
  function Expand(out: seq<byte>, toks: seq<Token>): seq<byte>
    decreases |toks|
  {
    if toks == [] then out else Expand(Apply(out, toks[0]), toks[1..])
  }

  /** The tokens of a block and its end-of-block symbol. */
  function EncodeTokens(toks: seq<Token>, out: seq<byte>, lit: seq<nat>, dist: seq<nat>): seq<bool>
    requires TokensFit(toks, out, lit, dist) && HasCode(lit, 256)
    decreases |toks|
  {
    if toks == [] then SymbolBits(lit, 256)
    else EncodeToken(toks[0], |out|, lit, dist) + EncodeTokens(toks[1..], Apply(out, toks[0]), lit, dist)
  }

  // ----- Reading back what was put

  lemma FieldRoundTrip(v: nat, n: nat, rest: seq<bool>)
    requires v < Pow2(n)
    ensures ReadBits(ToBits(v, n) + rest, n) == Some((v, rest))
  {
    ToBitsVal(v, n);
    assert (ToBits(v, n) + rest)[..n] == ToBits(v, n);
    assert (ToBits(v, n) + rest)[n..] == rest;
  }

  /** Each base is at most the base before it plus the range of its extra bits. */
  lemma LengthGaps(i: nat)
    requires i < 29 == |LEN_BASE| == |LEN_EXTRA|
    ensures i < 28 ==> LEN_BASE[i + 1] <= LEN_BASE[i] + Pow2(LEN_EXTRA[i])
  {
    hide Pow2;
    SmallPowers();
  }

  lemma LengthExtraFits(len: nat)
    requires 3 <= len <= 258
    ensures |LEN_EXTRA| == 29 && len - LEN_BASE[LengthIndex(len)] < Pow2(LEN_EXTRA[LengthIndex(len)])
  {
    TableSizes();
    var i := LengthIndex(len);
    LengthGaps(i);
    assert LEN_BASE[28] == 258;
    assert i == LastAtMost(LEN_BASE, len, 28);
  }

  lemma DistanceGaps(i: nat)
    requires i < 30 == |DIST_BASE| == |DIST_EXTRA|
    ensures i < 29 ==> DIST_BASE[i + 1] <= DIST_BASE[i] + Pow2(DIST_EXTRA[i])
  {
    SmallPowers();
    hide Pow2;
  }

  lemma DistanceExtraFits(d: nat)
    requires 1 <= d <= 32768
    ensures |DIST_EXTRA| == 30 && d - DIST_BASE[DistanceIndex(d)] < Pow2(DIST_EXTRA[DistanceIndex(d)])
  {
    TableSizes();
    var i := DistanceIndex(d);
    DistanceGaps(i);
    SmallPowers();
    hide Pow2;
    assert DIST_BASE[29] == 24577 && DIST_EXTRA[29] == 13;
    assert i == LastAtMost(DIST_BASE, d, 29);
  }

  // ----- Headers of dynamic blocks

  /** A symbol of the code length alphabet with its extra bits. */
  datatype Op = Length(n: nat) | RepeatPrevious(extra: nat) | ZerosShort(extra: nat) | ZerosLong(extra: nat)

  function OpSymbol(op: Op): nat {
    match op
    case Length(n) => n
    case RepeatPrevious(_) => 16
    case ZerosShort(_) => 17
    case ZerosLong(_) => 18
  }

  function OpExtra(op: Op): seq<bool> {
    match op
    case Length(_) => []
    case RepeatPrevious(extra) => ToBits(extra, 2)
    case ZerosShort(extra) => ToBits(extra, 3)
    case ZerosLong(extra) => ToBits(extra, 7)
  }

  function OpRun(op: Op, prev: nat): (run: seq<nat>)
    ensures |run| >= 1
  {
    match op
    case Length(n) => [n]
    case RepeatPrevious(extra) => Repeat<nat>(prev, 3 + extra)
    case ZerosShort(extra) => Repeat<nat>(0, 3 + extra)
    case ZerosLong(extra) => Repeat<nat>(0, 11 + extra)
  }

  ghost predicate OpFits(op: Op, cl: seq<nat>) {
    && HasCode(cl, OpSymbol(op))
    && match op
       case Length(n) => n <= 15
       case RepeatPrevious(extra) => extra < 4
       case ZerosShort(extra) => extra < 8
       case ZerosLong(extra) => extra < 128
  }

  ghost predicate OpsFit(ops: seq<Op>, cl: seq<nat>) {
    forall i :: 0 <= i < |ops| ==> OpFits(ops[i], cl)
  }

  function EncodeOps(ops: seq<Op>, cl: seq<nat>): seq<bool>
    requires OpsFit(ops, cl)
  {
    if ops == [] then []
    else SymbolBits(cl, OpSymbol(ops[0])) + OpExtra(ops[0]) + EncodeOps(ops[1..], cl)
  }

  /** The code lengths that a list of runs stands for, prev being the length before them. */
  function ExpandOps(ops: seq<Op>, prev: nat): seq<nat>
    decreases |ops|
  {
    if ops == [] then [] else
      var run := OpRun(ops[0], prev);
      run + ExpandOps(ops[1..], run[|run| - 1])
  }

  function EncodeCodeLengths(cl: seq<nat>, i: nat, n: nat): seq<bool>
    requires |cl| == 19 && n <= 19
    decreases n - i
  {
    if i >= n then [] else ToBits(cl[CODELEN_ORDER[i]], 3) + EncodeCodeLengths(cl, i + 1, n)
  }

  datatype Header = Header(cl: seq<nat>, ncodelen: nat, litOps: seq<Op>, distOps: seq<Op>) {
    function Lit(): seq<nat> { ExpandOps(litOps, 0) }
    function Dist(): seq<nat> { ExpandOps(distOps, 0) }
  }

  /** A header whose two runs of lengths end exactly at HLIT + 257 and HDIST + 1. */
  ghost predicate HeaderOk(h: Header) {
    && |h.cl| == 19 && AtMost(h.cl, 7) && Kraft(h.cl, 7)
    && 4 <= h.ncodelen <= 19
    && (forall j :: h.ncodelen <= j < 19 ==> h.cl[CODELEN_ORDER[j]] == 0)
    && OpsFit(h.litOps, h.cl) && OpsFit(h.distOps, h.cl)
    && 257 <= |h.Lit()| <= 288 && 1 <= |h.Dist()| <= 32
  }

  function EncodeHeader(h: Header): seq<bool>
    requires HeaderOk(h)
  {
    ToBits(|h.Lit()| - 257, 5) + (ToBits(|h.Dist()| - 1, 5) + (ToBits(h.ncodelen - 4, 4) + EncodeHeaderBody(h)))
  }

  function EncodeHeaderBody(h: Header): seq<bool>
    requires HeaderOk(h)
  {
    EncodeCodeLengths(h.cl, 0, h.ncodelen) + (EncodeOps(h.litOps, h.cl) + EncodeOps(h.distOps, h.cl))
  }

  // ----- Blocks

  /** pad supplies the bits up to the byte boundary; nlen is the second length field. The standard
      asks for the complement of the length there; the program does not look at either. */
  datatype Block =
    | Stored(data: seq<byte>, pad: seq<bool>, nlen: nat)
    | Fixed(toks: seq<Token>)
    | Dynamic(h: Header, toks: seq<Token>)

  function BlockOutput(b: Block, out: seq<byte>): seq<byte> {
    match b
    case Stored(data, _, _) => out + data
    case Fixed(toks) => Expand(out, toks)
    case Dynamic(h, toks) => Expand(out, toks)
  }

  ghost predicate BlockOk(b: Block, out: seq<byte>) {
    match b
    case Stored(data, pad, nlen) => |data| < 65536 && |pad| == 7 && nlen < 65536
    case Fixed(toks) => TokensFit(toks, out, FIXED_LIT, FIXED_DIST)
    case Dynamic(h, toks) =>
      && HeaderOk(h)
      && Kraft(h.Lit(), 15) && Kraft(h.Dist(), 15) && HasCode(h.Lit(), 256)
      && TokensFit(toks, out, h.Lit(), h.Dist())
  }

  /** The bits up to the next byte boundary after pos bits, taken from pad. */
  function Padding(pos: nat, pad: seq<bool>): seq<bool>
    requires |pad| == 7
  {
    pad[..(8 - pos % 8) % 8]
  }

  function EncodeStored(data: seq<byte>, pad: seq<bool>, nlen: nat, pos: nat): seq<bool>
    requires |data| < 65536 && |pad| == 7
  {
    Padding(pos, pad) + (ToBits(|data|, 16) + (ToBits(nlen, 16) + BytesToBits(data)))
  }

  function EncodeBody(b: Block, out: seq<byte>, pos: nat): seq<bool>
    requires BlockOk(b, out)
  {
    match b
    case Stored(data, pad, nlen) => EncodeStored(data, pad, nlen, pos)
    case Fixed(toks) => FixedHasEnd(); EncodeTokens(toks, out, FIXED_LIT, FIXED_DIST)
    case Dynamic(h, toks) => EncodeHeader(h) + EncodeTokens(toks, out, h.Lit(), h.Dist())
  }

  lemma FixedHasEnd()
    ensures HasCode(FIXED_LIT, 256)
  {
    assert |Repeat<nat>(8, 144) + Repeat<nat>(9, 112)| == 256;
    assert FIXED_LIT[256] == Repeat<nat>(7, 24)[0];
  }

  function BlockType(b: Block): nat {
    match b
    case Stored(_, _, _) => 0
    case Fixed(_) => 1
    case Dynamic(_, _) => 2
  }

  /** A block that starts after pos bits. */
  function EncodeBlock(b: Block, out: seq<byte>, pos: nat, final: bool): seq<bool>
    requires BlockOk(b, out)
  {
    ToBits(BitVal(final), 1) + (ToBits(BlockType(b), 2) + EncodeBody(b, out, pos + 3))
  }

  ghost predicate BlocksOk(blocks: seq<Block>, out: seq<byte>)
    decreases |blocks|
  {
    blocks != [] && BlockOk(blocks[0], out)
    && (|blocks| > 1 ==> BlocksOk(blocks[1..], BlockOutput(blocks[0], out)))
  }

  function BlocksOutput(blocks: seq<Block>, out: seq<byte>): seq<byte>
    decreases |blocks|
  {
    if blocks == [] then out else BlocksOutput(blocks[1..], BlockOutput(blocks[0], out))
  }

  /** Blocks in a row, the last one marked final. */
  function EncodeBlocks(blocks: seq<Block>, out: seq<byte>, pos: nat): seq<bool>
    requires BlocksOk(blocks, out)
    decreases |blocks|
  {
    var first := EncodeBlock(blocks[0], out, pos, |blocks| == 1);
    if |blocks| == 1 then first
    else first + EncodeBlocks(blocks[1..], BlockOutput(blocks[0], out), pos + |first|)
  }
}
