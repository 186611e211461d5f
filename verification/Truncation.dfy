/** Input that is cut short: whatever was decoded from a part of the input is decoded from all of it, so a
    cut stream gives a part of the output and is never taken for a whole one. */
module Truncation {
  import opened Bits
  import opened BitStreams
  import opened Huffman
  import opened HuffmanRead
  import opened Window
  import opened DeflateSpec
  import opened BlockSpec
  import opened Encoder
  import opened DeflateRoundTrip
  import opened Zlib
  import BitOps

  // ----- Single readings

  /** What was read is read again when more bits follow, and these are left over too. */
  ghost predicate Persists<T>(part: Option<(T, seq<bool>)>, whole: Option<(T, seq<bool>)>, more: seq<bool>) {
    part.Some? ==> whole == Some((part.value.0, part.value.1 + more))
  }

  lemma FieldPersists(bits: seq<bool>, n: nat, more: seq<bool>)
    ensures Persists(ReadBits(bits, n), ReadBits(bits + more, n), more)
  {
    if |bits| >= n {
      assert (bits + more)[..n] == bits[..n];
      assert (bits + more)[n..] == bits[n..] + more;
    }
  }

  lemma {:induction false} SymbolPersists(look: map<nat, nat>, code: nat, bits: seq<bool>, more: seq<bool>)
    ensures Persists(DecodeFrom(look, code, bits), DecodeFrom(look, code, bits + more), more)
    decreases |bits|
  {
    if code !in look && bits != [] {
      assert (bits + more)[1..] == bits[1..] + more;
      SymbolPersists(look, 2 * code + BitVal(bits[0]), bits[1..], more);
    }
  }

  lemma LengthPersists(sym: nat, bits: seq<bool>, more: seq<bool>)
    requires 257 <= sym <= 285
    ensures Persists(LengthOf(sym, bits), LengthOf(sym, bits + more), more)
  {
    TableSizes();
    FieldPersists(bits, LEN_EXTRA[sym - 257], more);
    hide ReadBits;
  }

  lemma DistancePersists(dist: Table, bits: seq<bool>, more: seq<bool>)
    ensures Persists(DistanceOf(dist, bits), DistanceOf(dist, bits + more), more)
  {
    hide ReadBits, DecodeFrom, DistExtra, DistBase;
    SymbolPersists(dist.look, 1, bits, more);
    match DecodeSymbol(dist, bits)
    case None =>
    case Some((sym, r)) => if sym <= 30 { FieldPersists(r, DistExtra(sym), more); }
  }

  /** The same for an item. */
  ghost predicate ItemPersists(part: Item, whole: Item, more: seq<bool>) {
    match part
    case Bad => true
    case More(rest, o) => whole == More(rest + more, o)
    case EndOfBlock(rest) => whole == EndOfBlock(rest + more)
  }

  lemma RunItemPersists(bits: seq<bool>, out: seq<byte>, lit: Table, dist: Table, more: seq<bool>)
    ensures ItemPersists(RunItem(bits, out, lit, dist), RunItem(bits + more, out, lit, dist), more)
  {
    hide LengthOf, DistanceOf, DecodeFrom, Effective, Copy;
    SymbolPersists(lit.look, 1, bits, more);
    match DecodeSymbol(lit, bits)
    case None =>
    case Some((sym, r)) =>
      if 257 <= sym <= 285 {
        LengthPersists(sym, r, more);
        match LengthOf(sym, r)
        case None =>
        case Some((_, r')) => DistancePersists(dist, r', more);
      }
  }

  // ----- Blocks

  /** What was decoded is decoded again; a failure may turn into a success, with more output. */
  ghost predicate Continues(part: Outcome, whole: Outcome, more: seq<bool>) {
    match part
    case Done(rest, o) => whole == Done(rest + more, o)
    case Fail(_, o) => o <= whole.out
  }

  lemma ExtendsOutput(bits: seq<bool>, out: seq<byte>, r: Outcome)
    requires BoundedOutcome(bits, out, r)
    ensures out <= r.out
  {
  }

  lemma {:induction false} ItemsPersist(bits: seq<bool>, out: seq<byte>, lit: Table, dist: Table, more: seq<bool>)
    requires Usable(lit) && Usable(dist)
    ensures Continues(RunItems(bits, out, lit, dist), RunItems(bits + more, out, lit, dist), more)
    decreases |bits|
  {
    hide Usable, RunItem, BoundedOutcome;
    ItemSuffix(bits, out, lit, dist);
    RunItemPersists(bits, out, lit, dist, more);
    match RunItem(bits, out, lit, dist)
    case Bad =>
      ItemsBounded(bits + more, out, lit, dist);
      ExtendsOutput(bits + more, out, RunItems(bits + more, out, lit, dist));
    case EndOfBlock(_) =>
    case More(rest, o) => ItemsPersist(rest, o, lit, dist, more);
  }

  lemma CompressedPersists(bits: seq<bool>, out: seq<byte>, lit: seq<nat>, dist: seq<nat>, more: seq<bool>)
    ensures Continues(RunCompressed(bits, out, lit, dist), RunCompressed(bits + more, out, lit, dist), more)
  {
    TableOfUsable(lit);
    TableOfUsable(dist);
    hide TableOf, RunItems, Usable;
    ItemsPersist(bits, out, TableOf(lit), TableOf(dist), more);
  }

  lemma {:induction false} StoredPersists(bits: seq<bool>, n: nat, out: seq<byte>, more: seq<bool>)
    ensures Continues(RunStored(bits, n, out), RunStored(bits + more, n, out), more)
    decreases n
  {
    hide ReadBits, BoundedOutcome;
    FieldPersists(bits, 8, more);
    if n != 0 {
      match ReadBits(bits, 8)
      case None =>
        StoredBounded(bits + more, n, out);
        ExtendsOutput(bits + more, out, RunStored(bits + more, n, out));
      case Some((b, rest)) =>
        ByteOf(bits, b, rest);
        StoredPersists(rest, n - 1, out + [b], more);
    }
  }

  lemma ByteOf(bits: seq<bool>, b: nat, rest: seq<bool>)
    requires ReadBits(bits, 8) == Some((b, rest))
    ensures b < 256
  {
    ByteValue(bits);
  }

  lemma AlignmentPersists(bits: seq<bool>, more: seq<bool>)
    requires |more| % 8 == 0
    ensures AlignToByte(bits + more) == AlignToByte(bits) + more
  {
    assert |bits + more| % 8 == |bits| % 8;
  }

  lemma StoredBlockPersists(bits: seq<bool>, out: seq<byte>, more: seq<bool>)
    requires |more| % 8 == 0
    ensures Continues(RunStoredBlock(bits, out), RunStoredBlock(bits + more, out), more)
  {
    hide ReadBits, RunStored, AlignToByte, BoundedOutcome;
    StoredBlockBounded(bits + more, out);
    ExtendsOutput(bits + more, out, RunStoredBlock(bits + more, out));
    AlignmentPersists(bits, more);
    FieldPersists(AlignToByte(bits), 16, more);
    match ReadBits(AlignToByte(bits), 16)
    case None =>
    case Some((len, r)) =>
      FieldPersists(r, 16, more);
      match ReadBits(r, 16)
      case None =>
      case Some((_, rest)) => StoredPersists(rest, len, out, more);
  }

  // ----- Headers

  lemma {:induction false} CodeLengthsPersist(bits: seq<bool>, i: nat, n: nat, lens: seq<nat>, more: seq<bool>)
    requires n <= 19 == |lens|
    ensures Persists(ReadCodeLengths(bits, i, n, lens), ReadCodeLengths(bits + more, i, n, lens), more)
    decreases n - i
  {
    if i < n {
      FieldPersists(bits, 3, more);
      hide ReadBits;
      match ReadBits(bits, 3)
      case None =>
      case Some((v, rest)) => CodeLengthsPersist(rest, i + 1, n, lens[CODELEN_ORDER[i] := v], more);
    }
  }

  lemma StepPersists(t: Table, bits: seq<bool>, prev: nat, more: seq<bool>)
    ensures Persists(LengthStep(t, bits, prev), LengthStep(t, bits + more, prev), more)
  {
    hide ReadBits, DecodeFrom, Repeat;
    SymbolPersists(t.look, 1, bits, more);
    match DecodeSymbol(t, bits)
    case None =>
    case Some((sym, r)) =>
      FieldPersists(r, 2, more);
      FieldPersists(r, 3, more);
      FieldPersists(r, 7, more);
  }

  lemma {:induction false} LengthsPersist(t: Table, bits: seq<bool>, n: nat, lens: seq<nat>, prev: nat, more: seq<bool>)
    requires Usable(t)
    ensures Persists(RunLengths(t, bits, n, lens, prev), RunLengths(t, bits + more, n, lens, prev), more)
    decreases |bits|
  {
    hide LengthStep, Usable;
    if |lens| < n {
      StepSuffix(t, bits, prev);
      StepPersists(t, bits, prev, more);
      match LengthStep(t, bits, prev)
      case None =>
      case Some((run, rest)) =>
        StepSuffix(t, bits + more, prev);
        LengthsPersist(t, rest, n, lens + run, run[|run| - 1], more);
    }
  }

  ghost predicate HeaderPersists(part: Option<(seq<nat>, seq<nat>, seq<bool>)>, whole: Option<(seq<nat>, seq<nat>, seq<bool>)>,
                                 more: seq<bool>) {
    part.Some? ==> whole == Some((part.value.0, part.value.1, part.value.2 + more))
  }

  lemma TwoRunsPersist(t: Table, bits: seq<bool>, nlit: nat, ndist: nat, more: seq<bool>)
    requires Usable(t)
    ensures HeaderPersists(TwoRuns(t, bits, nlit, ndist), TwoRuns(t, bits + more, nlit, ndist), more)
  {
    hide RunLengths, Usable;
    LengthsPersist(t, bits, nlit, [], 0, more);
    match RunLengths(t, bits, nlit, [], 0)
    case None =>
    case Some((_, r)) => LengthsPersist(t, r, ndist, [], 0, more);
  }

  lemma HeaderBodyPersists(bits: seq<bool>, nlit: nat, ndist: nat, ncodelen: nat, more: seq<bool>)
    requires ncodelen <= 19
    ensures HeaderPersists(RunHeaderBody(bits, nlit, ndist, ncodelen), RunHeaderBody(bits + more, nlit, ndist, ncodelen), more)
  {
    hide ReadCodeLengths, TableOf, TwoRuns, Usable;
    CodeLengthsPersist(bits, 0, ncodelen, Repeat<nat>(0, 19), more);
    match ReadCodeLengths(bits, 0, ncodelen, Repeat<nat>(0, 19))
    case None =>
    case Some((cl, r)) =>
      TableOfUsable(cl);
      TwoRunsPersist(TableOf(cl), r, nlit, ndist, more);
  }

  lemma RunHeaderPersists(bits: seq<bool>, more: seq<bool>)
    ensures HeaderPersists(RunHeader(bits), RunHeader(bits + more), more)
  {
    hide ReadBits, RunHeaderBody;
    FieldPersists(bits, 5, more);
    match ReadBits(bits, 5)
    case None =>
    case Some((_, r1)) =>
      FieldPersists(r1, 5, more);
      match ReadBits(r1, 5)
      case None =>
      case Some((_, r2)) =>
        FieldPersists(r2, 4, more);
        match ReadCounts(bits)
        case None =>
        case Some((nlit, ndist, ncodelen, r)) => HeaderBodyPersists(r, nlit, ndist, ncodelen, more);
  }

  // ----- Streams

  lemma BodyPersists(btype: nat, bits: seq<bool>, out: seq<byte>, more: seq<bool>)
    requires |more| % 8 == 0
    ensures Continues(RunBody(btype, bits, out), RunBody(btype, bits + more, out), more)
  {
    hide RunStoredBlock, RunHeader, RunCompressed, FIXED_LIT, FIXED_DIST, BoundedOutcome;
    BodyBounded(btype, bits + more, out);
    ExtendsOutput(bits + more, out, RunBody(btype, bits + more, out));
    if btype == 0 {
      StoredBlockPersists(bits, out, more);
    } else if btype == 1 {
      CompressedPersists(bits, out, FIXED_LIT, FIXED_DIST, more);
    } else if btype == 2 {
      RunHeaderPersists(bits, more);
      match RunHeader(bits)
      case None =>
      case Some((lit, dist, rest)) => CompressedPersists(rest, out, lit, dist, more);
    }
  }

  ghost predicate BlockContinues(part: BlockEnd, whole: BlockEnd, more: seq<bool>) {
    match part
    case BlockDone(rest, o, final) => whole == BlockDone(rest + more, o, final)
    case BlockFail(_, o) => o <= whole.out
  }

  lemma BlockPersists(bits: seq<bool>, out: seq<byte>, more: seq<bool>)
    requires |more| % 8 == 0
    ensures BlockContinues(RunBlock(bits, out), RunBlock(bits + more, out), more)
  {
    hide ReadBits, RunBody;
    BlockBounded(bits + more, out);
    FieldPersists(bits, 1, more);
    match ReadBits(bits, 1)
    case None =>
    case Some((_, r1)) =>
      FieldPersists(r1, 2, more);
      match ReadBits(r1, 2)
      case None =>
      case Some((btype, r2)) => BodyPersists(btype, r2, out, more);
  }

  /** With more bytes behind it, a stream that was decoded is decoded in the same way and the bytes are left
      over; of a stream that failed, what was output before is output again. */
  lemma {:induction false} StreamPersists(bits: seq<bool>, out: seq<byte>, more: seq<bool>)
    requires |more| % 8 == 0
    ensures Continues(RunBlocks(bits, out), RunBlocks(bits + more, out), more)
    decreases |bits|
  {
    hide RunBlock, BoundedOutcome;
    BlockBounded(bits, out);
    BlockPersists(bits, out, more);
    match RunBlock(bits, out)
    case BlockFail(_, o) =>
      match RunBlock(bits + more, out) {
        case BlockFail(_, _) =>
        case BlockDone(rest, o', final) =>
          StreamBounded(rest, o');
          ExtendsOutput(rest, o', RunBlocks(rest, o'));
      }
    case BlockDone(rest, o, final) => if !final { StreamPersists(rest, o, more); }
  }

  /** Of an encoded stream and what follows it, the first part alone is decoded if and only if all that was
      cut off followed the stream. In any case it gives a beginning of the output. */
  lemma CutStream(blocks: seq<Block>, out: seq<byte>, pos: nat, rest: seq<bool>, part: seq<bool>, more: seq<bool>)
    requires BlocksOk(blocks, out) && |more| % 8 == 0
    requires part + more == EncodeBlocks(blocks, out, pos) + rest && (pos + |part|) % 8 == 0
    ensures RunBlocks(part, out).Done? <==> |more| <= |rest|
    ensures RunBlocks(part, out).out <= BlocksOutput(blocks, out)
    ensures RunBlocks(part, out).Done? ==>
              RunBlocks(part, out).out == BlocksOutput(blocks, out) && RunBlocks(part, out).rest + more == rest
  {
    hide BlocksOk, EncodeBlocks, RunBlocks, BlocksOutput, Continues;
    WholeStream(blocks, out, pos, rest, part, more);
    StreamPersists(part, out, more);
    if |more| <= |rest| { EnoughOfStream(blocks, out, pos, rest, part, more); }
    PartOfDone(RunBlocks(part, out), RunBlocks(part + more, out), more, rest, BlocksOutput(blocks, out));
  }

  lemma WholeBytes(a: nat, b: nat)
    ensures b % 8 == 0 ==> (a + b) % 8 == a % 8
  {
  }

  lemma PartOfDone(part: Outcome, whole: Outcome, more: seq<bool>, rest: seq<bool>, o: seq<byte>)
    requires Continues(part, whole, more) && whole == Done(rest, o) && (|more| <= |rest| ==> part.Done?)
    ensures part.Done? <==> |more| <= |rest|
    ensures part.out <= o && (part.Done? ==> part.out == o && part.rest + more == rest)
  {
  }

  lemma WholeStream(blocks: seq<Block>, out: seq<byte>, pos: nat, rest: seq<bool>, part: seq<bool>, more: seq<bool>)
    requires BlocksOk(blocks, out) && |more| % 8 == 0
    requires part + more == EncodeBlocks(blocks, out, pos) + rest && (pos + |part|) % 8 == 0
    ensures RunBlocks(part + more, out) == Done(rest, BlocksOutput(blocks, out))
  {
    hide BlocksOk, EncodeBlocks, RunBlocks, BlocksOutput;
    WholeBytes(pos + |part|, |more|);
    assert pos + |part| + |more| == pos + |EncodeBlocks(blocks, out, pos)| + |rest|;
    StreamRoundTrip(blocks, out, pos, rest);
  }

  lemma EnoughOfStream(blocks: seq<Block>, out: seq<byte>, pos: nat, rest: seq<bool>, part: seq<bool>, more: seq<bool>)
    requires BlocksOk(blocks, out) && |more| % 8 == 0
    requires part + more == EncodeBlocks(blocks, out, pos) + rest && (pos + |part|) % 8 == 0 && |more| <= |rest|
    ensures RunBlocks(part, out) == Done(rest[..|rest| - |more|], BlocksOutput(blocks, out))
  {
    hide BlocksOk, EncodeBlocks, RunBlocks, BlocksOutput;
    CutBehind(part, more, EncodeBlocks(blocks, out, pos), rest);
    StreamRoundTrip(blocks, out, pos, rest[..|rest| - |more|]);
  }

  lemma CutBehind<T>(part: seq<T>, more: seq<T>, stream: seq<T>, rest: seq<T>)
    requires part + more == stream + rest && |more| <= |rest|
    ensures part == stream + rest[..|rest| - |more|]
  {
    assert part == (part + more)[..|part|];
    assert (stream + rest)[..|part|] == stream + rest[..|rest| - |more|];
  }

  // ----- The zlib wrapper

  lemma ZlibHeaderPersists(bits: seq<bool>, more: seq<bool>)
    ensures Persists(ZlibHeader(bits), ZlibHeader(bits + more), more)
  {
    hide ReadBits, WindowSize;
    FieldPersists(bits, 4, more);
    match ReadBits(bits, 4)
    case None =>
    case Some((_, r1)) =>
      FieldPersists(r1, 4, more);
      match ReadBits(r1, 4)
      case None =>
      case Some((_, r2)) =>
        FieldPersists(r2, 5, more);
        match ReadBits(r2, 5)
        case None =>
        case Some((_, r3)) =>
          FieldPersists(r3, 1, more);
          match ReadBits(r3, 1)
          case None =>
          case Some((_, r4)) => FieldPersists(r4, 2, more);
  }

  lemma ShortChecksum(bits: seq<bool>)
    requires |bits| < 32
    ensures ReadChecksum(bits) == None
  {
    hide LsbVal;
  }

  /** A zlib stream that the encoder wrote, cut to its first k bytes: inflate_zlib fails unless the checksum
      is there in full, whether it is compared or not, and outputs a beginning of what was encoded. */
  lemma CutZlibStream(cmf: byte, flg: byte, blocks: seq<Block>, pad: seq<bool>, a3: byte, a2: byte, a1: byte, a0: byte,
                      extra: seq<byte>, checked: bool, k: nat)
    requires BlocksOk(blocks, []) && |pad| == 7 && HeaderBytesOk(cmf, flg)
    requires k <= |ZlibStream(cmf, flg, blocks, pad, [a3, a2, a1, a0], extra)|
    ensures var s, out := ZlibStream(cmf, flg, blocks, pad, [a3, a2, a1, a0], extra), BlocksOutput(blocks, []);
            var r := RunZlib(BytesToBits(s[..k]), checked);
            && r.out <= out
            && (r.ZlibOk? <==> k >= |s| - |extra| && (checked ==> AdlerOf(out) == BitOps.FourBytes(a3, a2, a1, a0)))
  {
    hide BlocksOk, BlocksOutput, BytesToBits, HeaderBytesOk, AdlerOf, BitOps.FourBytes, ZlibStream, RunZlib;
    var sum := [a3, a2, a1, a0];
    var s := ZlibStream(cmf, flg, blocks, pad, sum, extra);
    CutExtra(cmf, flg, blocks, pad, sum, extra, k);
    if k >= |s| - |extra| {
      ZlibRoundTrip(cmf, flg, blocks, pad, a3, a2, a1, a0, extra[..k - (|s| - |extra|)], checked);
    } else {
      CutBeforeExtra(cmf, flg, blocks, pad, a3, a2, a1, a0, extra, checked, k);
    }
  }

  lemma CutExtra(cmf: byte, flg: byte, blocks: seq<Block>, pad: seq<bool>, sum: seq<byte>, extra: seq<byte>, k: nat)
    requires BlocksOk(blocks, []) && |pad| == 7 && k <= |ZlibStream(cmf, flg, blocks, pad, sum, extra)|
    ensures var s := ZlibStream(cmf, flg, blocks, pad, sum, extra);
            && |s| >= |extra|
            && (k >= |s| - |extra| ==> s[..k] == ZlibStream(cmf, flg, blocks, pad, sum, extra[..k - (|s| - |extra|)]))
  {
    hide BlocksOk, PackPadded, EncodeBlocks;
  }

  lemma CutBeforeExtra(cmf: byte, flg: byte, blocks: seq<Block>, pad: seq<bool>, a3: byte, a2: byte, a1: byte, a0: byte,
                       extra: seq<byte>, checked: bool, k: nat)
    requires BlocksOk(blocks, []) && |pad| == 7 && HeaderBytesOk(cmf, flg)
    requires k + |extra| < |ZlibStream(cmf, flg, blocks, pad, [a3, a2, a1, a0], extra)|
    ensures var r := RunZlib(BytesToBits(ZlibStream(cmf, flg, blocks, pad, [a3, a2, a1, a0], extra)[..k]), checked);
            r.ZlibFail? && r.out <= BlocksOutput(blocks, [])
  {
    hide BlocksOk, EncodeBlocks, BlocksOutput, BytesToBits, HeaderBytesOk, ZlibStream, ZlibHeader, RunBlocks, ReadChecksum,
         AlignToByte, Padding, ToBits, Pow2;
    var sum := [a3, a2, a1, a0];
    var s := ZlibStream(cmf, flg, blocks, pad, sum, extra);
    var bits := EncodeBlocks(blocks, [], 16);
    var behind := Padding(|bits|, pad) + (BytesToBits(sum) + BytesToBits(extra));
    var part, more := BytesToBits(s[..k]), BytesToBits(s[k..]);
    assert s[..k] + s[k..] == s;
    BytesToBitsConcat(s[..k], s[k..]);
    StreamBits(cmf, flg, blocks, pad, sum, extra);
    HeaderIff(cmf, flg, bits + behind);
    ZlibHeaderPersists(part, more);
    match ZlibHeader(part)
    case None =>
    case Some((_, r)) =>
      PaddingLength(|bits|, pad);
      PaddingIsShort(|bits|, pad);
      CutPlaces(|bits|, |Padding(|bits|, pad)|, |extra|, |r|, |s| - k);
      CutStream(blocks, [], 16, behind, r, more);
      match RunBlocks(r, [])
      case Fail(_, _) =>
      case Done(rest, _) =>
        AlignIs(rest);
        ShortChecksum(AlignToByte(rest));
  }

  lemma PaddingIsShort(pos: nat, pad: seq<bool>)
    requires |pad| == 7
    ensures |Padding(pos, pad)| <= 7
  {
  }

  lemma CutPlaces(bits: nat, padding: nat, extra: nat, r: nat, cut: nat)
    requires (bits + padding) % 8 == 0 && r + 8 * cut == bits + (padding + (32 + 8 * extra))
    ensures (16 + r) % 8 == 0
  {
  }
}
