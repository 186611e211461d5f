/** What deflate.lua decodes, continued: runs of items, headers of dynamic blocks, blocks,
    and streams of blocks, as functions. */
module BlockSpec {
  import opened Bits
  import opened BitStreams
  import opened Huffman
  import opened HuffmanRead
  import opened Window
  import opened DeflateSpec

  /** A failed run keeps the bytes it had already handed to the output function, and the bits that
      were unread when the item, length or header that failed was begun. */
  datatype Outcome =
    | Fail(rest: seq<bool>, out: seq<byte>)
    | Done(rest: seq<bool>, out: seq<byte>)

  function RunItems(bits: seq<bool>, out: seq<byte>, lit: Table, dist: Table): Outcome
    requires Usable(lit) && Usable(dist)
    decreases |bits|
  {
    ItemSuffix(bits, out, lit, dist);
    match RunItem(bits, out, lit, dist)
    case Bad => Fail(bits, out)
    case EndOfBlock(rest) => Done(rest, out)
    case More(rest, o) => RunItems(rest, o, lit, dist)
  }

  // ----- Stored blocks

  function RunStored(bits: seq<bool>, n: nat, out: seq<byte>): Outcome
    decreases n
  {
    if n == 0 then Done(bits, out)
    else match ReadBits(bits, 8)
         case None => Fail(bits, out)
         case Some((b, rest)) => ByteValue(bits); RunStored(rest, n - 1, out + [b])
  }

  lemma ByteValue(bits: seq<bool>)
    ensures |bits| >= 8 ==> LsbVal(bits[..8]) < 256
  {
    if |bits| >= 8 { LsbValBits(bits[..8]); }
  }

  /** Reading to the next byte boundary; the input ends on one. */
  function AlignToByte(bits: seq<bool>): seq<bool> { bits[|bits| % 8..] }

  function RunStoredBlock(bits: seq<bool>, out: seq<byte>): Outcome {
    match ReadBits(AlignToByte(bits), 16)
    case None => Fail(bits, out)
    case Some((len, r)) =>
      match ReadBits(r, 16)
      case None => Fail(bits, out)
      case Some((nlen, rest)) => RunStored(rest, len, out)
  }

  // ----- Headers of dynamic blocks (section 3.2.7 of RFC 1951)

  const CODELEN_ORDER: seq<nat> := [16, 17, 18, 0, 8, 7, 9, 6, 10, 5, 11, 4, 12, 3, 13, 2, 14, 1, 15]

  /** The three-bit lengths of the code length alphabet, from the i-th on. */
  function ReadCodeLengths(bits: seq<bool>, i: nat, n: nat, lens: seq<nat>): Option<(seq<nat>, seq<bool>)>
    requires n <= 19 == |lens|
    decreases n - i
  {
    if i >= n then Some((lens, bits))
    else match ReadBits(bits, 3)
         case None => None
         case Some((v, rest)) => ReadCodeLengths(rest, i + 1, n, lens[CODELEN_ORDER[i] := v])
  }

  /** One symbol of the code length alphabet stands for a run of lengths; prev is the last length. */
  function LengthStep(t: Table, bits: seq<bool>, prev: nat): Option<(seq<nat>, seq<bool>)> {
    match DecodeSymbol(t, bits)
    case None => None
    case Some((sym, r)) =>
      if sym <= 15 then Some(([sym], r))
      else if sym == 16 then RepeatRun(r, 2, 3, prev)
      else if sym == 17 then RepeatRun(r, 3, 3, 0)
      else if sym == 18 then RepeatRun(r, 7, 11, 0)
      else None
  }

  function RepeatRun(bits: seq<bool>, nextra: nat, base: nat, v: nat): Option<(seq<nat>, seq<bool>)> {
    match ReadBits(bits, nextra)
    case None => None
    case Some((extra, rest)) => Some((Repeat<nat>(v, base + extra), rest))
  }

  ghost predicate AtMost(lens: seq<nat>, n: nat) {
    forall i :: 0 <= i < |lens| ==> lens[i] <= n
  }

  ghost predicate StepFits(bits: seq<bool>, prev: nat, r: Option<(seq<nat>, seq<bool>)>) {
    match r
    case None => true
    case Some((run, rest)) => IsSuffix(rest, bits) && 1 <= |run| <= 138 && (prev <= 15 ==> AtMost(run, 15))
  }

  /** A step takes at least one bit and yields at least one length. */
  lemma StepSuffix(t: Table, bits: seq<bool>, prev: nat)
    requires Usable(t)
    ensures StepFits(bits, prev, LengthStep(t, bits, prev))
    ensures LengthStep(t, bits, prev).Some? ==> |LengthStep(t, bits, prev).value.1| < |bits|
  {
    SymbolConsumes(t, bits);
    hide DecodeSymbol, Usable, RepeatRun, AtMost;
    match DecodeSymbol(t, bits)
    case None =>
    case Some((sym, r)) =>
      if sym <= 15 {
        SingleLength(sym);
      } else if sym == 16 {
        RepeatFits(r, bits, 2, 3, prev, 3, prev);
      } else if sym == 17 {
        RepeatFits(r, bits, 3, 3, 0, 7, prev);
      } else if sym == 18 {
        RepeatFits(r, bits, 7, 11, 0, 127, prev);
      }
  }

  lemma SingleLength(sym: nat)
    requires sym <= 15
    ensures AtMost([sym], 15)
  {
  }

  lemma RepeatFits(r: seq<bool>, bits: seq<bool>, nextra: nat, base: nat, v: nat, most: nat, prev: nat)
    requires IsSuffix(r, bits) && (v == prev || v == 0) && 1 <= base <= 11
    requires (nextra == 2 && most == 3) || (nextra == 3 && most == 7) || (nextra == 7 && most == 127)
    ensures StepFits(bits, prev, RepeatRun(r, nextra, base, v))
    ensures RepeatRun(r, nextra, base, v).Some? ==> |RepeatRun(r, nextra, base, v).value.1| <= |r|
  {
    FieldValue(r, nextra, most + 1) by { assert Pow2(2) == 4 && Pow2(3) == 8 && Pow2(7) == 128; }
    hide LsbVal;
    if |r| >= nextra { SuffixTrans(r[nextra..], r, bits); }
  }

  /** Runs of lengths until there are at least n of them. */
  function RunLengths(t: Table, bits: seq<bool>, n: nat, lens: seq<nat>, prev: nat): Option<(seq<nat>, seq<bool>)>
    requires Usable(t)
    decreases |bits|
  {
    if |lens| >= n then Some((lens, bits))
    else
      StepSuffix(t, bits, prev);
      match LengthStep(t, bits, prev)
      case None => None
      case Some((run, rest)) => RunLengths(t, rest, n, lens + run, run[|run| - 1])
  }

  /** HLIT + 257, HDIST + 1 and HCLEN + 4. */
  function ReadCounts(bits: seq<bool>): (c: Option<(nat, nat, nat, seq<bool>)>)
    ensures c.Some? ==> c.value.0 >= 257 && c.value.1 >= 1 && c.value.2 <= 19 && IsSuffix(c.value.3, bits)
  {
    match ReadBits(bits, 5)
    case None => None
    case Some((hlit, r1)) =>
      match ReadBits(r1, 5)
      case None => None
      case Some((hdist, r2)) =>
        match ReadBits(r2, 4)
        case None => None
        case Some((hclen, r3)) => FieldValue(r2, 4, 16); Some((hlit + 257, hdist + 1, hclen + 4, r3))
  }

  /** The lengths of the literal and of the distance code: two runs, each starting without a
      previous length. */
  function RunHeader(bits: seq<bool>): Option<(seq<nat>, seq<nat>, seq<bool>)> {
    match ReadCounts(bits)
    case None => None
    case Some((nlit, ndist, ncodelen, r)) => RunHeaderBody(r, nlit, ndist, ncodelen)
  }

  lemma FieldValue(bits: seq<bool>, n: nat, bound: nat)
    requires bound == Pow2(n)
    ensures |bits| >= n ==> LsbVal(bits[..n]) < bound
  {
    if |bits| >= n { LsbValBits(bits[..n]); }
  }

  function RunHeaderBody(bits: seq<bool>, nlit: nat, ndist: nat, ncodelen: nat): Option<(seq<nat>, seq<nat>, seq<bool>)>
    requires ncodelen <= 19
  {
    match ReadCodeLengths(bits, 0, ncodelen, Repeat<nat>(0, 19))
    case None => None
    case Some((cl, r)) => TableOfUsable(cl); TwoRuns(TableOf(cl), r, nlit, ndist)
  }

  function TwoRuns(t: Table, bits: seq<bool>, nlit: nat, ndist: nat): Option<(seq<nat>, seq<nat>, seq<bool>)>
    requires Usable(t)
  {
    match RunLengths(t, bits, nlit, [], 0)
    case None => None
    case Some((lit, r)) =>
      match RunLengths(t, r, ndist, [], 0)
      case None => None
      case Some((dist, rest)) => Some((lit, dist, rest))
  }

  // ----- Blocks

  /** Section 3.2.6 of RFC 1951. */
  const FIXED_LIT: seq<nat> := Repeat<nat>(8, 144) + Repeat<nat>(9, 112) + Repeat<nat>(7, 24) + Repeat<nat>(8, 8)
  const FIXED_DIST: seq<nat> := Repeat<nat>(5, 32)

  function RunCompressed(bits: seq<bool>, out: seq<byte>, lit: seq<nat>, dist: seq<nat>): Outcome {
    TableOfUsable(lit);
    TableOfUsable(dist);
    RunItems(bits, out, TableOf(lit), TableOf(dist))
  }

  function RunBody(btype: nat, bits: seq<bool>, out: seq<byte>): Outcome {
    if btype == 0 then RunStoredBlock(bits, out)
    else if btype == 1 then RunCompressed(bits, out, FIXED_LIT, FIXED_DIST)
    else if btype == 2 then
      match RunHeader(bits)
      case None => Fail(bits, out)
      case Some((lit, dist, rest)) => RunCompressed(rest, out, lit, dist)
    else Fail(bits, out)
  }

  datatype BlockEnd =
    | BlockFail(rest: seq<bool>, out: seq<byte>)
    | BlockDone(rest: seq<bool>, out: seq<byte>, final: bool)

  function RunBlock(bits: seq<bool>, out: seq<byte>): BlockEnd {
    match ReadBits(bits, 1)
    case None => BlockFail(bits, out)
    case Some((bfinal, r1)) =>
      match ReadBits(r1, 2)
      case None => BlockFail(bits, out)
      case Some((btype, r2)) =>
        match RunBody(btype, r2, out)
        case Fail(rest, o) => BlockFail(rest, o)
        case Done(rest, o) => BlockDone(rest, o, bfinal != 0)
  }

  // ----- What a block consumes and produces

  /** At most 129 bytes for each bit consumed: 1032 for each byte. */
  ghost predicate Bounded(bits: seq<bool>, out: seq<byte>, rest: seq<bool>, o: seq<byte>) {
    IsSuffix(rest, bits) && |out| <= |o| <= |out| + 129 * (|bits| - |rest|) && o[..|out|] == out
  }

  ghost predicate BoundedOutcome(bits: seq<bool>, out: seq<byte>, r: Outcome) {
    match r
    case Fail(rest, o) => Bounded(bits, out, rest, o)
    case Done(rest, o) => Bounded(bits, out, rest, o)
  }

  lemma BoundedAfter(bits: seq<bool>, out: seq<byte>, mid: seq<bool>, m: seq<byte>, r: Outcome)
    requires Bounded(bits, out, mid, m) && BoundedOutcome(mid, m, r)
    ensures BoundedOutcome(bits, out, r)
  {
    match r
    case Fail(rest, o) =>
      PrefixTrans(out, m, o);
      SuffixTrans(rest, mid, bits);
    case Done(rest, o) =>
      PrefixTrans(out, m, o);
      SuffixTrans(rest, mid, bits);
  }

  lemma PrefixTrans(a: seq<byte>, b: seq<byte>, c: seq<byte>)
    requires |a| <= |b| <= |c| && b[..|a|] == a && c[..|b|] == b
    ensures c[..|a|] == a
  {
    assert c[..|b|][..|a|] == c[..|a|];
  }

  lemma {:induction false} ItemsBounded(bits: seq<bool>, out: seq<byte>, lit: Table, dist: Table)
    requires Usable(lit) && Usable(dist)
    ensures BoundedOutcome(bits, out, RunItems(bits, out, lit, dist))
    ensures RunItems(bits, out, lit, dist).Done? ==> |RunItems(bits, out, lit, dist).rest| < |bits|
    decreases |bits|
  {
    ItemSuffix(bits, out, lit, dist);
    hide RunItem, Usable;
    match RunItem(bits, out, lit, dist)
    case Bad =>
    case EndOfBlock(rest) =>
    case More(rest, o) =>
      ItemsBounded(rest, o, lit, dist);
      BoundedAfter(bits, out, rest, o, RunItems(rest, o, lit, dist));
  }

  lemma {:induction false} StoredBounded(bits: seq<bool>, n: nat, out: seq<byte>)
    ensures BoundedOutcome(bits, out, RunStored(bits, n, out))
  {
    if n != 0 && |bits| >= 8 {
      ByteValue(bits);
      var o := out + [LsbVal(bits[..8])];
      StoredBounded(bits[8..], n - 1, o);
      BoundedAfter(bits, out, bits[8..], o, RunStored(bits[8..], n - 1, o));
    }
  }

  lemma StoredBlockBounded(bits: seq<bool>, out: seq<byte>)
    ensures BoundedOutcome(bits, out, RunStoredBlock(bits, out))
  {
    hide LsbVal, RunStored;
    var a := AlignToByte(bits);
    if |a| >= 32 {
      var len := LsbVal(a[..16]);
      var rest := a[16..][16..];
      StoredBounded(rest, len, out);
      SuffixTrans(rest, a[16..], a);
      SuffixTrans(rest, a, bits);
      BoundedAfter(bits, out, rest, out, RunStored(rest, len, out));
    }
  }

  lemma {:induction false} CodeLengthsSuffix(bits: seq<bool>, i: nat, n: nat, lens: seq<nat>)
    requires n <= 19 == |lens|
    requires AtMost(lens, 7)
    ensures match ReadCodeLengths(bits, i, n, lens)
            case None => true
            case Some((cl, rest)) => IsSuffix(rest, bits) && |cl| == 19 && AtMost(cl, 7)
    decreases n - i
  {
    if i < n && |bits| >= 3 {
      FieldValue(bits, 3, 8) by { assert Pow2(3) == 8; }
      var v, rest := LsbVal(bits[..3]), bits[3..];
      hide LsbVal, Pow2;
      CodeLengthsSuffix(rest, i + 1, n, lens[CODELEN_ORDER[i] := v]);
    }
  }

  lemma {:induction false} LengthsSuffix(t: Table, bits: seq<bool>, n: nat, lens: seq<nat>, prev: nat)
    requires Usable(t) && prev <= 15 && AtMost(lens, 15)
    ensures match RunLengths(t, bits, n, lens, prev)
            case None => true
            case Some((r, rest)) => IsSuffix(rest, bits) && AtMost(r, 15)
    decreases |bits|
  {
    StepSuffix(t, bits, prev);
    hide LengthStep, Usable;
    if |lens| < n {
      match LengthStep(t, bits, prev)
      case None =>
      case Some((run, rest)) => LengthsSuffix(t, rest, n, lens + run, run[|run| - 1]);
    }
  }

  /** A header only yields lengths of at most 15. */
  ghost predicate HeaderFits(bits: seq<bool>, h: Option<(seq<nat>, seq<nat>, seq<bool>)>) {
    match h
    case None => true
    case Some((lit, dist, rest)) =>
      && IsSuffix(rest, bits)
      && AtMost(lit, 15) && AtMost(dist, 15)
  }

  lemma HeaderBodySuffix(bits: seq<bool>, nlit: nat, ndist: nat, ncodelen: nat)
    requires ncodelen <= 19
    ensures HeaderFits(bits, RunHeaderBody(bits, nlit, ndist, ncodelen))
  {
    CodeLengthsSuffix(bits, 0, ncodelen, Repeat<nat>(0, 19));
    hide ReadCodeLengths, RunLengths, TableOf;
    match ReadCodeLengths(bits, 0, ncodelen, Repeat<nat>(0, 19))
    case None =>
    case Some((cl, r4)) =>
      TableOfUsable(cl);
      LengthsSuffix(TableOf(cl), r4, nlit, [], 0);
      match RunLengths(TableOf(cl), r4, nlit, [], 0)
      case None =>
      case Some((lit, r5)) => LengthsSuffix(TableOf(cl), r5, ndist, [], 0);
  }

  lemma HeaderSuffix(bits: seq<bool>)
    ensures HeaderFits(bits, RunHeader(bits))
  {
    hide ReadCounts, RunHeaderBody, HeaderFits;
    match ReadCounts(bits)
    case None => NoHeaderFits(bits);
    case Some((nlit, ndist, ncodelen, r)) =>
      HeaderBodySuffix(r, nlit, ndist, ncodelen);
      SuffixFits(bits, r, RunHeaderBody(r, nlit, ndist, ncodelen));
  }

  lemma NoHeaderFits(bits: seq<bool>)
    ensures HeaderFits(bits, None)
  {
  }

  lemma SuffixFits(bits: seq<bool>, r: seq<bool>, h: Option<(seq<nat>, seq<nat>, seq<bool>)>)
    requires IsSuffix(r, bits) && HeaderFits(r, h)
    ensures HeaderFits(bits, h)
  {
    hide AtMost;
    match h
    case None =>
    case Some((lit, dist, rest)) => SuffixTrans(rest, r, bits);
  }

  lemma BodyBounded(btype: nat, bits: seq<bool>, out: seq<byte>)
    ensures BoundedOutcome(bits, out, RunBody(btype, bits, out))
  {
    hide RunItems, RunStoredBlock, RunHeader, TableOf;
    StoredBlockBounded(bits, out);
    CompressedBounded(bits, out, FIXED_LIT, FIXED_DIST);
    HeaderSuffix(bits);
    match RunHeader(bits)
    case None =>
    case Some((lit, dist, rest)) =>
      CompressedBounded(rest, out, lit, dist);
      BoundedAfter(bits, out, rest, out, RunCompressed(rest, out, lit, dist));
  }

  lemma CompressedBounded(bits: seq<bool>, out: seq<byte>, lit: seq<nat>, dist: seq<nat>)
    ensures BoundedOutcome(bits, out, RunCompressed(bits, out, lit, dist))
  {
    TableOfUsable(lit);
    TableOfUsable(dist);
    hide TableOf, RunItems;
    ItemsBounded(bits, out, TableOf(lit), TableOf(dist));
  }

  /** A block consumes bits and yields at most 129 bytes for each of them. */
  lemma BlockBounded(bits: seq<bool>, out: seq<byte>)
    ensures match RunBlock(bits, out)
            case BlockFail(rest, o) => Bounded(bits, out, rest, o)
            case BlockDone(rest, o, final) => Bounded(bits, out, rest, o) && |rest| < |bits|
  {
    hide RunBody, LsbVal;
    if |bits| >= 3 {
      var btype, r := LsbVal(bits[1..][..2]), bits[1..][2..];
      BodyBounded(btype, r, out);
      BoundedAfter(bits, out, r, out, RunBody(btype, r, out));
    }
  }

  // ----- Streams

  function RunBlocks(bits: seq<bool>, out: seq<byte>): Outcome
    decreases |bits|
  {
    BlockBounded(bits, out);
    match RunBlock(bits, out)
    case BlockFail(rest, o) => Fail(rest, o)
    case BlockDone(rest, o, final) => if final then Done(rest, o) else RunBlocks(rest, o)
  }

  /** The whole decoder yields at most 129 bytes for each bit it has consumed, whether it succeeds or
      fails: 1032 for each byte. */
  lemma {:induction false} StreamBounded(bits: seq<bool>, out: seq<byte>)
    ensures BoundedOutcome(bits, out, RunBlocks(bits, out))
    decreases |bits|
  {
    BlockBounded(bits, out);
    hide RunBlock;
    match RunBlock(bits, out)
    case BlockFail(_, _) =>
    case BlockDone(rest, o, final) =>
      if !final {
        StreamBounded(rest, o);
        BoundedAfter(bits, out, rest, o, RunBlocks(rest, o));
      }
  }
}
