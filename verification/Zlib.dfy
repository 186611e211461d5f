/** deflate.lua, parse_zlib_header and inflate_zlib: the zlib wrapper of RFC 1950 around a
    DEFLATE stream, and the end-to-end round trip from bytes to bytes. */
module Zlib {
  import opened Bits
  import opened BitStreams
  import opened Window
  import opened BlockSpec
  import opened Decoder
  import opened Encoder
  import opened DeflateRoundTrip
  import opened DeflateSpec
  import BitOps

  // ----- What is decoded

  /** What the header fields allow: the window size, or None where the program raises an error. */
  function WindowSize(cm: nat, cinfo: nat, fcheck: nat, fdict: nat, flevel: nat): Option<nat> {
    var cmf, flg := cinfo * 16 + cm, fcheck + fdict * 32 + flevel * 64;
    if cm != 8 || cinfo > 7 || (cmf * 256 + flg) % 31 != 0 || fdict == 1 then None
    else Some(Pow2(cinfo + 8))
  }

  /** The two header bytes, field by field. */
  function ZlibHeader(bits: seq<bool>): Option<(nat, seq<bool>)> {
    match ReadBits(bits, 4)
    case None => None
    case Some((cm, r1)) =>
      match ReadBits(r1, 4)
      case None => None
      case Some((cinfo, r2)) =>
        match ReadBits(r2, 5)
        case None => None
        case Some((fcheck, r3)) =>
          match ReadBits(r3, 1)
          case None => None
          case Some((fdict, r4)) =>
            match ReadBits(r4, 2)
            case None => None
            case Some((flevel, rest)) =>
              match WindowSize(cm, cinfo, fcheck, fdict, flevel)
              case None => None
              case Some(w) => Some((w, rest))
  }

  /** The four bytes of the checksum, most significant first. */
  function ReadChecksum(bits: seq<bool>): Option<(nat, seq<bool>)> {
    match ReadBits(bits, 8)
    case None => None
    case Some((b3, r1)) =>
      match ReadBits(r1, 8)
      case None => None
      case Some((b2, r2)) =>
        match ReadBits(r2, 8)
        case None => None
        case Some((b1, r3)) =>
          match ReadBits(r3, 8)
          case None => None
          case Some((b0, rest)) => Some((((b3 * 256 + b2) * 256 + b1) * 256 + b0, rest))
  }

  datatype ZlibEnd =
    | ZlibFail(out: seq<byte>)
    | ZlibOk(out: seq<byte>, trailing: bool)

  function RunZlib(bits: seq<bool>, checked: bool): ZlibEnd {
    match ZlibHeader(bits)
    case None => ZlibFail([])
    case Some((windowSize, r)) =>
      match RunBlocks(r, [])
      case Fail(_, o) => ZlibFail(o)
      case Done(rest, o) => RunTrailer(AlignToByte(rest), o, checked)
  }

  function RunTrailer(bits: seq<bool>, out: seq<byte>, checked: bool): ZlibEnd {
    match ReadChecksum(bits)
    case None => ZlibFail(out)
    case Some((expected, rest)) =>
      if checked && AdlerOf(out) != expected then ZlibFail(out) else ZlibOk(out, rest != [])
  }

  // ----- The program

  method ParseZlibHeader(bs: BitStream) returns (windowSize: Option<nat>)
    requires Ready(bs)
    modifies bs
    ensures bs.Valid() && (windowSize.Some? ==> Ready(bs))
    ensures match ZlibHeader(old(bs.Remaining()))
            case None => windowSize == None
            case Some((w, rest)) => windowSize == Some(w) && bs.Remaining() == rest
  {
    hide ReadBits, Pow2;
    var cm := bs.Read(4);
    if cm.None? { return None; }
    var cinfo := bs.Read(4);
    if cinfo.None? { return None; }
    var fcheck := bs.Read(5);
    if fcheck.None? { return None; }
    var fdict := bs.Read(1);
    if fdict.None? { return None; }
    var flevel := bs.Read(2);
    if flevel.None? { return None; }
    windowSize := CheckHeader(cm.value, cinfo.value, fcheck.value, fdict.value, flevel.value);
  }

  method CheckHeader(cm: nat, cinfo: nat, fcheck: nat, fdict: nat, flevel: nat) returns (windowSize: Option<nat>)
    ensures windowSize == WindowSize(cm, cinfo, fcheck, fdict, flevel)
  {
    hide Pow2;
    var cmf := cinfo * 16 + cm;
    var flg := fcheck + fdict * 32 + flevel * 64;
    if cm != 8 { return None; }
    if cinfo > 7 { return None; }
    var size := Pow2(cinfo + 8);
    if (cmf * 256 + flg) % 31 != 0 { return None; }
    if fdict == 1 { return None; }
    windowSize := Some(size);
  }

  method ReadExpectedChecksum(bs: BitStream) returns (expected: Option<nat>)
    requires Ready(bs)
    modifies bs
    ensures bs.Valid() && (expected.Some? ==> Ready(bs))
    ensures match ReadChecksum(old(bs.Remaining()))
            case None => expected == None
            case Some((v, rest)) => expected == Some(v) && bs.Remaining() == rest
  {
    hide ReadBits;
    var b3 := bs.Read(8);
    if b3.None? { return None; }
    var b2 := bs.Read(8);
    if b2.None? { return None; }
    var b1 := bs.Read(8);
    if b1.None? { return None; }
    var b0 := bs.Read(8);
    if b0.None? { return None; }
    expected := Some(((b3.value * 256 + b2.value) * 256 + b1.value) * 256 + b0.value);
  }

  /** inflate_zlib on a string: the bytes it hands on, and whether it ends without an error. */
  method InflateZlib(input: seq<byte>, library: BitLibrary, disableCrc: bool) returns (ok: bool, out: seq<byte>, trailing: bool)
    ensures match RunZlib(BytesToBits(input), !disableCrc)
            case ZlibFail(o) => !ok && out == o
            case ZlibOk(o, t) => ok && out == o && trailing == t
  {
    hide ZlibHeader, RunBlocks, AlignToByte, ReadChecksum, BytesToBits, Holds, AdlerOf, LsbVal;
    var bs := new BitStream(input, library);
    var os := new OutState();
    trailing := false;
    var windowSize := ParseZlibHeader(bs);
    if windowSize.None? {
      return false, os.out, trailing;
    }
    ok := Inflate(bs, os);
    out := os.out;
    if !ok { return; }
    ghost var rest := bs.Remaining();
    bs.SkipToByte();
    AlignIs(rest);
    var expected := ReadExpectedChecksum(bs);
    if expected.None? {
      ok := false;
      return;
    }
    if !disableCrc && os.dataAdler32 != expected.value {
      ok := false;
      return;
    }
    var more := bs.Read(1);
    trailing := more.Some?;
  }

  lemma AlignIs(bits: seq<bool>)
    ensures AlignToByte(bits) == bits[|bits| % 8..]
  {
  }

  // ----- Bytes from bits

  function Pack(bits: seq<bool>): (s: seq<byte>)
    requires |bits| % 8 == 0
    decreases |bits|
  {
    if bits == [] then [] else ByteValue(bits); [LsbVal(bits[..8])] + Pack(bits[8..])
  }

  lemma {:induction false} PackedBits(bits: seq<bool>)
    requires |bits| % 8 == 0
    ensures BytesToBits(Pack(bits)) == bits
    decreases |bits|
  {
    if bits != [] {
      PackedBits(bits[8..]);
      ByteValue(bits);
      LsbValBits(bits[..8]);
      hide LsbVal, ToBits;
      assert Pack(bits)[1..] == Pack(bits[8..]);
      assert bits[..8] + bits[8..] == bits;
    }
  }

  lemma TwoBytes(a: byte, b: byte)
    ensures BytesToBits([a, b]) == ToBits(a, 8) + ToBits(b, 8)
  {
    hide ToBits;
    assert [a, b][1..] == [b] && [b][1..] == [];
    assert BytesToBits([b]) == ToBits(b, 8) + [];
  }

  lemma FourBytesBits(a: byte, b: byte, c: byte, d: byte)
    ensures BytesToBits([a, b, c, d]) == ToBits(a, 8) + (ToBits(b, 8) + (ToBits(c, 8) + ToBits(d, 8)))
  {
    hide ToBits, BytesToBits;
    TwoBytes(a, b);
    TwoBytes(c, d);
    BytesToBitsConcat([a, b], [c, d]);
    assert [a, b] + [c, d] == [a, b, c, d];
    Regroup(ToBits(a, 8), ToBits(b, 8), ToBits(c, 8) + ToBits(d, 8));
  }

  // ----- The header, byte by byte

  /** The conditions of section 2.2 of RFC 1950 on CMF and FLG, without a preset dictionary. */
  predicate HeaderBytesOk(cmf: byte, flg: byte) {
    cmf % 16 == 8 && cmf / 16 <= 7 && (cmf * 256 + flg) % 31 == 0 && flg / 32 % 2 == 0
  }

  /** A number of n + m bits is its n low bits and its m high bits. */
  lemma Fields(v: nat, low: nat, high: nat, n: nat, m: nat, p: nat)
    requires p == Pow2(n) && v == low + p * high && low < p
    ensures ToBits(v, n + m) == ToBits(low, n) + ToBits(high, m)
  {
    hide Pow2, ToBits;
    ShlIsProduct(high, n);
    ToBitsOfSum(low, n, high, m);
  }

  /** The header fields of the two bytes that open a zlib stream. */
  lemma HeaderFields(cmf: byte, flg: byte)
    ensures ToBits(cmf, 8) == ToBits(cmf % 16, 4) + ToBits(cmf / 16, 4)
    ensures ToBits(flg, 8) == ToBits(flg % 32, 5) + (ToBits(flg / 32 % 2, 1) + ToBits(flg / 64, 2))
  {
    hide Pow2, ToBits;
    SmallPowers();
    Fields(cmf, cmf % 16, cmf / 16, 4, 4, 16);
    Fields(flg, flg % 32, flg / 32, 5, 3, 32);
    Fields(flg / 32, flg / 32 % 2, flg / 64, 1, 2, 2);
  }

  lemma FieldsRoundTrip(cm: nat, cinfo: nat, fcheck: nat, fdict: nat, flevel: nat, rest: seq<bool>)
    requires cm < 16 && cinfo < 16 && fcheck < 32 && fdict < 2 && flevel < 4
    ensures ZlibHeader(ToBits(cm, 4) + (ToBits(cinfo, 4) + (ToBits(fcheck, 5) + (ToBits(fdict, 1) + (ToBits(flevel, 2) + rest)))))
         == match WindowSize(cm, cinfo, fcheck, fdict, flevel) case None => None case Some(w) => Some((w, rest))
  {
    hide Pow2, ToBits, ReadBits, WindowSize;
    SmallPowers();
    var t4 := ToBits(flevel, 2) + rest;
    var t3 := ToBits(fdict, 1) + t4;
    var t2 := ToBits(fcheck, 5) + t3;
    var t1 := ToBits(cinfo, 4) + t2;
    FieldRoundTrip(cm, 4, t1);
    FieldRoundTrip(cinfo, 4, t2);
    FieldRoundTrip(fcheck, 5, t3);
    FieldRoundTrip(fdict, 1, t4);
    FieldRoundTrip(flevel, 2, rest);
  }

  /** The header is accepted exactly when the standard's conditions on its two bytes hold. */
  lemma HeaderIff(cmf: byte, flg: byte, rest: seq<bool>)
    ensures ZlibHeader(ToBits(cmf, 8) + ToBits(flg, 8) + rest)
         == if HeaderBytesOk(cmf, flg) then Some((Pow2(cmf / 16 + 8), rest)) else None
  {
    hide Pow2, ToBits, ZlibHeader;
    HeaderFields(cmf, flg);
    var cm, cinfo, fcheck, fdict, flevel := cmf % 16, cmf / 16, flg % 32, flg / 32 % 2, flg / 64;
    Regroup(ToBits(cmf, 8), ToBits(flg, 8), rest);
    Regroup(ToBits(cm, 4), ToBits(cinfo, 4), ToBits(flg, 8) + rest);
    Regroup3(ToBits(fcheck, 5), ToBits(fdict, 1), ToBits(flevel, 2), rest);
    FieldsRoundTrip(cm, cinfo, fcheck, fdict, flevel, rest);
    assert cinfo * 16 + cm == cmf && fcheck + fdict * 32 + flevel * 64 == flg;
  }

  lemma ChecksumIs(a3: byte, a2: byte, a1: byte, a0: byte, rest: seq<bool>)
    ensures ReadChecksum(BytesToBits([a3, a2, a1, a0]) + rest) == Some((BitOps.FourBytes(a3, a2, a1, a0), rest))
  {
    hide ToBits, BytesToBits, ReadBits;
    FourBytesBits(a3, a2, a1, a0);
    Regroup4(ToBits(a3, 8), ToBits(a2, 8), ToBits(a1, 8), ToBits(a0, 8), rest);
    var t1 := ToBits(a0, 8) + rest;
    var t2 := ToBits(a1, 8) + t1;
    ByteRoundTrip(a3, ToBits(a2, 8) + t2);
    ByteRoundTrip(a2, t2);
    ByteRoundTrip(a1, t1);
    ByteRoundTrip(a0, rest);
  }

  lemma ByteRoundTrip(b: byte, rest: seq<bool>)
    ensures ReadBits(ToBits(b, 8) + rest, 8) == Some((b, rest))
  {
    hide ReadBits, ToBits;
    FieldRoundTrip(b, 8, rest) by { assert Pow2(8) == 256; }
  }

  // ----- End to end

  /** A zlib stream: header bytes, DEFLATE blocks padded to a byte, checksum bytes, and whatever follows. */
  function ZlibStream(cmf: byte, flg: byte, blocks: seq<Block>, pad: seq<bool>, sum: seq<byte>, extra: seq<byte>): seq<byte>
    requires BlocksOk(blocks, []) && |pad| == 7
  {
    [cmf, flg] + PackPadded(EncodeBlocks(blocks, [], 16), pad) + sum + extra
  }

  /** Bits filled up to whole bytes. */
  function PackPadded(bits: seq<bool>, pad: seq<bool>): seq<byte>
    requires |pad| == 7
  {
    PaddingLength(|bits|, pad);
    Pack(bits + Padding(|bits|, pad))
  }

  lemma StreamBits(cmf: byte, flg: byte, blocks: seq<Block>, pad: seq<bool>, sum: seq<byte>, extra: seq<byte>)
    requires BlocksOk(blocks, []) && |pad| == 7
    ensures var bits := EncodeBlocks(blocks, [], 16);
            BytesToBits(ZlibStream(cmf, flg, blocks, pad, sum, extra))
              == ToBits(cmf, 8) + ToBits(flg, 8) + (bits + (Padding(|bits|, pad) + (BytesToBits(sum) + BytesToBits(extra))))
  {
    hide EncodeBlocks, ToBits, Padding, BytesToBits, Pack;
    var bits := EncodeBlocks(blocks, [], 16);
    PaddingLength(|bits|, pad);
    var packed := PackPadded(bits, pad);
    PackedBits(bits + Padding(|bits|, pad));
    TwoBytes(cmf, flg);
    BytesToBitsConcat([cmf, flg], packed);
    BytesToBitsConcat([cmf, flg] + packed, sum);
    BytesToBitsConcat([cmf, flg] + packed + sum, extra);
    StreamRegroup(ToBits(cmf, 8) + ToBits(flg, 8), bits, Padding(|bits|, pad), BytesToBits(sum), BytesToBits(extra));
  }

  lemma StreamRegroup<T>(h: seq<T>, bits: seq<T>, pad: seq<T>, sum: seq<T>, extra: seq<T>)
    ensures h + (bits + pad) + sum + extra == h + (bits + (pad + (sum + extra)))
  {
  }

  /** inflate_zlib on a stream written by the encoder gives back what was encoded, and succeeds
      with checking on if and only if the stored checksum is that of the output. */
  lemma ZlibRoundTrip(cmf: byte, flg: byte, blocks: seq<Block>, pad: seq<bool>, a3: byte, a2: byte, a1: byte, a0: byte,
                      extra: seq<byte>, checked: bool)
    requires BlocksOk(blocks, []) && |pad| == 7
    ensures var out := BlocksOutput(blocks, []);
            RunZlib(BytesToBits(ZlibStream(cmf, flg, blocks, pad, [a3, a2, a1, a0], extra)), checked)
              == if !HeaderBytesOk(cmf, flg) then ZlibFail([])
                 else if checked && AdlerOf(out) != BitOps.FourBytes(a3, a2, a1, a0) then ZlibFail(out)
                 else ZlibOk(out, extra != [])
  {
    hide EncodeBlocks, ToBits, Padding, BytesToBits, Pack, ZlibHeader, RunBlocks, ReadChecksum, AlignToByte,
         BitOps.FourBytes, BlocksOutput, HeaderBytesOk, BlocksOk, AdlerOf, ZlibStream;
    var bits := EncodeBlocks(blocks, [], 16);
    var sum := [a3, a2, a1, a0];
    var trailer := BytesToBits(sum) + BytesToBits(extra);
    StreamBits(cmf, flg, blocks, pad, sum, extra);
    HeaderIff(cmf, flg, bits + (Padding(|bits|, pad) + trailer));
    PaddingLength(|bits|, pad);
    StreamRoundTrip(blocks, [], 16, Padding(|bits|, pad) + trailer);
    PaddingSkipped(|bits|, pad, trailer);
    ChecksumIs(a3, a2, a1, a0, BytesToBits(extra));
  }

  /** With checking on, exactly this trailer is accepted: the two sums of section 8.2 of RFC 1950, most
      significant byte first. */
  lemma AcceptedTrailer(cmf: byte, flg: byte, blocks: seq<Block>, pad: seq<bool>, a3: byte, a2: byte, a1: byte, a0: byte,
                        extra: seq<byte>)
    requires BlocksOk(blocks, []) && |pad| == 7 && HeaderBytesOk(cmf, flg)
    ensures var out := BlocksOutput(blocks, []);
            RunZlib(BytesToBits(ZlibStream(cmf, flg, blocks, pad, [a3, a2, a1, a0], extra)), true).ZlibOk? <==>
              16777216 * a3 + 65536 * a2 + 256 * a1 + a0
                == 65536 * ((|out| + WeightedSum(out)) % 65521) + (1 + Sum(out)) % 65521
  {
    hide BlocksOk, BlocksOutput, BytesToBits, HeaderBytesOk, AdlerOf, BitOps.FourBytes, ZlibStream, RunZlib, Sum, WeightedSum;
    ZlibRoundTrip(cmf, flg, blocks, pad, a3, a2, a1, a0, extra, true);
    AdlerClosedForm(BlocksOutput(blocks, []));
    BigEndianWord(a3, a2, a1, a0);
  }

  lemma BigEndianWord(a3: byte, a2: byte, a1: byte, a0: byte)
    ensures BitOps.FourBytes(a3, a2, a1, a0) == 16777216 * a3 + 65536 * a2 + 256 * a1 + a0
  {
  }
}
