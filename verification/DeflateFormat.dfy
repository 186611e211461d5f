/** The format of sections 3.2.3 to 3.2.7 of RFC 1951 in numbers: which bits stand for what, without the tables
    and the encoder of the other files. */
module DeflateFormat {
  import opened Bits
  import opened BitStreams
  import opened Huffman
  import opened HuffmanRfc
  import opened HuffmanRead
  import opened HuffmanRoundTrip
  import opened Window
  import opened DeflateSpec
  import opened BlockSpec
  import opened Encoder
  import opened DeflateRoundTrip
  import opened DistanceSymbols
  import opened Zlib

  // ----- The order of the code length code lengths

  /** Field i of the header belongs to 16, 17, 18 and 0, then to 8, 7, 9, 6 and so on outward to 1 and 15. */
  lemma OrderIs(i: nat)
    requires i < 19
    ensures |CODELEN_ORDER| == 19
    ensures CODELEN_ORDER[i] == if i < 3 then 16 + i else if i == 3 then 0
                                else if i % 2 == 0 then 8 + (i - 4) / 2 else 7 - (i - 5) / 2
  {
  }

  /** Reading n of the three-bit fields, the lowest bit first: field i gives the length of its symbol, and
      the symbols of the fields that are not there get length 0. */
  lemma CodeLengthFields(bits: seq<bool>, n: nat, i: nat)
    requires n <= 19 && i < 19 && |bits| >= 3 * n
    ensures match ReadCodeLengths(bits, 0, n, Repeat<nat>(0, 19))
            case None => false
            case Some((cl, rest)) =>
              && rest == bits[3 * n..] && |cl| == 19
              && cl[if i < 3 then 16 + i else if i == 3 then 0 else if i % 2 == 0 then 8 + (i - 4) / 2 else 7 - (i - 5) / 2]
                   == if i >= n then 0
                      else (if bits[3 * i] then 1 else 0) + (if bits[3 * i + 1] then 2 else 0) + (if bits[3 * i + 2] then 4 else 0)
  {
    hide CODELEN_ORDER, ReadCodeLengths, LsbVal;
    FieldsFrom(bits, 0, n, Repeat<nat>(0, 19), i);
    OrderIs(i);
    if i < n {
      ThreeBits(bits[3 * i], bits[3 * i + 1], bits[3 * i + 2]);
      assert bits[3 * i..3 * i + 3] == [bits[3 * i], bits[3 * i + 1], bits[3 * i + 2]];
    }
  }

  lemma ThreeBits(b0: bool, b1: bool, b2: bool)
    ensures LsbVal([b0, b1, b2]) == (if b0 then 1 else 0) + (if b1 then 2 else 0) + (if b2 then 4 else 0)
  {
    assert [b0, b1, b2][1..] == [b1, b2] && [b1, b2][1..] == [b2] && [b2][1..] == [];
    assert LsbVal([b2]) == BitVal(b2) + 2 * LsbVal([]);
    assert LsbVal([b1, b2]) == BitVal(b1) + 2 * LsbVal([b2]);
  }

  lemma {:induction false} FieldsFrom(bits: seq<bool>, k: nat, n: nat, lens: seq<nat>, j: nat)
    requires k <= n <= 19 == |lens| && j < 19 && |bits| >= 3 * (n - k)
    ensures |CODELEN_ORDER| == 19 && CODELEN_ORDER[j] < 19
    ensures match ReadCodeLengths(bits, k, n, lens)
            case None => false
            case Some((cl, rest)) =>
              && rest == bits[3 * (n - k)..] && |cl| == 19
              && cl[CODELEN_ORDER[j]] == if k <= j < n then LsbVal(bits[3 * (j - k)..3 * (j - k) + 3]) else lens[CODELEN_ORDER[j]]
    decreases n - k
  {
    hide LsbVal;
    OrderIsPermutation(j);
    if k < n {
      OrderIsPermutation(k);
      hide CODELEN_ORDER;
      var v := LsbVal(bits[..3]);
      FieldsFrom(bits[3..], k + 1, n, lens[CODELEN_ORDER[k] := v], j);
      assert bits[3..][3 * (n - k - 1)..] == bits[3 * (n - k)..];
      if k < j < n { assert bits[3..][3 * (j - k - 1)..3 * (j - k - 1) + 3] == bits[3 * (j - k)..3 * (j - k) + 3]; }
    }
  }

  // ----- The header of a dynamic block

  /** Five bits for the number of literal codes beyond 257, five for that of distance codes beyond 1, four for
      that of code length codes beyond 4. */
  lemma HeaderCountFields(hlit: nat, hdist: nat, hclen: nat, rest: seq<bool>)
    requires hlit < 32 && hdist < 32 && hclen < 16
    ensures RunHeader(ToBits(hlit, 5) + (ToBits(hdist, 5) + (ToBits(hclen, 4) + rest)))
         == RunHeaderBody(rest, hlit + 257, hdist + 1, hclen + 4)
  {
    hide RunHeaderBody, ToBits, ReadBits, Pow2;
    SmallPowers();
    var t2 := ToBits(hclen, 4) + rest;
    var t1 := ToBits(hdist, 5) + t2;
    FieldRoundTrip(hlit, 5, t1);
    FieldRoundTrip(hdist, 5, t2);
    FieldRoundTrip(hclen, 4, rest);
  }

  /** Symbols 0 to 15 are lengths; 16 repeats the last length 3 to 6 times, 17 and 18 stand for 3 to 10 and
      for 11 to 138 zeros; the numbers are stored beyond the smallest, in 2, 3 and 7 bits. */
  lemma LengthSymbols(t: Table, bits: seq<bool>, prev: nat, sym: nat, x: nat, rest: seq<bool>)
    requires sym == 16 ==> x < 4
    requires sym == 17 ==> x < 8
    requires sym == 18 ==> x < 128
    requires DecodeSymbol(t, bits) == Some((sym, ToBits(x, if sym == 16 then 2 else if sym == 17 then 3 else if sym == 18 then 7 else 0) + rest))
    ensures LengthStep(t, bits, prev)
         == if sym <= 15 then Some(([sym], rest))
            else if sym == 16 then Some((seq(3 + x, i => prev), rest))
            else if sym == 17 then Some((seq(3 + x, i => 0), rest))
            else if sym == 18 then Some((seq(11 + x, i => 0), rest))
            else None
  {
    SmallPowers();
    assert ToBits(x, 0) + rest == rest;
    hide DecodeSymbol, Pow2, ToBits, ReadBits;
    if sym == 16 {
      FieldRoundTrip(x, 2, rest);
      assert Repeat<nat>(prev, 3 + x) == seq(3 + x, i => prev);
    } else if sym == 17 {
      FieldRoundTrip(x, 3, rest);
      assert Repeat<nat>(0, 3 + x) == seq(3 + x, i => 0);
    } else if sym == 18 {
      FieldRoundTrip(x, 7, rest);
      assert Repeat<nat>(0, 11 + x) == seq(11 + x, i => 0);
    }
  }

  /** Bit i of a number comes i-th. */
  lemma {:induction false} LowestBitFirst(v: nat, n: nat, i: nat)
    requires i < n
    ensures ToBits(v, n)[i] == Bit(v, i)
  {
    if i != 0 { LowestBitFirst(v / 2, n - 1, i - 1); }
  }

  // ----- Blocks

  /** A block begins with one bit that marks the last one and two bits of type, the lower one first. */
  lemma BlockFields(final: bool, low: bool, high: bool, rest: seq<bool>, out: seq<byte>)
    ensures RunBlock([final] + ([low, high] + rest), out)
         == match RunBody((if low then 1 else 0) + (if high then 2 else 0), rest, out)
            case Fail(r, o) => BlockFail(r, o)
            case Done(r, o) => BlockDone(r, o, final)
  {
    hide RunBody;
    OneBitField(final, [low, high] + rest);
    assert ([low, high] + rest)[..2] == [low, high] && ([low, high] + rest)[2..] == rest;
    assert [low, high][1..] == [high] && [high][1..] == [];
    assert LsbVal([high]) == BitVal(high) + 2 * LsbVal([]);
  }

  /** Type 0: bits up to the byte boundary, a length, a second length that is not looked at, the bytes. */
  lemma StoredBody(pad: seq<bool>, data: seq<byte>, nlen: nat, rest: seq<bool>, out: seq<byte>)
    requires |pad| < 8 && |data| < 65536 && nlen < 65536 && |rest| % 8 == 0
    ensures RunBody(0, pad + (ToBits(|data|, 16) + (ToBits(nlen, 16) + (BytesToBits(data) + rest))), out) == Done(rest, out + data)
  {
    hide ToBits, ReadBits, BytesToBits, Pow2, RunStored;
    SmallPowers();
    var t2 := ToBits(nlen, 16) + (BytesToBits(data) + rest);
    var bits := ToBits(|data|, 16) + t2;
    PadIsCut(pad, bits);
    FieldRoundTrip(|data|, 16, t2);
    FieldRoundTrip(nlen, 16, BytesToBits(data) + rest);
    StoredRoundTrip(data, out, rest);
  }

  lemma PadIsCut(pad: seq<bool>, bits: seq<bool>)
    requires |pad| < 8 && |bits| % 8 == 0
    ensures AlignToByte(pad + bits) == bits
  {
    assert |pad + bits| % 8 == |pad|;
    assert (pad + bits)[|pad|..] == bits;
  }

  /** Type 3 is an error. */
  lemma ReservedBody(rest: seq<bool>, out: seq<byte>)
    ensures RunBody(3, rest, out).Fail?
  {
  }

  // ----- The fixed codes

  lemma {:induction false} CountRange(lens: seq<nat>, n: nat, lo: nat, hi: nat, v: nat)
    requires lo <= hi <= |lens| && forall k :: lo <= k < hi ==> lens[k] == v
    ensures CountBelow(lens, n, hi) == CountBelow(lens, n, lo) + if v == n then hi - lo else 0
    decreases hi - lo
  {
    if lo < hi { CountRange(lens, n, lo, hi - 1, v); }
  }

  lemma FixedLengths()
    ensures |FIXED_LIT| == 288 && |FIXED_DIST| == 32
    ensures forall k :: 0 <= k < 144 ==> FIXED_LIT[k] == 8
    ensures forall k :: 144 <= k < 256 ==> FIXED_LIT[k] == 9
    ensures forall k :: 256 <= k < 280 ==> FIXED_LIT[k] == 7
    ensures forall k :: 280 <= k < 288 ==> FIXED_LIT[k] == 8
    ensures forall k :: 0 <= k < 32 ==> FIXED_DIST[k] == 5
  {
  }

  lemma FixedCount(n: nat, val: nat)
    requires val <= 288
    ensures |FIXED_LIT| == 288
    ensures n == 8 ==> CountBelow(FIXED_LIT, n, val) == if val <= 144 then val else if val <= 280 then 144 else val - 136
    ensures n == 9 ==> CountBelow(FIXED_LIT, n, val) == if val <= 144 then 0 else if val <= 256 then val - 144 else 112
    ensures n == 7 ==> CountBelow(FIXED_LIT, n, val) == if val <= 256 then 0 else if val <= 280 then val - 256 else 24
    ensures n < 7 ==> CountBelow(FIXED_LIT, n, val) == 0
  {
    FixedLengths();
    hide FIXED_LIT;
    var l := FIXED_LIT;
    assert CountBelow(l, n, 0) == 0;
    hide CountBelow;
    CountRange(l, n, 0, Min(val, 144), 8);
    if val > 144 { CountRange(l, n, 144, Min(val, 256), 9); }
    if val > 256 { CountRange(l, n, 256, Min(val, 280), 7); }
    if val > 280 { CountRange(l, n, 280, val, 8); }
  }

  lemma {:induction false} NoShortCodes(lens: seq<nat>, n: nat)
    requires forall m :: 0 <= m < n ==> BlCount(lens, m) == 0
    ensures FirstCode(lens, n) == 0
  {
    hide BlCount;
    if n != 0 { NoShortCodes(lens, n - 1); }
  }

  lemma FixedFirstCodes()
    ensures FirstCode(FIXED_LIT, 7) == 0 && FirstCode(FIXED_LIT, 8) == 48 && FirstCode(FIXED_LIT, 9) == 400
  {
    FixedLengths();
    hide FIXED_LIT, CountBelow;
    forall m | 0 <= m < 7 ensures BlCount(FIXED_LIT, m) == 0 { FixedCount(m, 288); }
    FixedCount(7, 288);
    FixedCount(8, 288);
    assert BlCount(FIXED_LIT, 7) == 24 && BlCount(FIXED_LIT, 8) == 152;
    NoShortCodes(FIXED_LIT, 7);
    hide BlCount;
    assert FirstCode(FIXED_LIT, 8) == 2 * (FirstCode(FIXED_LIT, 7) + BlCount(FIXED_LIT, 7));
    assert FirstCode(FIXED_LIT, 9) == 2 * (FirstCode(FIXED_LIT, 8) + BlCount(FIXED_LIT, 8));
  }

  /** The code of a symbol of the fixed literal and length code, and its length. */
  function FixedCode(sym: nat): (nat, nat)
    requires sym < 288
  {
    if sym < 144 then (48 + sym, 8)
    else if sym < 256 then (256 + sym, 9)
    else if sym < 280 then (sym - 256, 7)
    else (sym - 88, 8)
  }

  lemma FixedSymbolIs(sym: nat, rest: seq<bool>)
    requires sym < 288
    ensures |FIXED_LIT| == 288
    ensures DecodeSymbol(TableOf(FIXED_LIT), MsbBits(FixedCode(sym).0, FixedCode(sym).1) + rest) == Some((sym, rest))
  {
    FixedLengths();
    FixedKraft();
    hide FIXED_LIT, DecodeSymbol, TableOf, Kraft, MsbBits, CountBelow, FirstCode;
    FixedFirstCodes();
    FixedCount(FIXED_LIT[sym], sym);
    SymbolRoundTrip(FIXED_LIT, 15, sym, rest);
  }

  lemma FixedDistanceIs(sym: nat, rest: seq<bool>)
    requires sym < 32
    ensures |FIXED_DIST| == 32
    ensures DecodeSymbol(TableOf(FIXED_DIST), MsbBits(sym, 5) + rest) == Some((sym, rest))
  {
    FixedLengths();
    FixedKraft();
    hide FIXED_DIST, FIXED_LIT, DecodeSymbol, TableOf, Kraft, MsbBits;
    var l := FIXED_DIST;
    assert CountBelow(l, 5, 0) == 0;
    hide CountBelow;
    CountRange(l, 5, 0, sym, 5);
    forall m | 0 <= m < 5 ensures BlCount(l, m) == 0 {
      assert CountBelow(l, m, 0) == 0 by { NothingBelow(l, m); }
      CountRange(l, m, 0, 32, 5);
    }
    NoShortCodes(l, 5);
    SymbolRoundTrip(l, 15, sym, rest);
  }

  lemma NothingBelow(lens: seq<nat>, n: nat)
    ensures CountBelow(lens, n, 0) == 0
  {
  }

  // ----- The items of a block of type 1

  /** The fixed codes of section 3.2.6: literals 0 to 143 are the codes from 00110000 on, 144 to 255 those from
      110010000 on, and the end of the block is 0000000, highest bit first. */
  lemma FixedLiterals(b: byte, rest: seq<bool>, out: seq<byte>)
    ensures b < 144 ==> RunBody(1, MsbBits(0x30 + b, 8) + rest, out) == RunBody(1, rest, out + [b])
    ensures b >= 144 ==> RunBody(1, MsbBits(0x190 + (b - 144), 9) + rest, out) == RunBody(1, rest, out + [b])
    ensures RunBody(1, MsbBits(0, 7) + rest, out) == Done(rest, out)
  {
    hide FIXED_LIT, FIXED_DIST, DecodeSymbol, TableOf, MsbBits, Usable;
    FixedSymbolIs(b, rest);
    FixedSymbolIs(256, rest);
    TableOfUsable(FIXED_LIT);
    TableOfUsable(FIXED_DIST);
  }

  /** The number of extra bits and the smallest length of length symbol 257 + i. */
  function LengthExtra(i: nat): nat
    requires i < 29
  {
    if i < 8 || i == 28 then 0 else (i - 4) / 4
  }

  function LengthBase(i: nat): nat
    requires i < 29
  {
    if i < 8 then 3 + i else if i == 28 then 258 else 3 + (4 + i % 4) * Pow2(LengthExtra(i))
  }

  /** The same for distance symbol j. */
  function DistanceExtra(j: nat): nat
    requires j < 30
  {
    if j < 4 then 0 else (j - 2) / 2
  }

  function DistanceBase(j: nat): nat
    requires j < 30
  {
    if j < 4 then 1 + j else 1 + (2 + j % 2) * Pow2(DistanceExtra(j))
  }

  /** The tables of section 3.2.5 in closed form. */
  lemma LengthTable(i: nat)
    requires i < 29
    ensures |LEN_BASE| == |LEN_EXTRA| == 29 && LEN_EXTRA[i] == LengthExtra(i) && LEN_BASE[i] == LengthBase(i)
  {
    SmallPowers();
    hide Pow2;
  }

  lemma DistanceTable(j: nat)
    requires j < 30
    ensures |DIST_BASE| == |DIST_EXTRA| == 30 && DIST_EXTRA[j] == DistanceExtra(j) && DIST_BASE[j] == DistanceBase(j)
  {
    SmallPowers();
    hide Pow2;
  }

  lemma LengthField(i: nat, x: nat, rest: seq<bool>)
    requires i < 29 && x < Pow2(LengthExtra(i))
    ensures LengthOf(257 + i, ToBits(x, LengthExtra(i)) + rest) == Some((LengthBase(i) + x, rest))
  {
    LengthTable(i);
    hide LEN_BASE, LEN_EXTRA, LengthBase, LengthExtra, ReadBits, ToBits, Pow2;
    FieldRoundTrip(x, LengthExtra(i), rest);
  }

  lemma DistanceField(j: nat, y: nat, rest: seq<bool>)
    requires j < 30 && y < Pow2(DistanceExtra(j))
    ensures DistanceOf(TableOf(FIXED_DIST), MsbBits(j, 5) + (ToBits(y, DistanceExtra(j)) + rest)) == Some((DistanceBase(j) + y, rest))
  {
    hide DIST_BASE, DIST_EXTRA, DistanceBase, DistanceExtra, ReadBits, ToBits, Pow2, FIXED_DIST, DecodeSymbol, TableOf, MsbBits;
    DistanceTable(j);
    FixedDistanceIs(j, ToBits(y, DistanceExtra(j)) + rest);
    FieldRoundTrip(y, DistanceExtra(j), rest);
  }

  /** A match: the length symbol and its extra bits, five bits of distance symbol and its extra bits, the
      extra bits lowest first. */
  lemma FixedMatch(i: nat, x: nat, j: nat, y: nat, rest: seq<bool>, out: seq<byte>)
    requires i < 29 && x < Pow2(LengthExtra(i)) && j < 30 && y < Pow2(DistanceExtra(j))
    ensures 1 <= DistanceBase(j) + y <= 32768
    ensures var symbol := if i < 23 then MsbBits(1 + i, 7) else MsbBits(0xC0 + (i - 23), 8);
            var d, len := DistanceBase(j) + y, LengthBase(i) + x;
            RunBody(1, symbol + (ToBits(x, LengthExtra(i)) + (MsbBits(j, 5) + (ToBits(y, DistanceExtra(j)) + rest))), out)
              == if d <= |out| then RunBody(1, rest, Copy(out, d, len))
                 else Fail(symbol + (ToBits(x, LengthExtra(i)) + (MsbBits(j, 5) + (ToBits(y, DistanceExtra(j)) + rest))), out)
  {
    hide FIXED_LIT, FIXED_DIST, DecodeSymbol, TableOf, MsbBits, Usable, ToBits, Pow2, LengthExtra, LengthBase, DistanceExtra,
         DistanceBase, RunMatch, Copy;
    var r0 := ToBits(x, LengthExtra(i)) + (MsbBits(j, 5) + (ToBits(y, DistanceExtra(j)) + rest));
    FixedSymbolIs(257 + i, r0);
    MatchFields(i, x, j, y, rest, out);
    TableOfUsable(FIXED_LIT);
    TableOfUsable(FIXED_DIST);
  }

  lemma MatchFields(i: nat, x: nat, j: nat, y: nat, rest: seq<bool>, out: seq<byte>)
    requires i < 29 && x < Pow2(LengthExtra(i)) && j < 30 && y < Pow2(DistanceExtra(j))
    ensures 1 <= DistanceBase(j) + y <= 32768
    ensures var d := DistanceBase(j) + y;
            RunMatch(257 + i, ToBits(x, LengthExtra(i)) + (MsbBits(j, 5) + (ToBits(y, DistanceExtra(j)) + rest)), out, TableOf(FIXED_DIST))
              == if d <= |out| then More(rest, Copy(out, d, LengthBase(i) + x)) else Bad
  {
    hide FIXED_DIST, TableOf, MsbBits, ToBits, Pow2, LengthExtra, LengthBase, DistanceExtra, DistanceBase, LengthOf, DistanceOf,
         Copy, Effective, DIST_BASE, DIST_EXTRA;
    DistanceTable(j);
    DistanceRange(j);
    DistanceAtLeast(j);
    LengthField(i, x, MsbBits(j, 5) + (ToBits(y, DistanceExtra(j)) + rest));
    DistanceField(j, y, rest);
  }

  lemma DistanceAtLeast(j: nat)
    requires j < 30
    ensures DistanceBase(j) >= 1
  {
    hide Pow2;
  }

  // ----- A stream in numbers

  const T: bool := true
  const F: bool := false

  lemma KnownBytes()
    ensures ToBits(75, 8) == [T, T, F, T, F, F, T, F] && ToBits(132, 8) == [F, F, T, F, F, F, F, T]
    ensures ToBits(3, 8) == [T, T, F, F, F, F, F, F] && ToBits(0, 8) == [F, F, F, F, F, F, F, F]
  {
    hide ToBits, Pow2;
    SmallPowers();
    KnownNibbles();
    Fields(75, 11, 4, 4, 4, 16);
    Fields(132, 4, 8, 4, 4, 16);
    Fields(3, 3, 0, 4, 4, 16);
    Fields(0, 0, 0, 4, 4, 16);
  }

  lemma KnownNibbles()
    ensures ToBits(11, 4) == [T, T, F, T] && ToBits(4, 4) == [F, F, T, F] && ToBits(8, 4) == [F, F, F, T]
    ensures ToBits(3, 4) == [T, T, F, F] && ToBits(0, 4) == [F, F, F, F]
  {
  }

  lemma KnownBits()
    ensures BytesToBits([75, 132, 3, 0])
         == [T] + ([T, F] + ([T, F, F, T, F, F, F, T] + ([F, F, F, F, T, T, T] + ([] + ([F, F, F, F, F] + ([] + ([F, F, F, F, F, F, F] + [F, F])))))))
  {
    KnownBytes();
    hide ToBits;
    FourBytesBits(75, 132, 3, 0);
    hide BytesToBits;
  }

  lemma KnownCodes()
    ensures MsbBits(0x91, 8) == [T, F, F, T, F, F, F, T] && MsbBits(7, 7) == [F, F, F, F, T, T, T]
    ensures MsbBits(0, 5) == [F, F, F, F, F] && MsbBits(0, 7) == [F, F, F, F, F, F, F]
    ensures LengthBase(6) == 9 && LengthExtra(6) == 0 && DistanceBase(0) == 1 && DistanceExtra(0) == 0
    ensures Pow2(0) == 1 && ToBits(0, 0) == []
  {
  }

  /** The bytes 4B 84 03 00 are the letter a and a match of length 9 at distance 1: ten times the letter. */
  lemma KnownStream()
    ensures RunBlocks(BytesToBits([75, 132, 3, 0]), []) == Done([false, false], [97, 97, 97, 97, 97, 97, 97, 97, 97, 97])
  {
    hide RunBody, ToBits, MsbBits, BytesToBits, LengthBase, LengthExtra, DistanceBase, DistanceExtra, Pow2, Copy;
    KnownBits();
    KnownCodes();
    var end := [F, F, F, F, F, F, F] + [F, F];
    var match_ := [F, F, F, F, T, T, T] + ([] + ([F, F, F, F, F] + ([] + end)));
    FixedLiterals(97, match_, []);
    assert [] + [97 as byte] == [97];
    FixedMatch(6, 0, 0, 0, end, [97]);
    TenLetters();
    FixedLiterals(0, [F, F], [97, 97, 97, 97, 97, 97, 97, 97, 97, 97]);
    BlockFields(T, T, F, [T, F, F, T, F, F, F, T] + match_, []);
    hide RunBlock;
  }

  lemma TenLetters()
    ensures Copy([97], 1, 9) == [97, 97, 97, 97, 97, 97, 97, 97, 97, 97]
  {
    forall k: nat | k < 10 ensures Copy([97], 1, 9)[k] == 97 { SameLetter(k); }
  }

  lemma {:induction false} SameLetter(k: nat)
    requires k < 10
    ensures Copy([97], 1, 9)[k] == 97
  {
    hide Copy;
    if k == 0 {
      assert Copy([97], 1, 9)[..1] == [97];
    } else {
      CopyIsPeriodic([97], 1, 9, k);
      SameLetter(k - 1);
    }
  }
}
