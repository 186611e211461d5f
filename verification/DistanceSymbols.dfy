/** deflate.lua, the distance symbols that RFC 1951 reserves: the program's base table runs on to
    symbol 30, so a stream that uses it is decoded instead of refused. */
module DistanceSymbols {
  import opened Bits
  import opened BitStreams
  import opened Huffman
  import opened HuffmanRfc
  import opened HuffmanRead
  import opened HuffmanRoundTrip
  import opened Window
  import opened DeflateSpec
  import opened BlockSpec
  import opened Encoder

  lemma DistanceRange(i: nat)
    requires i < 30 == |DIST_BASE| == |DIST_EXTRA|
    ensures DIST_BASE[i] + Pow2(DIST_EXTRA[i]) <= 32769
  {
    SmallPowers();
    hide Pow2;
  }

  /** The decoded distance is one that the standard has (at most 32768) exactly when the symbol is
      below 30; symbol 30 gives 32769 or 32770, which the ring takes as 1 or 2. */
  lemma DistanceStandardIff(dist: Table, bits: seq<bool>)
    ensures match DistanceOf(dist, bits)
            case None => true
            case Some((d, rest)) =>
              && DecodeSymbol(dist, bits).Some?
              && var sym := DecodeSymbol(dist, bits).value.0;
                 && sym <= 30 && (1 <= d <= 32768 <==> sym < 30)
                 && (sym == 30 ==> Effective(d) == d - 32768 <= 2)
  {
    hide DecodeSymbol;
    TableSizes();
    match DecodeSymbol(dist, bits)
    case None =>
    case Some((sym, r)) =>
      if sym < 30 && |r| >= DIST_EXTRA[sym] {
        DistanceRange(sym);
        LsbValBits(r[..DIST_EXTRA[sym]]);
        hide DIST_BASE, DIST_EXTRA, LsbVal;
      } else if sym == 30 && |r| >= 1 {
        OneBitField(r[0], r[1..]);
        assert [r[0]] + r[1..] == r;
      }
  }

  lemma OneBitField(b: bool, rest: seq<bool>)
    ensures ReadBits([b] + rest, 1) == Some((BitVal(b), rest))
  {
    assert ([b] + rest)[..1] == [b] && ([b] + rest)[1..] == rest;
    assert LsbVal([b]) == BitVal(b) + 2 * LsbVal([b][1..]) && [b][1..] == [];
  }

  /** A match with distance symbol 30 and extra bit b copies from b + 1 bytes back, for every length
      symbol and whatever the codes are: the program accepts what the standard excludes. */
  lemma SymbolThirtyCopies(sym: nat, x: nat, dist: seq<nat>, top: nat, b: bool, out: seq<byte>, rest: seq<bool>)
    requires 257 <= sym <= 285 && |LEN_BASE| == |LEN_EXTRA| == 29 && x < Pow2(LEN_EXTRA[sym - 257])
    requires Kraft(dist, top) && HasCode(dist, 30)
    ensures RunMatch(sym, ToBits(x, LEN_EXTRA[sym - 257]) + (SymbolBits(dist, 30) + ([b] + rest)), out, TableOf(dist))
         == if |out| > BitVal(b) then More(rest, Copy(out, 1 + BitVal(b), LEN_BASE[sym - 257] + x)) else Bad
  {
    hide LengthOf, DistanceOf, TableOf, SymbolBits, Kraft, BitVal, Effective, Copy, ToBits, LEN_BASE, LEN_EXTRA, Pow2;
    SymbolThirtyDistance(dist, top, b, rest);
    AnyLength(sym, x, SymbolBits(dist, 30) + ([b] + rest));
    EffectiveThirty(b);
  }

  lemma EffectiveThirty(b: bool)
    ensures Effective(32769 + BitVal(b)) == 1 + BitVal(b)
  {
  }

  lemma SymbolThirtyDistance(dist: seq<nat>, top: nat, b: bool, rest: seq<bool>)
    requires Kraft(dist, top) && HasCode(dist, 30)
    ensures DistanceOf(TableOf(dist), SymbolBits(dist, 30) + ([b] + rest)) == Some((32769 + BitVal(b), rest))
  {
    hide DecodeSymbol, TableOf, SymbolBits, Kraft, ReadBits, BitVal;
    SymbolRoundTrip(dist, top, 30, [b] + rest);
    OneBitField(b, rest);
  }

  lemma AnyLength(sym: nat, x: nat, more: seq<bool>)
    requires 257 <= sym <= 285 && |LEN_BASE| == |LEN_EXTRA| == 29 && x < Pow2(LEN_EXTRA[sym - 257])
    ensures LengthOf(sym, ToBits(x, LEN_EXTRA[sym - 257]) + more) == Some((LEN_BASE[sym - 257] + x, more))
  {
    hide LEN_BASE, LEN_EXTRA, ToBits, ReadBits, Pow2;
    FieldRoundTrip(x, LEN_EXTRA[sym - 257], more);
  }

  /** A length of 258 is decoded from symbol 284 with all its extra bits set, as from symbol 285. */
  lemma LongestLengthTwice(rest: seq<bool>)
    ensures LengthOf(284, ToBits(31, 5) + rest) == LengthOf(285, rest) == Some((258, rest))
  {
    SmallPowers();
    TableSizes();
    assert LEN_EXTRA[27] == 5 && LEN_EXTRA[28] == 0 && LEN_BASE[27] == 227 && LEN_BASE[28] == 258;
    hide LEN_BASE, LEN_EXTRA, ToBits, Pow2;
    AnyLength(284, 31, rest);
    AnyLength(285, 0, rest);
    NoBitsToRead(rest);
  }

  lemma NoBitsToRead(rest: seq<bool>)
    ensures ToBits(0, 0) + rest == rest
  {
  }

  /** Every larger distance symbol has no base: the run fails, as the standard asks for 30 too. */
  lemma HigherSymbolsFail(sym: nat, x: nat, dist: seq<nat>, top: nat, high: nat, out: seq<byte>, rest: seq<bool>)
    requires 257 <= sym <= 285 && |LEN_BASE| == |LEN_EXTRA| == 29 && x < Pow2(LEN_EXTRA[sym - 257])
    requires Kraft(dist, top) && high > 30 && HasCode(dist, high)
    ensures RunMatch(sym, ToBits(x, LEN_EXTRA[sym - 257]) + (SymbolBits(dist, high) + rest), out, TableOf(dist)) == Bad
  {
    hide DecodeSymbol, TableOf, SymbolBits, Kraft, LengthOf, ToBits, LEN_BASE, LEN_EXTRA, Pow2;
    SymbolRoundTrip(dist, top, high, rest);
    AnyLength(sym, x, SymbolBits(dist, high) + rest);
  }

  // ----- How much a stream can expand

  lemma BitsPerByte(s: seq<byte>)
    ensures |BytesToBits(s)| == 8 * |s|
  {
  }

  /** Inflating hands on at most 1032 bytes for each byte of input, whether it succeeds or fails. */
  lemma ExpansionBound(input: seq<byte>)
    ensures match RunBlocks(BytesToBits(input), [])
            case Fail(_, out) => |out| <= 1032 * |input|
            case Done(rest, out) => |out| <= 1032 * |input|
  {
    hide RunBlocks, BytesToBits;
    BitsPerByte(input);
    StreamBounded(BytesToBits(input), []);
  }
}
