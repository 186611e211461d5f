/** The other direction of the round trip, for symbols and items: what is decoded as a standard item
    was written as the encoder writes it. */
module ItemConverse {
  import opened Bits
  import opened BitStreams
  import opened Huffman
  import opened HuffmanRfc
  import opened HuffmanRead
  import opened HuffmanRoundTrip
  import opened Window
  import opened DeflateSpec
  import opened BlockSpec
  import opened Encoder
  import opened DeflateRoundTrip

  // ----- Fields and symbols

  lemma FieldIs(bits: seq<bool>, n: nat, v: nat, rest: seq<bool>)
    requires ReadBits(bits, n) == Some((v, rest))
    ensures v < Pow2(n) && bits == ToBits(v, n) + rest
  {
    LsbValBits(bits[..n]);
    assert bits[..n] + bits[n..] == bits;
  }

  /** Decoding one bit at a time finds the code that the bits read so far make up. */
  lemma {:induction false} DecodeIs(look: map<nat, nat>, code: nat, bits: seq<bool>, v: nat, rest: seq<bool>) returns (w: seq<bool>)
    requires DecodeFrom(look, code, bits) == Some((v, rest))
    ensures bits == w + rest && Feed(code, w) in look && look[Feed(code, w)] == v
    decreases |bits|
  {
    if code in look {
      w := [];
    } else {
      var u := DecodeIs(look, 2 * code + BitVal(bits[0]), bits[1..], v, rest);
      w := [bits[0]] + u;
      assert w[1..] == u;
    }
  }

  lemma {:induction false} FeedBelow(w: seq<bool>)
    ensures Feed(0, w) < Pow2(|w|)
  {
    if w != [] {
      FeedBelow(w[1..]);
      FeedIsSum(BitVal(w[0]), w[1..]);
      ShlIsProduct(BitVal(w[0]), |w| - 1);
    }
  }

  /** The bits that make up a number, most significant first, are that number's bits. */
  lemma {:induction false} FeedBits(w: seq<bool>)
    ensures MsbBits(Feed(0, w), |w|) == w
  {
    if w != [] {
      var u, n, b := w[1..], |w| - 1, BitVal(w[0]);
      FeedBits(u);
      FeedBelow(u);
      FeedIsSum(b, u);
      ShlIsProduct(b, n);
      hide Feed, Pow2, Shl, Bit;
      forall i: nat | i <= n ensures Bit(Feed(0, u) + Pow2(n) * b, i) == if i < n then Bit(Feed(0, u), i) else w[0] {
        BitOfSum(Feed(0, u), b, n, i);
        LowestBit(w[0]);
      }
      SameLowBits(Feed(0, u) + Pow2(n) * b, Feed(0, u), n);
      FeedFirst(w);
    }
  }

  lemma LowestBit(b: bool)
    ensures Bit(BitVal(b), 0) == b
  {
  }

  lemma FeedFirst(w: seq<bool>)
    requires w != []
    ensures Feed(0, w) == Feed(BitVal(w[0]), w[1..])
  {
  }

  /** Whatever is decoded as a symbol begins with that symbol's code. */
  lemma SymbolIs(lens: seq<nat>, top: nat, bits: seq<bool>, val: nat, rest: seq<bool>)
    requires Kraft(lens, top) && DecodeSymbol(TableOf(lens), bits) == Some((val, rest))
    ensures HasCode(lens, val) && bits == SymbolBits(lens, val) + rest
  {
    var t := Canonical(lens);
    TableLook(lens);
    CanonicalFitsIffKraft(lens, top);
    hide Canonical, TableOf, LookOf, CodeAt, RfcCode, Kraft;
    var w := DecodeIs(LookOf(t, |t|), 1, bits, val, rest);
    var i := LookIndex(t, |t|, Feed(1, w));
    CodeAtIsRfcCode(lens, i);
    CodeWords(w, t[i].nbits, RfcCode(lens, val), CodeAt(t, i));
  }

  lemma CodeWords(w: seq<bool>, n: nat, code: nat, marker: nat)
    requires Feed(1, w) == marker == Pow2(n) + code < 2 * Pow2(n)
    ensures |w| == n && MsbBits(code, n) == w
  {
    FeedIsSum(1, w);
    ShlIsProduct(1, |w|);
    FeedBelow(w);
    hide Feed, Pow2, Shl, MsbBits;
    MarkerWindow(marker, |w|, n);
    FeedBits(w);
  }

  // ----- Lengths and distances

  lemma LengthBaseStep(i: nat)
    requires i < 28
    ensures |LEN_BASE| == 29 && LEN_BASE[i] <= LEN_BASE[i + 1]
  {
  }

  lemma {:induction false} LengthBasesRise(i: nat, j: nat)
    requires i <= j < 29 == |LEN_BASE|
    ensures LEN_BASE[i] <= LEN_BASE[j]
  {
    hide LEN_BASE;
    if i < j {
      LengthBasesRise(i, j - 1);
      LengthBaseStep(j - 1);
    }
  }

  lemma DistBaseStep(i: nat)
    requires i < 29
    ensures |DIST_BASE| == 30 && DIST_BASE[i] <= DIST_BASE[i + 1]
  {
  }

  lemma {:induction false} DistBasesRise(i: nat, j: nat)
    requires i <= j < 30 == |DIST_BASE|
    ensures DIST_BASE[i] <= DIST_BASE[j]
  {
    hide DIST_BASE;
    if i < j {
      DistBasesRise(i, j - 1);
      DistBaseStep(j - 1);
    }
  }

  lemma LengthRoom(i: nat, x: nat)
    requires i < 29 == |LEN_BASE| == |LEN_EXTRA| && x < Pow2(LEN_EXTRA[i])
    ensures i < 28 && !(i == 27 && x == 31) ==> LEN_BASE[i] + x < LEN_BASE[i + 1]
    ensures 3 <= LEN_BASE[i] + x <= 258
  {
    SmallPowers();
    hide Pow2;
  }

  lemma FirstBases()
    ensures |LEN_BASE| == 29 && LEN_BASE[0] == 3 && |DIST_BASE| == 30 && DIST_BASE[0] == 1
  {
  }

  /** The symbol of a length is determined, except that 258 can be written with symbol 284 too. */
  lemma LengthPlace(i: nat, x: nat)
    requires i < 29 == |LEN_BASE| == |LEN_EXTRA| && x < Pow2(LEN_EXTRA[i]) && !(i == 27 && x == 31)
    ensures 3 <= LEN_BASE[i] + x <= 258 && LengthIndex(LEN_BASE[i] + x) == i
  {
    hide LEN_BASE, LEN_EXTRA, Pow2, LastAtMost;
    LengthRoom(i, x);
    FirstBases();
    var len := LEN_BASE[i] + x;
    var r := LastAtMost(LEN_BASE, len, 28);
    if r < i { LengthBasesRise(r + 1, i); }
    if i < r { LengthBasesRise(i + 1, r); }
  }

  lemma DistRoom(i: nat, x: nat)
    requires i < 30 == |DIST_BASE| == |DIST_EXTRA| && x < Pow2(DIST_EXTRA[i])
    ensures i < 29 ==> DIST_BASE[i] + x < DIST_BASE[i + 1]
    ensures 1 <= DIST_BASE[i] + x <= 32768
  {
    SmallPowers();
    hide Pow2;
  }

  lemma DistPlace(i: nat, x: nat)
    requires i < 30 == |DIST_BASE| == |DIST_EXTRA| && x < Pow2(DIST_EXTRA[i])
    ensures 1 <= DIST_BASE[i] + x <= 32768 && DistanceIndex(DIST_BASE[i] + x) == i
  {
    hide DIST_BASE, DIST_EXTRA, Pow2, LastAtMost;
    DistRoom(i, x);
    FirstBases();
    var d := DIST_BASE[i] + x;
    var r := LastAtMost(DIST_BASE, d, 29);
    if r < i { DistBasesRise(r + 1, i); }
    if i < r { DistBasesRise(i + 1, r); }
  }

  // ----- Items

  /** The item at the front of bits is one that the standard has: not a length of 258 written with
      symbol 284, and not a distance symbol above 29. */
  predicate StandardItem(lit: Table, dist: Table, bits: seq<bool>) {
    match DecodeSymbol(lit, bits)
    case None => true
    case Some((sym, r)) =>
      257 <= sym <= 285 ==>
        match LengthOf(sym, r)
        case None => true
        case Some((len, r')) => !(sym == 284 && len == 258) && StandardDistance(dist, r')
  }

  predicate StandardDistance(dist: Table, bits: seq<bool>) {
    match DecodeSymbol(dist, bits)
    case None => true
    case Some((sym, _)) => sym < 30
  }

  lemma DistanceIs(lens: seq<nat>, top: nat, bits: seq<bool>, d: nat, rest: seq<bool>)
    requires Kraft(lens, top) && StandardDistance(TableOf(lens), bits)
    requires DistanceOf(TableOf(lens), bits) == Some((d, rest))
    ensures |DIST_BASE| == |DIST_EXTRA| == 30 && 1 <= d <= 32768
    ensures var j := DistanceIndex(d);
            HasCode(lens, j) && bits == SymbolBits(lens, j) + (ToBits(d - DIST_BASE[j], DIST_EXTRA[j]) + rest)
  {
    TableSizes();
    hide TableOf, DecodeSymbol, SymbolBits, Kraft, ReadBits, ToBits, DIST_BASE, DIST_EXTRA, DistanceIndex, Pow2;
    var (sym, r) := DecodeSymbol(TableOf(lens), bits).value;
    SymbolIs(lens, top, bits, sym, r);
    var (x, _) := ReadBits(r, DIST_EXTRA[sym]).value;
    FieldIs(r, DIST_EXTRA[sym], x, rest);
    DistPlace(sym, x);
  }

  lemma BaseOf284()
    ensures |LEN_BASE| == |LEN_EXTRA| == 29 && LEN_BASE[27] == 227
  {
  }

  lemma LengthIs(sym: nat, bits: seq<bool>, len: nat, rest: seq<bool>)
    requires 257 <= sym <= 285 && LengthOf(sym, bits) == Some((len, rest)) && !(sym == 284 && len == 258)
    ensures |LEN_BASE| == |LEN_EXTRA| == 29 && 3 <= len <= 258 && LengthIndex(len) == sym - 257
    ensures bits == ToBits(len - LEN_BASE[sym - 257], LEN_EXTRA[sym - 257]) + rest
  {
    hide LEN_BASE, LEN_EXTRA, ReadBits, ToBits, LengthIndex, Pow2;
    BaseOf284();
    var i := sym - 257;
    var (x, _) := ReadBits(bits, LEN_EXTRA[i]).value;
    FieldIs(bits, LEN_EXTRA[i], x, rest);
    LengthPlace(i, x);
  }

  /** A standard item that is decoded is the encoding of a token that fits. */
  lemma ItemIs(lit: seq<nat>, dist: seq<nat>, top: nat, bits: seq<bool>, out: seq<byte>, rest: seq<bool>, o: seq<byte>)
    returns (tok: Token)
    requires Kraft(lit, top) && Kraft(dist, top) && StandardItem(TableOf(lit), TableOf(dist), bits)
    requires RunItem(bits, out, TableOf(lit), TableOf(dist)) == More(rest, o)
    ensures TokenFits(tok, |out|, lit, dist) && o == Apply(out, tok)
    ensures bits == EncodeToken(tok, |out|, lit, dist) + rest
  {
    hide TableOf, DecodeSymbol, SymbolBits, Kraft, LengthOf, DistanceOf, Copy, ToBits, LengthIndex, DistanceIndex,
         LEN_BASE, LEN_EXTRA, DIST_BASE, DIST_EXTRA, StandardDistance, Effective;
    var (sym, r) := DecodeSymbol(TableOf(lit), bits).value;
    SymbolIs(lit, top, bits, sym, r);
    if sym < 256 {
      tok := Literal(sym);
    } else {
      var (len, r') := LengthOf(sym, r).value;
      var (d, _) := DistanceOf(TableOf(dist), r').value;
      LengthIs(sym, r, len, r');
      DistanceIs(dist, top, r', d, rest);
      NearDistance(d);
      tok := Match(len, d);
      var i, j := LengthIndex(len), DistanceIndex(d);
      Regroup4(SymbolBits(lit, 257 + i), ToBits(len - LEN_BASE[i], LEN_EXTRA[i]), SymbolBits(dist, j),
               ToBits(d - DIST_BASE[j], DIST_EXTRA[j]), rest);
    }
  }

  lemma NearDistance(d: nat)
    requires 1 <= d <= 32768
    ensures Effective(d) == d
  {
  }

  // ----- Runs of items

  /** Every item of a run is standard. */
  ghost predicate StandardItems(bits: seq<bool>, out: seq<byte>, lit: Table, dist: Table)
    requires Usable(lit) && Usable(dist)
    decreases |bits|
  {
    ItemSuffix(bits, out, lit, dist);
    StandardItem(lit, dist, bits) &&
    match RunItem(bits, out, lit, dist)
    case More(rest, o) => StandardItems(rest, o, lit, dist)
    case _ => true
  }

  lemma EndIs(lit: seq<nat>, dist: seq<nat>, top: nat, bits: seq<bool>, out: seq<byte>, rest: seq<bool>)
    requires Kraft(lit, top) && RunItem(bits, out, TableOf(lit), TableOf(dist)) == EndOfBlock(rest)
    ensures HasCode(lit, 256) && bits == SymbolBits(lit, 256) + rest
  {
    hide TableOf, DecodeSymbol, SymbolBits, Kraft, RunMatch, LengthOf, DistanceOf;
    var (sym, r) := DecodeSymbol(TableOf(lit), bits).value;
    SymbolIs(lit, top, bits, sym, r);
    if 257 <= sym <= 285 { NeverEnds(sym, r, out, TableOf(dist)); }
  }

  lemma NeverEnds(sym: nat, bits: seq<bool>, out: seq<byte>, dist: Table)
    requires 257 <= sym <= 285
    ensures !RunMatch(sym, bits, out, dist).EndOfBlock?
  {
    hide LengthOf, DistanceOf;
  }

  /** A run of standard items that ends was written as the encoder writes some list of tokens. */
  lemma {:induction false} ItemsAre(lit: seq<nat>, dist: seq<nat>, top: nat, bits: seq<bool>, out: seq<byte>, rest: seq<bool>, o: seq<byte>)
    returns (toks: seq<Token>)
    requires Kraft(lit, top) && Kraft(dist, top) && Usable(TableOf(lit)) && Usable(TableOf(dist))
    requires StandardItems(bits, out, TableOf(lit), TableOf(dist))
    requires RunItems(bits, out, TableOf(lit), TableOf(dist)) == Done(rest, o)
    ensures HasCode(lit, 256) && TokensFit(toks, out, lit, dist) && o == Expand(out, toks)
    ensures bits == EncodeTokens(toks, out, lit, dist) + rest
    decreases |bits|
  {
    hide TableOf, SymbolBits, Kraft, Usable, EncodeToken, TokenFits, Apply, RunItem, StandardItem;
    ItemSuffix(bits, out, TableOf(lit), TableOf(dist));
    match RunItem(bits, out, TableOf(lit), TableOf(dist))
    case EndOfBlock(r) =>
      EndIs(lit, dist, top, bits, out, r);
      toks := [];
    case More(r, m) =>
      var tok := ItemIs(lit, dist, top, bits, out, r, m);
      var more := ItemsAre(lit, dist, top, r, m, rest, o);
      toks := [tok] + more;
      assert toks[1..] == more;
      Regroup(EncodeToken(tok, |out|, lit, dist), EncodeTokens(more, m, lit, dist), rest);
  }

  // ----- And what the encoder writes is standard

  lemma TokenIsStandard(tok: Token, outLen: nat, lit: seq<nat>, dist: seq<nat>, top: nat, rest: seq<bool>)
    requires Kraft(lit, top) && Kraft(dist, top) && TokenFits(tok, outLen, lit, dist)
    ensures StandardItem(TableOf(lit), TableOf(dist), EncodeToken(tok, outLen, lit, dist) + rest)
  {
    TableSizes();
    hide TableOf, SymbolBits, DecodeSymbol, Kraft, LengthIndex, DistanceIndex, LengthOf, ToBits,
         LEN_BASE, LEN_EXTRA, DIST_BASE, DIST_EXTRA;
    match tok
    case Literal(b) => SymbolRoundTrip(lit, top, b, rest);
    case Match(len, d) =>
      var i, j := LengthIndex(len), DistanceIndex(d);
      var lextra, dcode, dextra := ToBits(len - LEN_BASE[i], LEN_EXTRA[i]), SymbolBits(dist, j), ToBits(d - DIST_BASE[j], DIST_EXTRA[j]);
      Regroup4(SymbolBits(lit, 257 + i), lextra, dcode, dextra, rest);
      SymbolRoundTrip(lit, top, 257 + i, lextra + (dcode + (dextra + rest)));
      LengthRoundTrip(len, dcode + (dextra + rest));
      SymbolRoundTrip(dist, top, j, dextra + rest);
      LongestPlace(len);
  }

  lemma LongestPlace(len: nat)
    requires 3 <= len <= 258
    ensures LengthIndex(len) == 27 ==> len != 258
  {
    assert LEN_BASE[28] == 258;
  }

  lemma {:induction false} TokensAreStandard(toks: seq<Token>, out: seq<byte>, lit: seq<nat>, dist: seq<nat>, top: nat, rest: seq<bool>)
    requires Kraft(lit, top) && Kraft(dist, top) && HasCode(lit, 256) && TokensFit(toks, out, lit, dist)
    ensures Usable(TableOf(lit)) && Usable(TableOf(dist))
    ensures StandardItems(EncodeTokens(toks, out, lit, dist) + rest, out, TableOf(lit), TableOf(dist))
    decreases |toks|
  {
    TableOfUsable(lit);
    TableOfUsable(dist);
    hide TableOf, SymbolBits, Kraft, Usable, EncodeToken, TokenFits, Apply, RunItem, StandardItem;
    if toks == [] {
      EndIsStandard(lit, dist, top, out, rest);
    } else {
      var o := Apply(out, toks[0]);
      var tail := EncodeTokens(toks[1..], o, lit, dist) + rest;
      Regroup(EncodeToken(toks[0], |out|, lit, dist), EncodeTokens(toks[1..], o, lit, dist), rest);
      TokenRoundTrip(toks[0], out, lit, dist, top, tail);
      TokenIsStandard(toks[0], |out|, lit, dist, top, tail);
      TokensAreStandard(toks[1..], o, lit, dist, top, rest);
      ItemSuffix(EncodeTokens(toks, out, lit, dist) + rest, out, TableOf(lit), TableOf(dist));
    }
  }

  lemma EndIsStandard(lit: seq<nat>, dist: seq<nat>, top: nat, out: seq<byte>, rest: seq<bool>)
    requires Kraft(lit, top) && HasCode(lit, 256)
    ensures StandardItem(TableOf(lit), TableOf(dist), SymbolBits(lit, 256) + rest)
    ensures RunItem(SymbolBits(lit, 256) + rest, out, TableOf(lit), TableOf(dist)) == EndOfBlock(rest)
  {
    hide TableOf, SymbolBits, DecodeSymbol, Kraft;
    SymbolRoundTrip(lit, top, 256, rest);
  }
}
