/** What deflate.lua decodes, as functions from a flat bit list and the unbounded output:
    items, blocks and whole streams. The loops of Decoder are proved against these functions. */
module DeflateSpec {
  import opened Bits
  import opened BitStreams
  import opened Huffman
  import opened HuffmanRead
  import opened Window

  // ----- The tables of section 3.2.5 of RFC 1951

  /** Length of symbol 257 + i with all extra bits zero, and its number of extra bits. */
  const LEN_BASE: seq<nat> := [3, 4, 5, 6, 7, 8, 9, 10, 11, 13, 15, 17, 19, 23, 27, 31, 35, 43, 51, 59,
                               67, 83, 99, 115, 131, 163, 195, 227, 258]
  const LEN_EXTRA: seq<nat> := [0, 0, 0, 0, 0, 0, 0, 0, 1, 1, 1, 1, 2, 2, 2, 2, 3, 3, 3, 3,
                                4, 4, 4, 4, 5, 5, 5, 5, 0]

  /** Distance of symbol i with all extra bits zero, and its number of extra bits. */
  const DIST_BASE: seq<nat> := [1, 2, 3, 4, 5, 7, 9, 13, 17, 25, 33, 49, 65, 97, 129, 193, 257, 385, 513, 769,
                                1025, 1537, 2049, 3073, 4097, 6145, 8193, 12289, 16385, 24577]
  const DIST_EXTRA: seq<nat> := [0, 0, 0, 0, 1, 1, 2, 2, 3, 3, 4, 4, 5, 5, 6, 6, 7, 7, 8, 8,
                                 9, 9, 10, 10, 11, 11, 12, 12, 13, 13]

  lemma TableSizes()
    ensures |LEN_BASE| == |LEN_EXTRA| == 29 && |DIST_BASE| == |DIST_EXTRA| == 30
    ensures forall i :: 0 <= i < 29 ==> LEN_EXTRA[i] <= 5
    ensures forall i :: 0 <= i < 30 ==> DIST_EXTRA[i] <= 13
    ensures forall i :: 0 <= i < 29 ==> 3 <= LEN_BASE[i] <= 258
    ensures forall i :: 0 <= i < 30 ==> 1 <= DIST_BASE[i]
  {
  }

  /** The base table of the program runs one symbol past the standard's: symbol 30 has a base but
      no entry in the table of extra bits, and a read of a missing bit count reads one bit. */
  function DistBase(sym: nat): nat
    requires sym <= 30
  {
    if sym < 30 then TableSizes(); DIST_BASE[sym] else 32769
  }

  function DistExtra(sym: nat): nat
    requires sym <= 30
  {
    if sym < 30 then TableSizes(); DIST_EXTRA[sym] else 1
  }

  // ----- One item

  datatype Item =
    | Bad
    | More(rest: seq<bool>, out: seq<byte>)
    | EndOfBlock(rest: seq<bool>)

  /** The length that a length symbol and its extra bits stand for. */
  function LengthOf(sym: nat, bits: seq<bool>): Option<(nat, seq<bool>)>
    requires 257 <= sym <= 285
  {
    TableSizes();
    match ReadBits(bits, LEN_EXTRA[sym - 257])
    case None => None
    case Some((extra, rest)) => Some((LEN_BASE[sym - 257] + extra, rest))
  }

  /** The distance coded next. */
  function DistanceOf(dist: Table, bits: seq<bool>): Option<(nat, seq<bool>)> {
    match DecodeSymbol(dist, bits)
    case None => None
    case Some((sym, r)) =>
      if sym > 30 then None else
        match ReadBits(r, DistExtra(sym))
        case None => None
        case Some((extra, rest)) => Some((DistBase(sym) + extra, rest))
  }

  /** A match: extra length bits, distance symbol, extra distance bits, copy. */
  function RunMatch(sym: nat, bits: seq<bool>, out: seq<byte>, dist: Table): Item
    requires 257 <= sym <= 285
  {
    match LengthOf(sym, bits)
    case None => Bad
    case Some((len, r)) =>
      match DistanceOf(dist, r)
      case None => Bad
      case Some((d, rest)) =>
        if d == 0 || Effective(d) > |out| then Bad else More(rest, Copy(out, Effective(d), len))
  }

  function RunItem(bits: seq<bool>, out: seq<byte>, lit: Table, dist: Table): Item {
    match DecodeSymbol(lit, bits)
    case None => Bad
    case Some((sym, r)) =>
      if sym < 256 then More(r, out + [sym])
      else if sym == 256 then EndOfBlock(r)
      else if sym <= 285 then RunMatch(sym, r, out, dist)
      else Bad
  }

  // ----- Suffixes: what has been read is gone

  ghost predicate IsSuffix(rest: seq<bool>, bits: seq<bool>) {
    |rest| <= |bits| && rest == bits[|bits| - |rest|..]
  }

  lemma SuffixTrans(a: seq<bool>, b: seq<bool>, c: seq<bool>)
    requires IsSuffix(a, b) && IsSuffix(b, c)
    ensures IsSuffix(a, c)
  {
  }

  lemma LengthRange(i: nat)
    requires i < 29
    ensures LEN_BASE[i] + Pow2(LEN_EXTRA[i]) <= 259
  {
    hide Pow2;
    SmallPowers();
  }

  lemma LengthSuffix(sym: nat, bits: seq<bool>)
    requires 257 <= sym <= 285
    ensures match LengthOf(sym, bits)
            case None => true
            case Some((len, rest)) => IsSuffix(rest, bits) && 3 <= len <= 258
  {
    TableSizes();
    LengthRange(sym - 257);
    var n := LEN_EXTRA[sym - 257];
    if |bits| >= n { LsbValBits(bits[..n]); }
  }

  lemma DistanceSuffix(dist: Table, bits: seq<bool>)
    requires Usable(dist)
    ensures match DistanceOf(dist, bits)
            case None => true
            case Some((d, rest)) => IsSuffix(rest, bits) && |rest| < |bits| && d >= 1
  {
    SymbolConsumes(dist, bits);
    match DecodeSymbol(dist, bits)
    case None =>
    case Some((sym, r)) =>
      if sym <= 30 {
        TableSizes();
        match ReadBits(r, DistExtra(sym))
        case None =>
        case Some((extra, rest)) => SuffixTrans(rest, r, bits);
      }
  }

  ghost predicate Grows(out: seq<byte>, o: seq<byte>, most: nat) {
    |out| < |o| <= |out| + most && o[..|out|] == out
  }

  lemma MatchSuffix(sym: nat, bits: seq<bool>, out: seq<byte>, dist: Table)
    requires 257 <= sym <= 285 && Usable(dist)
    ensures match RunMatch(sym, bits, out, dist)
            case Bad => true
            case EndOfBlock(rest) => false
            case More(rest, o) => IsSuffix(rest, bits) && |rest| < |bits| && Grows(out, o, 258)
  {
    LengthSuffix(sym, bits);
    hide LengthOf, DistanceOf, Effective, Usable;
    match LengthOf(sym, bits)
    case None =>
    case Some((len, r)) =>
      DistanceSuffix(dist, r);
      match DistanceOf(dist, r)
      case None =>
      case Some((d, rest)) => SuffixTrans(rest, r, bits);
  }

  /** An item takes at least one bit; a match takes at least two and yields at most 258 bytes. */
  lemma ItemSuffix(bits: seq<bool>, out: seq<byte>, lit: Table, dist: Table)
    requires Usable(lit) && Usable(dist)
    ensures match RunItem(bits, out, lit, dist)
            case Bad => true
            case EndOfBlock(rest) => IsSuffix(rest, bits) && |rest| < |bits|
            case More(rest, o) =>
              && IsSuffix(rest, bits) && |rest| < |bits|
              && Grows(out, o, if |bits| - |rest| == 1 then 1 else 258)
  {
    SymbolConsumes(lit, bits);
    hide DecodeSymbol, RunMatch, Usable;
    match DecodeSymbol(lit, bits)
    case None =>
    case Some((sym, r)) =>
      if 257 <= sym <= 285 {
        MatchSuffix(sym, r, out, dist);
        match RunMatch(sym, r, out, dist)
        case Bad =>
        case More(rest, o) => SuffixTrans(rest, r, bits);
      }
  }
}
