/** Canonical codes round trip: under the Kraft inequality the codes are prefix free, and
    reading the concatenated codes of any symbol sequence gives that sequence back. */
module HuffmanRoundTrip {
  import opened Bits
  import opened Huffman
  import opened HuffmanRfc
  import opened HuffmanRead

  /** Where symbol val stands in the canonical table. */
  lemma EntryIndex(lens: seq<nat>, val: nat) returns (i: nat)
    requires val < |lens| && lens[val] != 0
    ensures i < |Canonical(lens)| && Canonical(lens)[i] == Entry(val, lens[val])
  {
    CanonicalFacts(lens);
    var t, e := Canonical(lens), Entry(val, lens[val]);
    hide Canonical;
    assert e in t;
    i :| 0 <= i < |t| && t[i] == e;
  }

  /** A marker code of n bits determines n. */
  lemma MarkerWindow(c: nat, m: nat, n: nat)
    requires Pow2(m) <= c < 2 * Pow2(m) && Pow2(n) <= c < 2 * Pow2(n)
    ensures m == n
  {
    if m < n { Pow2StrictMono(m, n); }
    if n < m { Pow2StrictMono(n, m); }
  }

  lemma {:induction false} AtMostShr(a: nat, c: nat, k: nat)
    requires Shl(a, k) <= c
    ensures a <= Shr(c, k)
  {
    if k != 0 { AtMostShr(a, c / 2, k - 1); }
  }

  /** A marker code of n bits without its k lowest bits is a marker code of n - k bits. */
  lemma PrefixWindow(c: nat, n: nat, k: nat)
    requires Pow2(n) <= c < 2 * Pow2(n) && k <= n
    ensures Pow2(n - k) <= Shr(c, k) < 2 * Pow2(n - k)
  {
    ShrRange(c, n - k, k);
    ShrRange(c, n - k + 1, k);
  }

  /** No proper prefix of a code is a code. */
  lemma PrefixFree(t: seq<Entry>, i: nat, k: nat)
    requires Sorted(t) && CodesFit(t) && i < |t| && 0 < k <= t[i].nbits
    ensures Shr(CodeAt(t, i), k) !in LookOf(t, |t|)
  {
    hide CodeAt, LookOf, Pow2, Shr, Shl;
    if Shr(CodeAt(t, i), k) in LookOf(t, |t|) {
      var j := LookIndex(t, |t|, Shr(CodeAt(t, i), k));
      NotAPrefix(t, i, j, k);
    }
  }

  lemma NotAPrefix(t: seq<Entry>, i: nat, j: nat, k: nat)
    requires Sorted(t) && CodesFit(t) && i < |t| && j < |t| && 0 < k <= t[i].nbits
    ensures CodeAt(t, j) != Shr(CodeAt(t, i), k)
  {
    hide CodeAt, Pow2, Shr, Shl;
    var c, d, n := CodeAt(t, i), CodeAt(t, j), t[i].nbits;
    assert i < j ==> Less(t[i], t[j]);
    if d == Shr(c, k) {
      CodeAtLeast(t, i);
      CodeAtLeast(t, j);
      PrefixWindow(c, n, k);
      MarkerWindow(d, n - k, t[j].nbits);
      CodeGap(t, j, i);
      AtMostShr(d + 1, c, k);
    }
  }

  lemma WholeCode(c: nat)
    ensures Shr(c, 0) == c
  {
  }

  lemma DecodeStep(look: map<nat, nat>, code: nat, b: bool, bits: seq<bool>)
    requires code !in look
    ensures DecodeFrom(look, code, [b] + bits) == DecodeFrom(look, 2 * code + BitVal(b), bits)
  {
    assert ([b] + bits)[1..] == bits;
  }

  /** Reading the m low bits of code c, starting from the marker above them, finds c. */
  lemma {:induction false} DecodeCode(look: map<nat, nat>, c: nat, m: nat, rest: seq<bool>)
    requires c in look && forall k :: 0 < k <= m ==> Shr(c, k) !in look
    ensures DecodeFrom(look, Shr(c, m), MsbBits(c, m) + rest) == Some((look[c], rest))
  {
    hide Shr, Bit, DecodeFrom, BitVal;
    if m == 0 {
      DecodeFound(look, c, rest);
      assert MsbBits(c, 0) + rest == rest;
      WholeCode(c);
    } else {
      DecodeCode(look, c, m - 1, rest);
      ShrStep(c, m);
      assert MsbBits(c, m) + rest == [Bit(c, m - 1)] + (MsbBits(c, m - 1) + rest);
      DecodeStep(look, Shr(c, m), Bit(c, m - 1), MsbBits(c, m - 1) + rest);
    }
  }

  lemma {:induction false} SameLowBits(c: nat, d: nat, n: nat)
    requires forall i: nat :: i < n ==> Bit(c, i) == Bit(d, i)
    ensures MsbBits(c, n) == MsbBits(d, n)
  {
    if n != 0 { SameLowBits(c, d, n - 1); }
  }

  /** The marker code and the code of the standard have the same bits below the marker. */
  lemma MarkerBits(code: nat, n: nat)
    requires code < Pow2(n)
    ensures MsbBits(Pow2(n) + code, n) == MsbBits(code, n)
    ensures Shr(Pow2(n) + code, n) == 1
  {
    ShlPow2(0, n);
    ShrOfSum(code, 1, n);
    forall i: nat | i < n ensures Bit(Pow2(n) + code, i) == Bit(code, i) {
      BitOfSum(code, 1, n, i);
    }
    SameLowBits(Pow2(n) + code, code, n);
  }

  /** Every symbol with a code is read back from its code, whatever follows. */
  lemma SymbolRoundTrip(lens: seq<nat>, top: nat, val: nat, rest: seq<bool>)
    requires Kraft(lens, top) && val < |lens| && lens[val] != 0
    ensures DecodeSymbol(TableOf(lens), SymbolBits(lens, val) + rest) == Some((val, rest))
  {
    var i := EntryIndex(lens, val);
    CanonicalFitsIffKraft(lens, top);
    CodeAtIsRfcCode(lens, i);
    TableLook(lens);
    hide Canonical, CodeAt, TableOf, RfcCode;
    CodeRoundTrip(Canonical(lens), i, RfcCode(lens, val), rest);
  }

  lemma TableLook(lens: seq<nat>)
    ensures Sorted(Canonical(lens))
    ensures TableOf(lens).look == LookOf(Canonical(lens), |Canonical(lens)|)
  {
    CanonicalFacts(lens);
  }

  lemma CodeRoundTrip(t: seq<Entry>, i: nat, code: nat, rest: seq<bool>)
    requires Sorted(t) && CodesFit(t) && i < |t|
    requires CodeAt(t, i) == Pow2(t[i].nbits) + code
    ensures DecodeFrom(LookOf(t, |t|), 1, MsbBits(code, t[i].nbits) + rest) == Some((t[i].val, rest))
  {
    hide CodeAt, LookOf, MsbBits, DecodeFrom, Pow2, Shr;
    var c, n, look := CodeAt(t, i), t[i].nbits, LookOf(t, |t|);
    MarkerBits(code, n);
    LookHas(t, |t|, i);
    forall k | 0 < k <= n ensures Shr(c, k) !in look {
      PrefixFree(t, i, k);
    }
    DecodeCode(look, c, n, rest);
  }

  // ----- Whole sequences

  function EncodeSymbols(lens: seq<nat>, vals: seq<nat>): seq<bool>
    requires forall i :: 0 <= i < |vals| ==> vals[i] < |lens|
  {
    if vals == [] then [] else SymbolBits(lens, vals[0]) + EncodeSymbols(lens, vals[1..])
  }

  /** n calls of read in a row. */
  function DecodeSymbols(t: Table, bits: seq<bool>, n: nat): Option<(seq<nat>, seq<bool>)>
    decreases n
  {
    if n == 0 then Some(([], bits)) else
      match DecodeSymbol(t, bits)
      case None => None
      case Some((val, rest)) =>
        match DecodeSymbols(t, rest, n - 1)
        case None => None
        case Some((vals, end)) => Some(([val] + vals, end))
  }

  lemma {:induction false} SymbolsRoundTrip(lens: seq<nat>, top: nat, vals: seq<nat>, rest: seq<bool>)
    requires Kraft(lens, top)
    requires forall i :: 0 <= i < |vals| ==> vals[i] < |lens| && lens[vals[i]] != 0
    ensures DecodeSymbols(TableOf(lens), EncodeSymbols(lens, vals) + rest, |vals|) == Some((vals, rest))
  {
    hide TableOf, DecodeSymbol, SymbolBits, Kraft;
    if vals == [] {
      assert [] + rest == rest;
    } else {
      var tail := EncodeSymbols(lens, vals[1..]) + rest;
      SymbolRoundTrip(lens, top, vals[0], tail);
      SymbolsRoundTrip(lens, top, vals[1..], rest);
      assert SymbolBits(lens, vals[0]) + EncodeSymbols(lens, vals[1..]) + rest == SymbolBits(lens, vals[0]) + tail;
      DecodeOneMore(TableOf(lens), EncodeSymbols(lens, vals) + rest, vals[0], tail, vals[1..], rest);
      assert vals == [vals[0]] + vals[1..];
    }
  }

  lemma DecodeOneMore(t: Table, bits: seq<bool>, val: nat, tail: seq<bool>, vals: seq<nat>, rest: seq<bool>)
    requires DecodeSymbol(t, bits) == Some((val, tail))
    requires DecodeSymbols(t, tail, |vals|) == Some((vals, rest))
    ensures DecodeSymbols(t, bits, 1 + |vals|) == Some(([val] + vals, rest))
  {
    hide DecodeSymbol;
  }
}
