/** deflate.lua, HuffmanTable: reading a symbol with the minbits shortcut, against decoding one
    bit at a time. */
module HuffmanRead {
  import opened Bits
  import opened BitStreams
  import opened Huffman
  import opened HuffmanRfc
  import BitOps

  // ----- Decoding one bit at a time

  /** Read bits until the marker code read so far is in look. */
  function DecodeFrom(look: map<nat, nat>, code: nat, bits: seq<bool>): Option<(nat, seq<bool>)>
    decreases |bits|
  {
    if code in look then Some((look[code], bits))
    else if bits == [] then None
    else DecodeFrom(look, 2 * code + BitVal(bits[0]), bits[1..])
  }

  /** The symbol at the front of bits, and the bits after it. */
  function DecodeSymbol(t: Table, bits: seq<bool>): Option<(nat, seq<bool>)> {
    DecodeFrom(t.look, 1, bits)
  }

  /** The marker code after feeding more bits to it. */
  function Feed(code: nat, bits: seq<bool>): nat
    decreases |bits|
  {
    if bits == [] then code else Feed(2 * code + BitVal(bits[0]), bits[1..])
  }

  ghost predicate Usable(t: Table) {
    match t.minbits
    case None => t.look == map[]
    case Some(m) => m >= 1 && forall c :: c in t.look ==> c >= Pow2(m)
  }

  lemma TableOfUsable(lens: seq<nat>)
    ensures Usable(TableOf(lens))
    ensures (forall i :: 0 <= i < |lens| ==> lens[i] <= 24) && TableOf(lens).minbits.Some?
            ==> TableOf(lens).minbits.value <= 24
  {
    CanonicalFacts(lens);
    var t := Canonical(lens);
    if t != [] {
      assert t[0] in t;
      forall c | c in LookOf(t, |t|) ensures c >= Pow2(t[0].nbits) {
        var i := LookIndex(t, |t|, c);
        CodeAtLeast(t, i);
        if i != 0 { assert Less(t[0], t[i]); }
        Pow2Mono(t[0].nbits, t[i].nbits);
      }
    }
  }

  // ----- The shortcut over the first minbits bits

  /** No code is found while fewer than m bits have been read, so k of them can be skipped at once. */
  lemma {:induction false} SkipShort(look: map<nat, nat>, code: nat, bits: seq<bool>, m: nat, k: nat)
    requires k <= m && code < 2 * Pow2(m - k)
    requires forall c :: c in look ==> c >= Pow2(m)
    ensures |bits| < k ==> DecodeFrom(look, code, bits) == None
    ensures |bits| >= k ==> DecodeFrom(look, code, bits) == DecodeFrom(look, Feed(code, bits[..k]), bits[k..])
    decreases k
  {
    if k == 0 {
      assert bits[..0] == [] && bits[0..] == bits;
    } else {
      Pow2StrictMono(m - k, m);
      if bits != [] {
        SkipShort(look, 2 * code + BitVal(bits[0]), bits[1..], m, k - 1);
        if |bits| >= k {
          assert bits[..k][1..] == bits[1..][..k - 1];
          assert bits[1..][k - 1..] == bits[k..];
        }
      }
    }
  }

  lemma {:induction false} FeedIsSum(code: nat, bits: seq<bool>)
    ensures Feed(code, bits) == Shl(code, |bits|) + Feed(0, bits)
    decreases |bits|
  {
    if bits != [] {
      var b := BitVal(bits[0]);
      FeedIsSum(2 * code + b, bits[1..]);
      FeedIsSum(b, bits[1..]);
      ShlAdd(2 * code, b, |bits| - 1);
      ShlShl(code, 1, |bits| - 1);
      assert Shl(code, 1) == 2 * code;
    }
  }

  /** msb: the nbits low bits of bits in reverse, with arithmetic. */
  method MsbArithmetic(bits0: nat, nbits: nat) returns (res: nat)
    ensures res == Feed(0, ToBits(bits0, nbits))
  {
    res := 0;
    var bits: nat := bits0;
    for i := 0 to nbits
      invariant Feed(res, ToBits(bits, nbits - i)) == Feed(0, ToBits(bits0, nbits))
    {
      var b := bits % 2;
      FeedStep(res, bits, nbits - i);
      bits := (bits - b) / 2;
      res := res * 2 + b;
    }
  }

  lemma FeedStep(res: nat, bits: nat, n: nat)
    requires n > 0
    ensures Feed(res, ToBits(bits, n)) == Feed(res * 2 + bits % 2, ToBits(bits / 2, n - 1))
  {
    assert ToBits(bits, n)[1..] == ToBits(bits / 2, n - 1);
  }

  /** msb with 32-bit operations. */
  method MsbNative(bits0: nat, nbits: nat) returns (res: nat)
    requires nbits <= 24 && bits0 <= BitOps.MODM
    ensures res == Feed(0, ToBits(bits0, nbits))
  {
    hide BitOps.Lshift, BitOps.Rshift, BitOps.Band, Pow2, Feed, ToBits;
    NoBits();
    res := 0;
    var bits: nat := bits0;
    for i := 0 to nbits
      invariant bits <= BitOps.MODM && res < Pow2(i)
      invariant Feed(res, ToBits(bits, nbits - i)) == Feed(0, ToBits(bits0, nbits))
    {
      FeedStep(res, bits, nbits - i);
      NativeStep(res, bits, i);
      res := BitOps.Lshift(res, 1) + BitOps.Band(bits, 1);
      bits := BitOps.Rshift(bits, 1);
    }
    NoMoreBits(res, bits);
  }

  lemma NoBits()
    ensures Pow2(0) == 1
  {
  }

  lemma NoMoreBits(res: nat, bits: nat)
    ensures Feed(res, ToBits(bits, 0)) == res
  {
  }

  lemma NativeStep(res: nat, bits: nat, i: nat)
    requires bits <= BitOps.MODM && i < 24 && res < Pow2(i)
    ensures BitOps.Lshift(res, 1) == res * 2
    ensures BitOps.Band(bits, 1) == bits % 2
    ensures BitOps.Rshift(bits, 1) == bits / 2
    ensures res * 2 + bits % 2 < Pow2(i + 1)
  {
    hide BitOps.Lshift, BitOps.Rshift, BitOps.Band;
    PushBit(res, i);
    OneBit();
    BitOps.MaskIsMod(bits, 1);
    NativeShift(bits, 1);
  }

  lemma OneBit()
    ensures Pow2(1) == 2
    ensures forall n: nat {:trigger Shr(n, 1)} :: Shr(n, 1) == n / 2
  {
    assert forall n: nat {:trigger Shr(n, 1)} :: Shr(n, 1) == Shr(n / 2, 0);
  }

  lemma PushBit(res: nat, i: nat)
    requires i < 24 && res < Pow2(i)
    ensures BitOps.Lshift(res, 1) == res * 2
  {
    Pow2Mono(i + 1, 32);
    BitOps.ModIsPow2();
    assert Shl(res, 1) == 2 * Shl(res, 0);
  }

  // ----- t:read

  /** One symbol from the stream: minbits bits at once, then bit by bit. */
  method ReadSymbol(t: Table, bs: BitStream) returns (r: Option<nat>)
    requires Usable(t) && (t.minbits.Some? ==> t.minbits.value <= 24)
    requires bs.Valid() && bs.bufNbit < 24
    modifies bs
    ensures bs.Valid() && bs.bufNbit < 24
    ensures match DecodeSymbol(t, old(bs.Remaining()))
            case None => r == None
            case Some((val, rest)) => r == Some(val) && bs.Remaining() == rest
    ensures r.Some? && old(bs.bufNbit) < 8 ==> bs.bufNbit < 8
  {
    hide Pow2, ToBits, BytesToBits, LsbVal, Feed, DecodeFrom;
    ghost var bits := bs.Remaining();
    if t.minbits.None? {
      // An empty table asks for infinitely many bits, which always meets the end of the input.
      EmptyTable(t, bits);
      return None;
    }
    var minbits := t.minbits.value;
    var code: nat, nbits: nat := 1, 0;
    while true
      invariant bs.Valid() && bs.bufNbit < 24
      invariant old(bs.bufNbit) < 8 ==> bs.bufNbit < 8
      invariant nbits == 0 ==> bs.Remaining() == bits
      invariant nbits != 0 ==> DecodeFrom(t.look, code, bs.Remaining()) == DecodeSymbol(t, bits)
      invariant nbits != 0 ==> code !in t.look
      decreases |bs.Remaining()|
    {
      ghost var before := bs.Remaining();
      if nbits == 0 {
        var v := bs.Read(minbits);
        FirstRead(t, bits, minbits);
        if v.None? { return None; }
        var m: nat;
        if bs.library != Absent {
          FewBits(bits[..minbits]);
          m := MsbNative(v.value, minbits);
        } else {
          m := MsbArithmetic(v.value, minbits);
        }
        code := Pow2(minbits) + m;
        nbits := nbits + minbits;
      } else {
        var b := bs.Read(1);
        NextBit(t.look, code, before);
        if b.None? { return None; }
        nbits := nbits + 1;
        code := code * 2 + b.value;
      }
      DecodeFound(t.look, code, bs.Remaining());
      if code in t.look {
        return Some(t.look[code]);
      }
    }
  }

  lemma EmptyTable(t: Table, bits: seq<bool>)
    requires t.look == map[]
    ensures DecodeSymbol(t, bits) == None
  {
    NothingFound(1, bits);
  }

  lemma {:induction false} NothingFound(code: nat, bits: seq<bool>)
    ensures DecodeFrom(map[], code, bits) == None
    decreases |bits|
  {
    if bits != [] { NothingFound(2 * code + BitVal(bits[0]), bits[1..]); }
  }

  lemma FewBits(bits: seq<bool>)
    requires |bits| <= 24
    ensures LsbVal(bits) <= BitOps.MODM
  {
    LsbValBits(bits);
    Pow2Mono(|bits|, 32);
    BitOps.ModIsPow2();
  }

  /** The fast path is exact: it ends at the code and the position of the bit-by-bit reading. */
  lemma FirstRead(t: Table, bits: seq<bool>, minbits: nat)
    requires Usable(t) && t.minbits == Some(minbits)
    ensures |bits| < minbits ==> DecodeSymbol(t, bits) == None
    ensures |bits| >= minbits ==>
              var code := Pow2(minbits) + Feed(0, ToBits(LsbVal(bits[..minbits]), minbits));
              DecodeSymbol(t, bits) == DecodeFrom(t.look, code, bits[minbits..])
  {
    assert 1 < 2 * Pow2(minbits - minbits);
    SkipShort(t.look, 1, bits, minbits, minbits);
    if |bits| >= minbits {
      LsbValBits(bits[..minbits]);
      FeedIsSum(1, bits[..minbits]);
      ShlPow2(0, minbits);
    }
  }

  lemma NextBit(look: map<nat, nat>, code: nat, bits: seq<bool>)
    requires code !in look
    ensures |bits| < 1 ==> DecodeFrom(look, code, bits) == None
    ensures |bits| >= 1 ==>
              DecodeFrom(look, code, bits) == DecodeFrom(look, code * 2 + LsbVal(bits[..1]), bits[1..])
  {
    if |bits| >= 1 { assert bits[..1][1..] == []; }
  }

  lemma DecodeFound(look: map<nat, nat>, code: nat, bits: seq<bool>)
    ensures code in look ==> DecodeFrom(look, code, bits) == Some((look[code], bits))
  {
  }

  /** A decoded symbol leaves a proper suffix of the bits. */
  lemma {:induction false} DecodeSuffix(look: map<nat, nat>, code: nat, bits: seq<bool>)
    ensures match DecodeFrom(look, code, bits)
            case None => true
            case Some((val, rest)) =>
              && |rest| <= |bits| && rest == bits[|bits| - |rest|..]
              && (code !in look ==> |rest| < |bits|)
    decreases |bits|
  {
    if code !in look && bits != [] {
      DecodeSuffix(look, 2 * code + BitVal(bits[0]), bits[1..]);
    }
  }

  lemma SymbolConsumes(t: Table, bits: seq<bool>)
    requires Usable(t)
    ensures match DecodeSymbol(t, bits)
            case None => true
            case Some((val, rest)) => |rest| < |bits| && rest == bits[|bits| - |rest|..]
  {
    DecodeSuffix(t.look, 1, bits);
    if t.minbits.Some? { Pow2Mono(1, t.minbits.value); }
  }
}
