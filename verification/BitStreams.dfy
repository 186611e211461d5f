/** deflate.lua, bitstream_from_bytestream: a bit reader with a carry buffer, in its two
    variants (32-bit bit operations, plain arithmetic), as a view of one flat bit list. */
module BitStreams {
  import opened Bits
  import BitOps

  /** What reading n bits of a flat bit list means (section 3.1.1 of RFC 1951). */
  function ReadBits(bits: seq<bool>, n: nat): Option<(nat, seq<bool>)> {
    if |bits| < n then None else Some((LsbVal(bits[..n]), bits[n..]))
  }

  lemma TooFewBits(bits: seq<bool>, n: nat)
    requires |bits| < n
    ensures ReadBits(bits, n) == None
  {
  }

  /** How full the buffer is once a read of n bits has fetched the bytes it needs. */
  function RefillLevel(level: nat, n: nat): nat {
    if level >= n then level else level + (n - level + 7) / 8 * 8
  }

  lemma RefillStep(level: nat, n: nat)
    ensures level < n ==> RefillLevel(level + 8, n) == RefillLevel(level, n) >= level + 8
    ensures level >= n ==> RefillLevel(level, n) == level
  {
  }

  lemma RefillBound(level: nat, n: nat)
    requires level < 24 && n <= 24
    ensures n <= RefillLevel(level, n) <= 32
    ensures RefillLevel(level, n) - n < 24
    ensures level < 8 ==> RefillLevel(level, n) - n < 8
  {
  }

  // ----- The buffer as a bit list

  lemma ByteFits(b: byte)
    ensures b < Pow2(8)
  {
  }

  lemma AppendByte(buf: nat, n: nat, s: seq<byte>, k: nat)
    requires buf < Pow2(n) && k < |s|
    ensures buf + Shl(s[k], n) < Pow2(n + 8)
    ensures ToBits(buf + Shl(s[k], n), n + 8) + BytesToBits(s[k + 1..]) == ToBits(buf, n) + BytesToBits(s[k..])
  {
    hide ToBits, Shl, Pow2;
    ByteFits(s[k]);
    ToBitsOfSum(buf, n, s[k], 8);
    ShlBelow(s[k], n, 8);
    assert s[k..][1..] == s[k + 1..];
    assert BytesToBits(s[k..]) == ToBits(s[k], 8) + BytesToBits(s[k + 1..]);
  }

  /** v of m bits above n free bits leaves room for a number of n bits. */
  lemma {:induction false} ShlBelow(v: nat, n: nat, m: nat)
    requires v < Pow2(m)
    ensures Shl(v, n) + Pow2(n) <= Pow2(n + m)
  {
    if n != 0 { ShlBelow(v, n - 1, m); }
  }

  /** Taking the n low bits r off a buffer of total bits leaves q in front of the tail. */
  lemma TakeBits(buf: nat, total: nat, n: nat, r: nat, q: nat, tail: seq<bool>)
    requires n <= total && buf < Pow2(total)
    requires r < Pow2(n) && buf == r + Shl(q, n)
    ensures q < Pow2(total - n)
    ensures ReadBits(ToBits(buf, total) + tail, n) == Some((r, ToBits(q, total - n) + tail))
  {
    if q >= Pow2(total - n) { ShlAtLeast(q, n, total - n); }
    hide Pow2, ToBits, LsbVal, Shl;
    ToBitsOfSum(r, n, q, total - n);
    ToBitsVal(r, n);
    var bits := ToBits(buf, total) + tail;
    assert bits[..n] == ToBits(r, n);
    assert bits[n..] == ToBits(q, total - n) + tail;
  }

  lemma {:induction false} ShlAtLeast(v: nat, n: nat, m: nat)
    requires v >= Pow2(m)
    ensures Shl(v, n) >= Pow2(n + m)
  {
    if n != 0 { ShlAtLeast(v, n - 1, m); }
  }

  /** The arithmetic way of taking n bits off. */
  method SplitArithmetic(buf: nat, n: nat) returns (bits: nat, rest: nat)
    ensures bits < Pow2(n) && buf == bits + Shl(rest, n) && rest == Shr(buf, n)
  {
    hide Pow2, Shr, Shl;
    ArithmeticSplit(buf, n);
    var m := Pow2(n);
    bits := buf % m;
    rest := (buf - bits) / m;
  }

  lemma ArithmeticSplit(buf: nat, n: nat)
    ensures 0 <= buf % Pow2(n) < Pow2(n)
    ensures (buf - buf % Pow2(n)) / Pow2(n) == Shr(buf, n)
    ensures buf == buf % Pow2(n) + Shl(Shr(buf, n), n)
  {
    hide Pow2, Shr, Shl;
    DivModFacts(buf, Pow2(n));
    QuotientOfRest(buf, Pow2(n), buf / Pow2(n), buf % Pow2(n));
    ShrIsQuotient(buf, n);
    ShlIsProduct(buf / Pow2(n), n);
  }

  lemma QuotientOfRest(buf: nat, m: nat, q: nat, r: nat)
    requires m > 0 && buf == r + m * q
    ensures (buf - r) / m == q
  {
    DivModOfSum(0, q, m);
  }

  // ----- The bit libraries

  /** What the reader may be built on: no library, one whose results are unsigned (bit32, numberlua), or
      one whose results are signed (the module named bit, which is tried first). */
  datatype BitLibrary = Absent | Unsigned | Signed

  /** A 32-bit result as the library returns it. */
  function Word(signed: bool, v: nat): (w: int)
    requires v <= BitOps.MODM
    ensures w % BitOps.MOD == v
    ensures !signed || v < 0x8000_0000 ==> w == v
  {
    if signed && v >= 0x8000_0000 then v - BitOps.MOD else v
  }

  /** band, lshift and rshift of the library; operands are taken modulo 2^32. */
  function LibBand(signed: bool, a: int, b: int): int {
    var v := BitOps.Band(a % BitOps.MOD, b % BitOps.MOD);
    BitOps.BandFits(a % BitOps.MOD, b % BitOps.MOD);
    Word(signed, v)
  }

  function LibRshift(signed: bool, a: int, n: nat): int {
    ShrAtMost(a % BitOps.MOD, n);
    Word(signed, BitOps.Rshift(a % BitOps.MOD, n))
  }

  function LibLshift(signed: bool, a: int, n: nat): int {
    Word(signed, BitOps.Lshift(a % BitOps.MOD, n))
  }

  lemma {:induction false} ShrAtMost(v: nat, n: nat)
    ensures Shr(v, n) <= v
  {
    if n != 0 { ShrAtMost(v / 2, n - 1); }
  }

  /** The same split with 32-bit operations, on a buffer that holds a value of 32 bits. Only a whole
      word shows whether the library is signed. */
  method SplitNative(buf: int, n: nat, signed: bool, ghost value: nat) returns (bits: int, rest: nat, ghost low: nat)
    requires value <= BitOps.MODM && n <= 32
    requires buf == Word(signed, value) && (n == 0 ==> buf == value)
    ensures low < Pow2(n) && value == low + Shl(rest, n)
    ensures low <= BitOps.MODM && bits == if n == 32 then Word(signed, low) else low
  {
    hide Pow2, Shr, Shl, BitOps.Band, BitOps.Rshift, Word;
    ArithmeticSplit(value, n);
    low := value % Pow2(n);
    if n == 0 {
      NothingToSplit(value);
      bits, rest := 0, buf;
    } else if n == 32 {
      WholeWord(value);
      bits, rest := buf, 0;
    } else {
      NativeMask(n);
      BitOps.MaskIsMod(value, n);
      NativeShift(value, n);
      HalfWord(value, n);
      bits := LibBand(signed, buf, LibRshift(signed, 0xffff_ffff, 32 - n));
      rest := LibRshift(signed, buf, n);
    }
  }

  /** What is left of a word that is cut anywhere has no sign. */
  lemma HalfWord(value: nat, n: nat)
    requires value <= BitOps.MODM && 1 <= n < 32
    ensures 1 <= Pow2(n) <= 0x8000_0000 && value % Pow2(n) < 0x8000_0000 && Shr(value, n) < 0x8000_0000
  {
    hide Shr, Shl;
    BitOps.ModIsPow2();
    assert Pow2(32) == 2 * Pow2(31);
    Pow2Mono(n, 31);
    DivModFacts(value, Pow2(n));
    ArithmeticSplit(value, n);
    if Shr(value, n) >= 0x8000_0000 {
      ShlAtLeast(Shr(value, n), n, 31);
      Pow2Mono(32, n + 31);
    }
  }

  lemma NoSignYet(signed: bool, value: nat, n: nat)
    requires value < Pow2(n) && value <= BitOps.MODM
    ensures n < 32 ==> Word(signed, value) == value
  {
    if n < 32 {
      Pow2Mono(n, 31);
      BitOps.ModIsPow2();
      assert Pow2(32) == 2 * Pow2(31);
    }
  }

  lemma WordIs(signed: bool, value: nat)
    requires value <= BitOps.MODM
    ensures Word(signed, value) == if signed && value >= 0x8000_0000 then value - 0x1_0000_0000 else value
  {
  }

  /** A byte added to a buffer below 32 bits, whatever the sign of the shifted byte. */
  lemma SignedAppend(signed: bool, value: nat, b: byte, n: nat)
    requires n <= 24 && value < Pow2(n)
    ensures value + Shl(b, n) <= BitOps.MODM && Shl(b, n) <= BitOps.MODM
    ensures LibLshift(signed, b, n) == Word(signed, Shl(b, n))
    ensures value + LibLshift(signed, b, n) == Word(signed, value + Shl(b, n))
  {
    hide Pow2, Shl, BitOps.Lshift;
    NativeAppend(b, n);
    BytePlace(b, n);
  }

  lemma ByteFetched(signed: bool, value: nat, n: nat, s: seq<byte>, k: nat)
    requires n <= 24 && value < Pow2(n) && k < |s|
    ensures var more := value + Shl(s[k], n);
            && more < Pow2(n + 8) && more <= BitOps.MODM
            && value + LibLshift(signed, s[k], n) == Word(signed, more) && (n + 8 < 32 ==> Word(signed, more) == more)
            && ToBits(more, n + 8) + BytesToBits(s[k + 1..]) == ToBits(value, n) + BytesToBits(s[k..])
  {
    hide Pow2, Shl, LibLshift, Word, ToBits, BytesToBits;
    AppendByte(value, n, s, k);
    SignedAppend(signed, value, s[k], n);
    NoSignYet(signed, value + Shl(s[k], n), n + 8);
  }

  /** A shifted byte fits a word, and it has the sign bit or leaves room below it. */
  lemma BytePlace(b: byte, n: nat)
    requires n <= 24
    ensures Shl(b, n) + Pow2(n) <= BitOps.MOD
    ensures Shl(b, n) >= 0x8000_0000 || Shl(b, n) + Pow2(n) <= 0x8000_0000
  {
    hide Shl;
    BitOps.ModIsPow2();
    assert Pow2(8) == 256 && Pow2(32) == 2 * Pow2(31);
    hide Pow2;
    ShlBelow(b, n, 8);
    Pow2Mono(n + 8, 32);
    if b < Pow2(31 - n) {
      ShlBelow(b, n, 31 - n);
    } else {
      ShlAtLeast(b, n, 31 - n);
    }
  }

  lemma NativeShift(buf: nat, n: nat)
    requires buf <= BitOps.MODM
    ensures BitOps.Rshift(buf, n) == Shr(buf, n)
  {
    hide Shr, Shl;
    assert buf % BitOps.MOD == buf;
  }

  lemma NativeMask(n: nat)
    requires n < 32
    ensures BitOps.Rshift(0xffff_ffff, 32 - n) == Pow2(n) - 1
  {
    hide Pow2, Shr, Shl;
    BitOps.ModIsPow2();
    Pow2Add(n, 32 - n);
    var p, q := Pow2(n), Pow2(32 - n);
    assert q * (p - 1) == p * q - q;
    ShrOfParts(0xffff_ffff, q - 1, p - 1, 32 - n);
  }

  lemma NativeAppend(b: byte, n: nat)
    requires n <= 24
    ensures BitOps.Lshift(b, n) == Shl(b, n)
  {
    assert Pow2(8) == 256;
    ShlBelow(b, n, 8);
    Pow2Mono(n + 8, 32);
    BitOps.ModIsPow2();
  }

  class BitStream {
    const input: seq<byte>
    const library: BitLibrary
    var next: nat
    var bufByte: int
    var bufNbit: nat

    ghost predicate Valid()
      reads this
    {
      next <= |input| && 0 <= bufByte < Pow2(bufNbit)
    }

    /** The bits not yet read. */
    ghost function Remaining(): (bits: seq<bool>)
      requires Valid()
      reads this
      ensures |bits| == bufNbit + 8 * (|input| - next)
    {
      ToBits(bufByte, bufNbit) + BytesToBits(input[next..])
    }

    constructor (input: seq<byte>, library: BitLibrary)
      ensures Valid() && bufNbit == 0 && this.input == input && this.library == library
      ensures Remaining() == BytesToBits(input)
    {
      this.input := input;
      this.library := library;
      next := 0;
      bufByte := 0;
      bufNbit := 0;
      new;
      assert input[0..] == input;
    }

    method NbitsLeftInByte() returns (n: nat)
      ensures n == bufNbit
    {
      n := bufNbit;
    }

    /** The byte stream below (bytestream_from_string). */
    method NextByte() returns (b: Option<byte>)
      requires Valid()
      modifies this`next
      ensures Valid()
      ensures old(next) == |input| ==> b == None && next == old(next)
      ensures old(next) < |input| ==> b == Some(input[old(next)]) && next == old(next) + 1
    {
      b := None;
      if next < |input| {
        b := Some(input[next]);
        next := next + 1;
      }
    }

    /** The reader used when no bit library is present. */
    method ReadArithmetic(nbits: nat) returns (r: Option<nat>)
      requires Valid()
      modifies this
      ensures Valid()
      ensures match ReadBits(old(Remaining()), nbits)
              case None => r == None && Remaining() == old(Remaining())
              case Some((v, rest)) => r == Some(v) && Remaining() == rest
      ensures r.None? ==> bufNbit < nbits
      ensures r.Some? ==> bufNbit == RefillLevel(old(bufNbit), nbits) - nbits
    {
      hide Pow2, Shl, Shr, ToBits, BytesToBits, LsbVal, RefillLevel;
      while bufNbit < nbits
        invariant Valid() && Remaining() == old(Remaining())
        invariant RefillLevel(bufNbit, nbits) == RefillLevel(old(bufNbit), nbits)
        decreases |input| - next
      {
        var b := NextByte();
        if b.None? {
          assert input[next..] == [];
          return None;
        }
        AppendByte(bufByte, bufNbit, input, next - 1);
        ShlIsProduct(b.value, bufNbit);
        RefillStep(bufNbit, nbits);
        bufByte := bufByte + Pow2(bufNbit) * b.value;
        bufNbit := bufNbit + 8;
      }
      RefillStep(bufNbit, nbits);
      var bits, rest := SplitArithmetic(bufByte, nbits);
      TakeBits(bufByte, bufNbit, nbits, bits, rest, BytesToBits(input[next..]));
      bufByte := rest;
      bufNbit := bufNbit - nbits;
      r := Some(bits);
    }

    /** The reader built on a library of 32-bit operations, where the buffer never has to hold more
        than 32 bits: for every read of at most 24 bits from a buffer below 8 bits, and for the aligned
        32-bit read. A full buffer of a signed library can be negative; of the bits taken off, only
        a whole word keeps the sign. */
    method ReadNative(nbits: nat) returns (r: Option<int>)
      requires Valid() && library != Absent
      requires nbits <= 32 && bufNbit < 32 && RefillLevel(bufNbit, nbits) <= 32
      modifies this
      ensures Valid()
      ensures match ReadBits(old(Remaining()), nbits)
              case None => r == None && Remaining() == old(Remaining())
              case Some((v, rest)) =>
                && r == Some(if library == Signed && nbits == 32 && v >= 0x8000_0000 then v - 0x1_0000_0000 else v)
                && Remaining() == rest
      ensures r.None? ==> bufNbit < nbits
      ensures r.Some? ==> bufNbit == RefillLevel(old(bufNbit), nbits) - nbits
    {
      hide Pow2, Shl, Shr, ToBits, BytesToBits, LsbVal, RefillLevel, LibLshift, Word, ReadBits;
      var signed := library == Signed;
      ghost var value: nat := bufByte;
      BufferFitsWord(value, bufNbit);
      NoSignYet(signed, value, bufNbit);
      RefillStep(bufNbit, nbits);
      while bufNbit < nbits
        invariant next <= |input| && value < Pow2(bufNbit)
        invariant ToBits(value, bufNbit) + BytesToBits(input[next..]) == old(Remaining())
        invariant RefillLevel(bufNbit, nbits) == RefillLevel(old(bufNbit), nbits)
        invariant value <= BitOps.MODM && bufByte == Word(signed, value) && (bufNbit < 32 ==> bufByte == value)
        decreases |input| - next
      {
        var b := NextByte();
        if b.None? {
          assert input[next..] == [];
          TooFewBits(old(Remaining()), nbits);
          return None;
        }
        RefillStep(bufNbit, nbits);
        ByteFetched(signed, value, bufNbit, input, next - 1);
        bufByte := bufByte + LibLshift(signed, b.value, bufNbit);
        value, bufNbit := value + Shl(b.value, bufNbit), bufNbit + 8;
      }
      RefillStep(bufNbit, nbits);
      var bits, rest, low := SplitNative(bufByte, nbits, signed, value);
      TakeBits(value, bufNbit, nbits, low, rest, BytesToBits(input[next..]));
      WordIs(signed, low);
      bufByte := rest;
      bufNbit := bufNbit - nbits;
      r := Some(bits);
    }

    /** o:read, whichever variant the stream was made with. */
    method Read(nbits: nat) returns (r: Option<nat>)
      requires Valid() && bufNbit < 24 && nbits <= 24
      modifies this
      ensures Valid() && bufNbit < 24
      ensures match ReadBits(old(Remaining()), nbits)
              case None => r == None && Remaining() == old(Remaining())
              case Some((v, rest)) => r == Some(v) && Remaining() == rest
      ensures r.Some? && old(bufNbit) < 8 ==> bufNbit < 8
    {
      hide RefillLevel, ReadBits;
      RefillBound(bufNbit, nbits);
      if library == Absent {
        r := ReadArithmetic(nbits);
      } else {
        var word := ReadNative(nbits);
        r := if word.None? then None else Some(word.value);
      }
    }

    /** Two reads in a row, the first of which fails: the bits it had fetched are not lost, and the
        second gives the bits it asks for if so many are left, and fails otherwise. */
    method AfterFailedRead(n: nat, m: nat) returns (second: Option<nat>)
      requires Valid() && bufNbit < 24 && n <= 24 && m <= 24 && |Remaining()| < n
      modifies this
      ensures Valid() && bufNbit < 24
      ensures m <= |old(Remaining())| ==>
                second == Some(LsbVal(old(Remaining())[..m])) && Remaining() == old(Remaining())[m..]
      ensures m > |old(Remaining())| ==> second == None && Remaining() == old(Remaining())
    {
      var first := Read(n);
      assert first == None;
      second := Read(m);
    }

    /** Reading the bits left in the byte always succeeds and lands on a byte boundary of the input. */
    method SkipToByte()
      requires Valid() && bufNbit < 8
      modifies this
      ensures Valid() && bufNbit == 0
      ensures Remaining() == old(Remaining())[|old(Remaining())| % 8..]
      ensures Remaining() == BytesToBits(input[next..])
    {
      hide ToBits, BytesToBits, LsbVal;
      var n := NbitsLeftInByte();
      ghost var whole := |input| - next;
      var r := Read(n);
      OnlyWholeBytes(bufNbit, |input| - next, whole);
      EmptyBuffer(bufByte);
      ModOfWhole(n, whole);
    }
  }

  lemma OnlyWholeBytes(level: nat, bytes: nat, whole: nat)
    requires level < 8 && level + 8 * bytes == 8 * whole
    ensures level == 0
  {
  }

  lemma ModOfWhole(n: nat, whole: nat)
    requires n < 8
    ensures (n + 8 * whole) % 8 == n
  {
  }

  lemma EmptyBuffer(buf: nat)
    ensures ToBits(buf, 0) == []
  {
  }

  lemma BufferFitsWord(buf: nat, n: nat)
    requires buf < Pow2(n) && n <= 32
    ensures buf <= BitOps.MODM
  {
    Pow2Mono(n, 32);
    BitOps.ModIsPow2();
  }

  lemma NothingToSplit(buf: nat)
    ensures buf % Pow2(0) == 0 && Shr(buf, 0) == buf
  {
  }

  lemma WholeWord(buf: nat)
    requires buf <= BitOps.MODM
    ensures buf % Pow2(32) == buf && Shr(buf, 32) == 0
  {
    BitOps.ModIsPow2();
    ShrOfSum(buf, 0, 32);
    ShlIsProduct(0, 32);
  }
}
