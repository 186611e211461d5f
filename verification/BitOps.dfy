/** numberlua.lua: bitwise operations computed with ordinary arithmetic.
    The digit loops are methods; the operations derived from them by number identities are
    functions over the bit-level exclusive or that those loops are proved to compute. */
module BitOps {
  import opened Bits

  const MOD: nat := 0x1_0000_0000
  const MODM: nat := 0xffff_ffff

  lemma ModIsPow2()
    ensures Pow2(32) == MOD
  {
    BytePower();
    Pow2Add(8, 8);
    Pow2Add(16, 16);
  }

  // ----- Bit-level definitions

  function Xor(a: nat, b: nat): nat
    decreases a + b
  {
    if a == 0 && b == 0 then 0 else (a % 2 + b % 2) % 2 + 2 * Xor(a / 2, b / 2)
  }

  function And(a: nat, b: nat): nat
    decreases a + b
  {
    if a == 0 && b == 0 then 0 else a % 2 * (b % 2) + 2 * And(a / 2, b / 2)
  }

  lemma {:induction false} XorBits(a: nat, b: nat, i: nat)
    ensures Bit(Xor(a, b), i) == (Bit(a, i) != Bit(b, i))
    decreases i
  {
    if i != 0 { XorBits(a / 2, b / 2, i - 1); }
  }

  lemma {:induction false} AndBits(a: nat, b: nat, i: nat)
    ensures Bit(And(a, b), i) == (Bit(a, i) && Bit(b, i))
    decreases i
  {
    if a == 0 && b == 0 {
    } else {
      var p := a % 2 * (b % 2);
      assert p == if a % 2 == 1 && b % 2 == 1 then 1 else 0;
      if i != 0 { AndBits(a / 2, b / 2, i - 1); }
    }
  }

  lemma {:induction false} XorZero(a: nat)
    ensures Xor(a, 0) == a && Xor(0, a) == a
  {
    if a != 0 { XorZero(a / 2); }
  }

  /** Addition is exclusive or plus twice the carries. */
  lemma {:induction false} SumIsXorPlusCarries(a: nat, b: nat)
    ensures a + b == Xor(a, b) + 2 * And(a, b)
    decreases a + b
  {
    if a != 0 || b != 0 {
      SumIsXorPlusCarries(a / 2, b / 2);
      var p := a % 2 * (b % 2);
      assert p == if a % 2 == 1 && b % 2 == 1 then 1 else 0;
    }
  }

  /** One k-bit digit of each operand can be combined on its own. */
  lemma {:induction false} XorByDigit(x: nat, a: nat, y: nat, b: nat, k: nat)
    requires x < Pow2(k) && y < Pow2(k)
    ensures Xor(x, y) < Pow2(k)
    ensures Xor(x + Shl(a, k), y + Shl(b, k)) == Xor(x, y) + Shl(Xor(a, b), k)
  {
    hide Xor;
    if k == 0 {
      XorZero(0);
    } else {
      XorByDigit(x / 2, a, y / 2, b, k - 1);
      XorOfHalves(x, y, Shl(a, k - 1), Shl(b, k - 1), Shl(Xor(a, b), k - 1));
    }
  }

  lemma XorOfHalves(x: nat, y: nat, u: nat, v: nat, w: nat)
    requires Xor(x / 2 + u, y / 2 + v) == Xor(x / 2, y / 2) + w
    ensures Xor(x + 2 * u, y + 2 * v) == Xor(x, y) + 2 * w
    ensures Xor(x, y) <= 1 + 2 * Xor(x / 2, y / 2)
  {
    hide Xor;
    XorRecursion(x + 2 * u, y + 2 * v);
    XorRecursion(x, y);
    assert (x + 2 * u) % 2 == x % 2 && (x + 2 * u) / 2 == x / 2 + u;
    assert (y + 2 * v) % 2 == y % 2 && (y + 2 * v) / 2 == y / 2 + v;
  }

  lemma XorRecursion(m: nat, n: nat)
    ensures Xor(m, n) == (m % 2 + n % 2) % 2 + 2 * Xor(m / 2, n / 2)
  {
  }

  // ----- The digit loops (make_bitop_uncached, make_bitop)

  lemma XorOfDigits(am: nat, a1: nat, bm: nat, b1: nat, k: nat)
    requires am < Pow2(k) && bm < Pow2(k)
    ensures Xor(am + Pow2(k) * a1, bm + Pow2(k) * b1) == Xor(am, bm) + Pow2(k) * Xor(a1, b1)
  {
    hide Pow2, Xor, Shl;
    ShlIsProduct(a1, k);
    ShlIsProduct(b1, k);
    ShlIsProduct(Xor(a1, b1), k);
    XorByDigit(am, a1, bm, b1, k);
  }

  /** What the digit loop will have computed when the digits seen so far give res and the
      digits of weight p and up are still to come. */
  function Total(res: nat, p: nat, rest: nat): nat { res + p * rest }

  /** One turn of the digit loop in base m: am and bm are the low digits, a1 and b1 what is left. */
  lemma DigitStep(a: nat, am: nat, a1: nat, b: nat, bm: nat, b1: nat, k: nat, m: nat, digit: nat, res: nat, p: nat)
    requires m == Pow2(k) && am < m && bm < m && digit == Xor(am, bm)
    requires a == am + m * a1 && b == bm + m * b1
    ensures digit * p >= 0
    ensures Total(res, p, Xor(a, b)) == Total(res + digit * p, p * m, Xor(a1, b1))
  {
    hide Pow2, Xor;
    XorOfDigits(am, a1, bm, b1, k);
    DistributeStep(res, p, digit, m, Xor(a1, b1));
  }

  lemma DistributeStep(res: nat, p: nat, t: nat, m: nat, x: nat)
    ensures res + p * (t + m * x) == (res + t * p) + (p * m) * x
  {
    assert p * (t + m * x) == p * t + p * (m * x);
    assert p * (m * x) == (p * m) * x;
  }

  lemma LastStep(a: nat, b: nat, res: nat, p: nat)
    requires a == 0 || b == 0
    ensures res + (a + b) * p == Total(res, p, Xor(a, b))
  {
    XorZero(a);
    XorZero(b);
  }

  lemma DigitBases()
    ensures Pow2(1) == 2 && Pow2(4) == 16
    ensures Xor(0, 0) == 0 && Xor(0, 1) == 1 && Xor(1, 0) == 1 && Xor(1, 1) == 0
  {
  }

  lemma DigitParts(a: nat, m: nat)
    requires m == 2 || m == 16
    ensures 0 <= a % m < m && a - a % m >= 0 && a == a % m + m * ((a - a % m) / m)
    ensures a != 0 ==> (a - a % m) / m < a
  {
    if m == 2 {
      assert a == a % 2 + 2 * ((a - a % 2) / 2);
    } else {
      assert a == a % 16 + 16 * ((a - a % 16) / 16);
    }
  }

  /** The lowest base-m digit of a, and a without it. */
  method SplitDigit(a: nat, m: nat) returns (am: nat, rest: nat)
    requires m == 2 || m == 16
    ensures am < m && a == am + m * rest
    ensures a != 0 ==> rest < a
  {
    DigitParts(a, m);
    am := a % m;
    rest := (a - am) / m;
  }

  /** The base-2 loop over the literal table of the exclusive or. */
  method BitopBase2(a0: nat, b0: nat) returns (res: nat)
    ensures res == Xor(a0, b0)
  {
    var t := [[0, 1], [1, 0]];
    var p: nat := 1;
    var a: nat, b: nat := a0, b0;
    res := 0;
    assert Total(res, p, Xor(a, b)) == Xor(a0, b0);
    DigitBases();
    hide Total, Xor, Pow2;
    while a != 0 && b != 0
      invariant Total(res, p, Xor(a, b)) == Xor(a0, b0)
      decreases a
    {
      var am, a1 := SplitDigit(a, 2);
      var bm, b1 := SplitDigit(b, 2);
      var digit := t[am][bm];
      DigitStep(a, am, a1, b, bm, b1, 1, 2, digit, res, p);
      res := res + digit * p;
      a, b := a1, b1;
      p := p * 2;
    }
    LastStep(a, b, res, p);
    res := res + (a + b) * p;
  }

  /** The two-level table of memoised base-2 results that serves as digit table for base 16. */
  class XorMemo {
    var cache: map<nat, map<nat, nat>>

    ghost predicate Valid()
      reads this
    {
      forall a, b :: a in cache && b in cache[a] ==> cache[a][b] == Xor(a, b)
    }

    constructor ()
      ensures Valid() && cache == map[]
    {
      cache := map[];
    }

    method Lookup(a: nat, b: nat) returns (v: nat)
      requires Valid()
      modifies this
      ensures Valid() && v == Xor(a, b)
      ensures a in cache && b in cache[a]
    {
      if a !in cache {
        cache := cache[a := map[]];
      }
      if b !in cache[a] {
        v := BitopBase2(a, b);
        var row: map<nat, nat> := cache[a];
        row := row[b := v];
        cache := cache[a := row];
      } else {
        v := cache[a][b];
      }
    }

    /** bxor: the base-16 loop. */
    method Bxor(a0: nat, b0: nat) returns (res: nat)
      requires Valid()
      modifies this
      ensures Valid() && res == Xor(a0, b0)
    {
      var p: nat := 1;
      var a: nat, b: nat := a0, b0;
      res := 0;
      assert Total(res, p, Xor(a, b)) == Xor(a0, b0);
      DigitBases();
      hide Total, Xor, Pow2, Valid;
      while a != 0 && b != 0
        invariant Valid()
        invariant Total(res, p, Xor(a, b)) == Xor(a0, b0)
        decreases a
      {
        var am, a1 := SplitDigit(a, 16);
        var bm, b1 := SplitDigit(b, 16);
        var digit := Lookup(am, bm);
        DigitStep(a, am, a1, b, bm, b1, 4, 16, digit, res, p);
        res := res + digit * p;
        a, b := a1, b1;
        p := p * 16;
      }
      LastStep(a, b, res, p);
      res := res + (a + b) * p;
    }
  }

  // ----- Operations derived by number identities

  function Bnot(a: int): int { MODM - a }

  function Band(a: nat, b: nat): nat
  {
    SumIsXorPlusCarries(a, b);
    ((a + b) - Xor(a, b)) / 2
  }

  function Bor(a: nat, b: nat): int
    requires a <= MODM && b <= MODM
  {
    MODM - Band(MODM - a, MODM - b)
  }

  /** The low 32 bits moved down; a negative displacement moves up. Shr divides by the power of two. */
  function Rshift(a: nat, disp: int): nat
    decreases if disp < 0 then 1 else 0
  {
    if disp < 0 then Lshift(a, -disp) else Shr(a % MOD, disp)
  }

  /** The value moved up and cut to 32 bits; a negative displacement moves down. */
  function Lshift(a: nat, disp: int): nat
    decreases if disp < 0 then 1 else 0
  {
    if disp < 0 then Rshift(a, -disp) else Shl(a, disp) % MOD
  }

  function Extract(n: nat, field: nat, width: nat): nat {
    Band(Rshift(n, field), Pow2(width) - 1)
  }

  function Replace(n: nat, v: nat, field: nat, width: nat): nat
  {
    var mask1 := Pow2(width) - 1;
    var v1 := Band(v, mask1);
    var mask := Bnot(Lshift(mask1, field));
    Band(n, mask) + Lshift(v1, field)
  }

  function Bswap(x: nat): nat {
    var a, x1 := Band(x, 0xff), Rshift(x, 8);
    var b, x2 := Band(x1, 0xff), Rshift(x1, 8);
    var c, x3 := Band(x2, 0xff), Rshift(x2, 8);
    var d := Band(x3, 0xff);
    PushByte(PushByte(PushByte(a, b), c), d)
  }

  function PushByte(high: nat, low: nat): nat { Lshift(high, 8) + low }

  function Rrotate(x: nat, disp: int): nat {
    var d := disp % 32;
    var low := Band(x, Pow2(d) - 1);
    Rshift(x, d) + Lshift(low, 32 - d)
  }

  function Lrotate(x: nat, disp: int): nat { Rrotate(x, -disp) }

  function Arshift(x: nat, disp: nat): nat
  {
    var z := Rshift(x, disp);
    if x >= 0x8000_0000 then z + Lshift(Pow2(disp) - 1, 32 - disp) else z
  }

  // ----- What the derived operations mean, bit by bit

  /** band is bitwise AND, for all naturals. */
  lemma BandIsBitwise(a: nat, b: nat, i: nat)
    ensures Band(a, b) == And(a, b)
    ensures Bit(Band(a, b), i) == (Bit(a, i) && Bit(b, i))
  {
    SumIsXorPlusCarries(a, b);
    AndBits(a, b, i);
  }

  lemma {:induction false} ComplementBits(a: nat, k: nat, i: nat)
    requires a < Pow2(k) && i < k
    ensures Bit(Pow2(k) - 1 - a, i) == !Bit(a, i)
  {
    var c := Pow2(k) - 1 - a;
    assert c % 2 == 1 - a % 2 && c / 2 == Pow2(k - 1) - 1 - a / 2;
    if i != 0 { ComplementBits(a / 2, k - 1, i - 1); }
  }

  lemma {:induction false} HighBitsAreZero(a: nat, k: nat, i: nat)
    requires a < Pow2(k) && k <= i
    ensures !Bit(a, i)
  {
    if k == 0 { ZeroHasNoBits(i); } else { HighBitsAreZero(a / 2, k - 1, i - 1); }
  }

  lemma {:induction false} AndBelow(a: nat, b: nat, k: nat)
    requires a < Pow2(k)
    ensures And(a, b) < Pow2(k)
    decreases k
  {
    if k == 0 {
      AndZero(b);
    } else {
      AndBelow(a / 2, b / 2, k - 1);
      var p := a % 2 * (b % 2);
      assert 0 <= p <= 1;
    }
  }

  lemma BandFits(a: nat, b: nat)
    requires a <= MODM
    ensures Band(a, b) <= MODM
  {
    ModIsPow2();
    BandIsBitwise(a, b, 0);
    AndBelow(a, b, 32);
  }

  lemma {:induction false} AndZero(b: nat)
    ensures And(0, b) == 0
  {
    if b != 0 { AndZero(b / 2); }
  }

  /** bnot and bor on 32-bit values. */
  lemma BorIsBitwise(a: nat, b: nat, i: nat)
    requires a <= MODM && b <= MODM && i < 32
    ensures Bit(Bnot(a), i) == !Bit(a, i)
    ensures 0 <= Bor(a, b) <= MODM
    ensures Bit(Bor(a, b), i) == (Bit(a, i) || Bit(b, i))
  {
    ModIsPow2();
    hide Bit, Pow2;
    var na, nb := MODM - a, MODM - b;
    ComplementBits(a, 32, i);
    ComplementBits(b, 32, i);
    BandIsBitwise(na, nb, i);
    AndBelow(na, nb, 32);
    ComplementBits(Band(na, nb), 32, i);
  }

  /** Masking with width ones keeps the low width bits. */
  lemma MaskIsMod(a: nat, k: nat)
    ensures Band(a, Pow2(k) - 1) == a % Pow2(k)
  {
    var mask := Pow2(k) - 1;
    SumIsXorPlusCarries(a, mask);
    DivModFacts(a, Pow2(k));
    AndSymmetric(a, mask);
    AndBelow(mask, a, k);
    forall i: nat | i < k ensures Bit(Band(a, mask), i) == Bit(a % Pow2(k), i) {
      BandIsBitwise(a, mask, i);
      BitOfMod(a, k, i);
      ComplementBits(0, k, i);
      ZeroHasNoBits(i);
    }
    BandIsBitwise(a, mask, 0);
    BitExtensionality(Band(a, mask), a % Pow2(k), k);
  }

  lemma {:induction false} AndSymmetric(a: nat, b: nat)
    ensures And(a, b) == And(b, a)
    decreases a + b
  {
    if a != 0 || b != 0 { AndSymmetric(a / 2, b / 2); }
  }

  // ----- Shifts

  lemma RshiftBits(a: nat, disp: nat, i: nat)
    ensures Rshift(a, disp) <= MODM
    ensures Bit(Rshift(a, disp), i) == (i + disp < 32 && Bit(a, i + disp))
  {
    ModIsPow2();
    ShrBelow(a % MOD, disp);
    BitOfShr(a % MOD, disp, i);
    BitOfMod(a, 32, i + disp);
  }

  lemma LshiftBits(a: nat, disp: nat, i: nat)
    ensures Lshift(a, disp) <= MODM
    ensures Bit(Lshift(a, disp), i) == (disp <= i < 32 && Bit(a, i - disp))
  {
    ModIsPow2();
    BitOfMod(Shl(a, disp), 32, i);
    BitOfShl(a, disp, i);
  }

  /** Displacements below zero shift the other way. */
  lemma NegativeShifts(a: nat, disp: int, i: nat)
    requires disp < 0
    ensures Bit(Rshift(a, disp), i) == (0 <= i + disp && i < 32 && Bit(a, i + disp))
    ensures Bit(Lshift(a, disp), i) == (i - disp < 32 && Bit(a, i - disp))
  {
    hide Bit, Shl, Shr;
    assert Rshift(a, disp) == Lshift(a, -disp) && Lshift(a, disp) == Rshift(a, -disp);
    RshiftBits(a, -disp, i);
    LshiftBits(a, -disp, i);
  }

  // ----- Fields

  lemma ExtractBits(n: nat, field: nat, width: nat, i: nat)
    ensures Extract(n, field, width) < Pow2(width)
    ensures Bit(Extract(n, field, width), i) == (i < width && field + i < 32 && Bit(n, field + i))
  {
    MaskIsMod(Rshift(n, field), width);
    BitOfMod(Rshift(n, field), width, i);
    RshiftBits(n, field, i);
  }

  /** Numbers with no common bit add without carries. */
  lemma DisjointSum(a: nat, b: nat, i: nat)
    requires a <= MODM && b <= MODM
    requires forall j: nat :: j < 32 ==> !(Bit(a, j) && Bit(b, j))
    ensures a + b <= MODM
    ensures Bit(a + b, i) == (Bit(a, i) || Bit(b, i))
  {
    ModIsPow2();
    AndBelow(a, b, 32);
    forall j: nat | j < 32 ensures Bit(And(a, b), j) == Bit(0, j) {
      AndBits(a, b, j);
      ZeroHasNoBits(j);
    }
    BitExtensionality(And(a, b), 0, 32);
    SumIsXorPlusCarries(a, b);
    XorByDigit(a, 0, b, 0, 32);
    XorBits(a, b, i);
    if i >= 32 { HighBitsAreZero(a, 32, i); }
  }

  lemma ReplaceMaskBits(field: nat, width: nat, i: nat)
    requires field + width <= 32 && i < 32
    ensures 0 <= Bnot(Lshift(Pow2(width) - 1, field)) <= MODM
    ensures Bit(Bnot(Lshift(Pow2(width) - 1, field)), i) == !(field <= i < field + width)
  {
    var ones := Pow2(width) - 1;
    LshiftBits(ones, field, i);
    BorIsBitwise(Lshift(ones, field), 0, i);
    if field <= i {
      if i < field + width {
        ComplementBits(0, width, i - field);
        ZeroHasNoBits(i - field);
      } else {
        HighBitsAreZero(ones, width, i - field);
      }
    }
  }

  lemma ReplaceBits(n: nat, v: nat, field: nat, width: nat, i: nat)
    requires n <= MODM && field + width <= 32 && i < 32
    ensures Replace(n, v, field, width) <= MODM
    ensures Bit(Replace(n, v, field, width), i) == if field <= i < field + width then Bit(v, i - field) else Bit(n, i)
  {
    ReplacePartsBits(n, v, field, width, i);
    var mask := Bnot(Lshift(Pow2(width) - 1, field));
    var kept, put := Band(n, mask), Lshift(Band(v, Pow2(width) - 1), field);
    forall j: nat | j < 32 ensures !(Bit(kept, j) && Bit(put, j)) {
      ReplacePartsBits(n, v, field, width, j);
    }
    DisjointSum(kept, put, i);
  }

  /** The part of n that replace keeps and the part of v that it puts in. */
  lemma ReplacePartsBits(n: nat, v: nat, field: nat, width: nat, i: nat)
    requires n <= MODM && field + width <= 32 && i < 32
    ensures var mask := Bnot(Lshift(Pow2(width) - 1, field));
            && 0 <= mask <= MODM
            && Band(n, mask) <= MODM
            && Bit(Band(n, mask), i) == (Bit(n, i) && !(field <= i < field + width))
    ensures var put := Lshift(Band(v, Pow2(width) - 1), field);
            && put <= MODM
            && Bit(put, i) == (field <= i < field + width && Bit(v, i - field))
  {
    hide Bit, Band, Lshift, Bnot;
    ReplaceMaskBits(field, width, i);
    var mask := Bnot(Lshift(Pow2(width) - 1, field));
    BandIsBitwise(n, mask, i);
    BandFits(n, mask);
    MaskIsMod(v, width);
    LshiftBits(v % Pow2(width), field, i);
    if field <= i { BitOfMod(v, width, i - field); }
  }

  /** Reading back a replaced field gives the value put there, cut to the field's width. */
  lemma ExtractOfReplace(n: nat, v: nat, field: nat, width: nat)
    requires n <= MODM && field + width <= 32
    ensures Replace(n, v, field, width) <= MODM
    ensures Extract(Replace(n, v, field, width), field, width) == v % Pow2(width)
  {
    hide Extract, Replace, Bit, Pow2;
    ReplaceBits(n, v, field, width, 0);
    var r := Replace(n, v, field, width);
    ExtractBits(r, field, width, 0);
    DivModFacts(v, Pow2(width));
    forall i: nat | i < width ensures Bit(Extract(r, field, width), i) == Bit(v % Pow2(width), i) {
      ExtractBits(r, field, width, i);
      ReplaceBits(n, v, field, width, field + i);
      BitOfMod(v, width, i);
    }
    BitExtensionality(Extract(r, field, width), v % Pow2(width), width);
  }

  /** Replacing one field leaves every disjoint field as it was. */
  lemma ReplaceKeepsOtherFields(n: nat, v: nat, field: nat, width: nat, other: nat, otherWidth: nat)
    requires n <= MODM && field + width <= 32 && other + otherWidth <= 32
    requires other + otherWidth <= field || field + width <= other
    ensures Replace(n, v, field, width) <= MODM
    ensures Extract(Replace(n, v, field, width), other, otherWidth) == Extract(n, other, otherWidth)
  {
    hide Extract, Replace, Bit, Pow2;
    ReplaceBits(n, v, field, width, 0);
    var r := Replace(n, v, field, width);
    ExtractBits(r, other, otherWidth, 0);
    ExtractBits(n, other, otherWidth, 0);
    forall i: nat | i < otherWidth
      ensures Bit(Extract(r, other, otherWidth), i) == Bit(Extract(n, other, otherWidth), i)
    {
      ExtractBits(r, other, otherWidth, i);
      ExtractBits(n, other, otherWidth, i);
      ReplaceBits(n, v, field, width, other + i);
    }
    BitExtensionality(Extract(r, other, otherWidth), Extract(n, other, otherWidth), otherWidth);
  }

  // ----- Byte swap

  function FourBytes(b3: byte, b2: byte, b1: byte, b0: byte): (x: nat)
    ensures x <= MODM
  {
    ((b3 * 256 + b2) * 256 + b1) * 256 + b0
  }

  lemma BytePower()
    ensures Pow2(8) == 256
  {
  }

  lemma LowByte(n: nat, high: nat, low: byte)
    requires n == high * 256 + low
    ensures Band(n, 0xff) == low
  {
    hide Band, Pow2;
    BytePower();
    MaskIsMod(n, 8);
  }

  lemma DropByte(n: nat, high: nat, low: byte)
    requires n == high * 256 + low <= MODM
    ensures Rshift(n, 8) == high
  {
    hide Pow2, Shr;
    BytePower();
    ShrOfParts(n, low, high, 8);
  }

  lemma PushByteIs(n: nat, high: nat, low: byte)
    requires n == high * 256 + low <= MODM
    ensures PushByte(high, low) == n
  {
    hide Pow2, Shl;
    BytePower();
    ShlIsProduct(high, 8);
  }

  /** x, x1 and x2 are what is left as the bytes are taken off; y1, y2 and y are built from them. */
  lemma BswapSteps(x: nat, x1: nat, x2: nat, b3: byte, b2: byte, b1: byte, b0: byte, y2: nat, y1: nat, y: nat)
    requires x == x1 * 256 + b0 <= MODM && x1 == x2 * 256 + b1 && x2 == b3 * 256 + b2
    requires y2 == b0 * 256 + b1 && y1 == y2 * 256 + b2 && y == y1 * 256 + b3 <= MODM
    ensures Bswap(x) == y
  {
    hide Band, Rshift, PushByte;
    LowByte(x, x1, b0);
    DropByte(x, x1, b0);
    LowByte(x1, x2, b1);
    DropByte(x1, x2, b1);
    LowByte(x2, b3, b2);
    DropByte(x2, b3, b2);
    LowByte(b3, 0, b3);
    PushByteIs(y2, b0, b1);
    PushByteIs(y1, y2, b2);
    PushByteIs(y, y1, b3);
  }

  lemma BswapReversesBytes(b3: byte, b2: byte, b1: byte, b0: byte)
    ensures Bswap(FourBytes(b3, b2, b1, b0)) == FourBytes(b0, b1, b2, b3)
  {
    hide Bswap;
    BswapSteps(FourBytes(b3, b2, b1, b0), (b3 * 256 + b2) * 256 + b1, b3 * 256 + b2, b3, b2, b1, b0,
               b0 * 256 + b1, (b0 * 256 + b1) * 256 + b2, FourBytes(b0, b1, b2, b3));
  }

  lemma BytesOf(x: nat) returns (b3: byte, b2: byte, b1: byte, b0: byte)
    requires x <= MODM
    ensures x == FourBytes(b3, b2, b1, b0)
  {
    var x1 := x / 256;
    var x2 := x1 / 256;
    b0, b1, b2, b3 := x % 256, x1 % 256, x2 % 256, x2 / 256;
  }

  /** bswap is its own inverse on 32-bit values. */
  lemma BswapInvolution(x: nat)
    requires x <= MODM
    ensures Bswap(Bswap(x)) == x
  {
    hide Bswap, FourBytes;
    var b3, b2, b1, b0 := BytesOf(x);
    BswapReversesBytes(b3, b2, b1, b0);
    BswapReversesBytes(b0, b1, b2, b3);
  }

  // ----- Rotation

  /** r is the 32-bit value whose bit i is bit (i + disp) mod 32 of x. */
  ghost predicate IsRotation(x: nat, disp: int, r: nat) {
    && x <= MODM
    && r <= MODM
    && forall i: nat :: i < 32 ==> Bit(r, i) == Bit(x, (i + disp) % 32)
  }

  lemma RotationIsUnique(x: nat, disp: int, r: nat, s: nat)
    requires IsRotation(x, disp, r) && IsRotation(x, disp, s)
    ensures r == s
  {
    ModIsPow2();
    BitExtensionality(r, s, 32);
  }

  lemma RotationsCompose(x: nat, a: int, y: nat, b: int, z: nat)
    requires IsRotation(x, a, y) && IsRotation(y, b, z)
    ensures IsRotation(x, a + b, z)
  {
    forall i: nat | i < 32 ensures Bit(z, i) == Bit(x, (i + (a + b)) % 32) {
      ModAdds(i, b, a);
    }
  }

  lemma ModAdds(i: int, b: int, a: int)
    ensures ((i + b) % 32 + a) % 32 == (i + (a + b)) % 32
  {
  }

  /** The two summands of rrotate, for a displacement already reduced to 0..31. */
  lemma RotatePartsBits(x: nat, d: nat, i: nat)
    requires x <= MODM && d < 32 && i < 32
    ensures Rshift(x, d) <= MODM
    ensures Bit(Rshift(x, d), i) == (i + d < 32 && Bit(x, i + d))
    ensures Lshift(Band(x, Pow2(d) - 1), 32 - d) <= MODM
    ensures Bit(Lshift(Band(x, Pow2(d) - 1), 32 - d), i) == (i + d >= 32 && Bit(x, i + d - 32))
  {
    RshiftBits(x, d, i);
    MaskIsMod(x, d);
    LshiftBits(x % Pow2(d), 32 - d, i);
    if i >= 32 - d { BitOfMod(x, d, i - (32 - d)); }
  }

  lemma SumOfRotateParts(x: nat, d: nat, u: nat, v: nat)
    requires x <= MODM && d < 32 && u <= MODM && v <= MODM
    requires forall i: nat :: i < 32 ==> Bit(u, i) == (i + d < 32 && Bit(x, i + d))
    requires forall i: nat :: i < 32 ==> Bit(v, i) == (i + d >= 32 && Bit(x, i + d - 32))
    ensures IsRotation(x, d, u + v)
  {
    DisjointSum(u, v, 0);
    forall i: nat {:trigger Bit(u + v, i)} | i < 32 ensures Bit(u + v, i) == Bit(x, (i + d) % 32) {
      DisjointSum(u, v, i);
      assert (i + d) % 32 == if i + d < 32 then i + d else i + d - 32;
    }
  }

  /** rrotate moves bit (i + disp) mod 32 to place i. */
  lemma RrotateRotates(x: nat, disp: int)
    requires x <= MODM
    ensures IsRotation(x, disp, Rrotate(x, disp))
  {
    var d := disp % 32;
    var u, v := Rshift(x, d), Lshift(Band(x, Pow2(d) - 1), 32 - d);
    RotatePartsBits(x, d, 0);
    forall i: nat | i < 32
      ensures Bit(u, i) == (i + d < 32 && Bit(x, i + d)) && Bit(v, i) == (i + d >= 32 && Bit(x, i + d - 32))
    {
      RotatePartsBits(x, d, i);
    }
    SumOfRotateParts(x, d, u, v);
    RotationReduces(x, disp, u + v);
  }

  lemma RotationReduces(x: nat, disp: int, r: nat)
    requires IsRotation(x, disp % 32, r)
    ensures IsRotation(x, disp, r)
  {
    forall i: nat | i < 32 ensures Bit(r, i) == Bit(x, (i + disp) % 32) {
      ModReduces(i, disp);
    }
  }

  lemma ModReduces(i: int, disp: int)
    ensures (i + disp % 32) % 32 == (i + disp) % 32
  {
  }

  /** Rotating by a and then by b is rotating by a + b, whatever their signs, and a rotation
      only depends on its displacement modulo 32. */
  lemma RotationsAdd(x: nat, a: int, b: int)
    requires x <= MODM
    ensures Rrotate(x, a) <= MODM
    ensures Rrotate(Rrotate(x, a), b) == Rrotate(x, a + b) == Rrotate(x, (a + b) % 32)
  {
    hide Rrotate;
    RrotateRotates(x, a);
    RrotateRotates(x, a + b);
    RrotateRotates(Rrotate(x, a), b);
    RotationsCompose(x, a, Rrotate(x, a), b, Rrotate(Rrotate(x, a), b));
    RotationIsUnique(x, a + b, Rrotate(x, a + b), Rrotate(Rrotate(x, a), b));
    RrotateRotates(x, (a + b) % 32);
    RotationReduces(x, a + b, Rrotate(x, (a + b) % 32));
    RotationIsUnique(x, a + b, Rrotate(x, a + b), Rrotate(x, (a + b) % 32));
  }

  /** lrotate undoes rrotate. */
  lemma LrotateUndoesRrotate(x: nat, disp: int)
    requires x <= MODM
    ensures Lrotate(Rrotate(x, disp), disp) == x
  {
    hide Rrotate;
    RotationsAdd(x, disp, -disp);
    RrotateByZero(x);
  }

  lemma RrotateByZero(x: nat)
    requires x <= MODM
    ensures Rrotate(x, 0) == x
  {
    hide Rrotate;
    RrotateRotates(x, 0);
    assert IsRotation(x, 0, x);
    RotationIsUnique(x, 0, x, Rrotate(x, 0));
  }

  // ----- Arithmetic shift

  function Signed(x: nat): int
    requires x <= MODM
  {
    if x >= 0x8000_0000 then x - MOD else x
  }

  /** arshift by 0..31 is floor division of the signed value. */
  lemma ArshiftIsFloorDivision(x: nat, disp: nat)
    requires x <= MODM && disp <= 31
    ensures Arshift(x, disp) <= MODM
    ensures Signed(Arshift(x, disp)) == Signed(x) / Pow2(disp)
  {
    hide Pow2, Arshift;
    var p, h := Pow2(disp), Pow2(31 - disp);
    PowersOfHalfWord(disp);
    DivModFacts(x, p);
    ArshiftCases(x, p, h, x / p, x % p);
    ArshiftSum(x, disp, p, h);
    SignedCases(x, Arshift(x, disp), x / p, p, h);
  }

  lemma SignedCases(x: nat, a: nat, z: nat, p: nat, h: nat)
    requires x <= MODM && z < 2 * h && (x >= 0x8000_0000 <==> z >= h)
    requires (p == 1 ==> h == 0x8000_0000) && (p > 1 ==> h <= 0x4000_0000) && p >= 1
    requires a == z + if x >= 0x8000_0000 then (if p == 1 then 0 else MOD - 2 * h) else 0
    ensures a <= MODM && Signed(a) == if x >= 0x8000_0000 then z - 2 * h else z
  {
  }

  lemma ArshiftSum(x: nat, disp: nat, p: nat, h: nat)
    requires x <= MODM && disp <= 31
    requires p == Pow2(disp) && Pow2(32 - disp) == 2 * h
    ensures Arshift(x, disp) == x / p + if x >= 0x8000_0000 then ((p - 1) * (2 * h)) % MOD else 0
  {
    hide Pow2, Shr, Shl;
    assert x % MOD == x;
    ShrIsQuotient(x, disp);
    ShlIsProduct(p - 1, 32 - disp);
    MulSymmetric(2 * h, p - 1);
  }

  lemma MulSymmetric(a: nat, b: nat)
    ensures a * b == b * a
  {
  }

  lemma PowersOfHalfWord(disp: nat)
    requires disp <= 31
    ensures Pow2(disp) * Pow2(31 - disp) == 0x8000_0000
    ensures Pow2(32 - disp) == 2 * Pow2(31 - disp)
    ensures Pow2(disp) == 1 <==> disp == 0
  {
    ModIsPow2();
    assert Pow2(32) == 2 * Pow2(31);
    Pow2Add(disp, 31 - disp);
  }

  lemma ArshiftCases(x: nat, p: nat, h: nat, z: nat, r: nat)
    requires x <= MODM && p >= 1 && h >= 1 && p * h == 0x8000_0000
    requires x == r + p * z && r < p
    ensures z < 2 * h && (x >= 0x8000_0000 <==> z >= h)
    ensures ((p - 1) * (2 * h)) % MOD == if p == 1 then 0 else MOD - 2 * h
    ensures x / p == z && (x - MOD) / p == z - 2 * h
    ensures p == 1 ==> h == 0x8000_0000
    ensures p > 1 ==> h <= 0x4000_0000
  {
    QuotientBelow(x, p, z, r, h);
    assert p * (2 * h) == MOD;
    LshiftOfOnes(p, 2 * h);
    FloorDivUnique(x, p, z, r);
    assert p * (z - 2 * h) == p * z - p * (2 * h);
    FloorDivUnique(x - MOD, p, z - 2 * h, r);
    if p > 1 { MulMono(h, 2, p); }
  }

  lemma QuotientBelow(x: nat, p: nat, z: nat, r: nat, h: nat)
    requires x == r + p * z && r < p && p * h == 0x8000_0000 && x < MOD
    ensures z < 2 * h && (x >= 0x8000_0000 <==> z >= h)
  {
    if z >= h { MulMono(p, h, z); } else { MulMono(p, z + 1, h); }
    if z >= 2 * h { MulMono(p, 2 * h, z); }
  }

  lemma MulMono(p: nat, a: nat, b: nat)
    requires a <= b
    ensures p * a <= p * b
  {
  }

  lemma LshiftOfOnes(p: nat, q: nat)
    requires p * q == MOD && q >= 1 && p >= 1
    ensures ((p - 1) * q) % MOD == if p == 1 then 0 else MOD - q
  {
    assert (p - 1) * q == MOD - q;
  }

  lemma FloorDivUnique(n: int, p: nat, z: int, r: nat)
    requires p > 0 && r < p
    requires n == r + p * z
    ensures n / p == z
  {
    DivModUnique(n, p, n / p, n % p, z, r);
  }
}
