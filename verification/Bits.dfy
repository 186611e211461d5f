/** Natural numbers as bit strings: powers of two, single bits, and bit lists that are
    packed least significant bit first, as section 3.1.1 of RFC 1951 packs them. */
module Bits {

  type byte = b: int | 0 <= b < 256

  datatype Option<+T> = None | Some(value: T)

  function Abs(x: int): nat { if x < 0 then -x else x }

  function Min(a: nat, b: nat): nat { if a <= b then a else b }

  function Repeat<T>(v: T, n: nat): (r: seq<T>)
    ensures |r| == n && forall i :: 0 <= i < n ==> r[i] == v
  {
    seq(n, i => v)
  }

  lemma RepeatOneMore<T>(v: T, n: nat)
    requires n >= 1
    ensures Repeat(v, n) == [v] + Repeat(v, n - 1)
  {
  }

  lemma Regroup<T>(a: seq<T>, b: seq<T>, c: seq<T>)
    ensures (a + b) + c == a + (b + c)
  {
  }

  function Pow2(n: nat): (p: nat)
    ensures p >= 1
  {
    if n == 0 then 1 else 2 * Pow2(n - 1)
  }

  lemma SmallPowers()
    ensures Pow2(0) == 1 && Pow2(1) == 2 && Pow2(2) == 4 && Pow2(3) == 8 && Pow2(4) == 16 && Pow2(5) == 32
    ensures Pow2(6) == 64 && Pow2(7) == 128 && Pow2(8) == 256 && Pow2(9) == 512 && Pow2(10) == 1024
    ensures Pow2(11) == 2048 && Pow2(12) == 4096 && Pow2(13) == 8192
    ensures Pow2(14) == 16384 && Pow2(15) == 32768 && Pow2(16) == 65536
  {
  }

  lemma {:induction false} Pow2Add(m: nat, n: nat)
    ensures Pow2(m + n) == Pow2(m) * Pow2(n)
  {
    if m != 0 {
      Pow2Add(m - 1, n);
      calc {
        Pow2(m + n);
        2 * Pow2(m - 1 + n);
        2 * (Pow2(m - 1) * Pow2(n));
        (2 * Pow2(m - 1)) * Pow2(n);
      }
    }
  }

  lemma {:induction false} Pow2Mono(m: nat, n: nat)
    requires m <= n
    ensures Pow2(m) <= Pow2(n)
  {
    if m != 0 { Pow2Mono(m - 1, n - 1); }
  }

  lemma {:induction false} Pow2StrictMono(m: nat, n: nat)
    requires m < n
    ensures 2 * Pow2(m) <= Pow2(n)
  {
    Pow2Mono(m + 1, n);
  }

  /** n with k zero bits put below it. */
  function Shl(n: nat, k: nat): nat {
    if k == 0 then n else 2 * Shl(n, k - 1)
  }

  lemma {:induction false} ShlIsProduct(n: nat, k: nat)
    ensures Shl(n, k) == Pow2(k) * n
  {
    if k != 0 {
      ShlIsProduct(n, k - 1);
      assert 2 * (Pow2(k - 1) * n) == (2 * Pow2(k - 1)) * n;
    }
  }

  lemma {:induction false} ShlAdd(a: nat, b: nat, k: nat)
    ensures Shl(a + b, k) == Shl(a, k) + Shl(b, k)
  {
    if k != 0 { ShlAdd(a, b, k - 1); }
  }

  lemma {:induction false} ShlShl(a: nat, m: nat, n: nat)
    ensures Shl(Shl(a, m), n) == Shl(a, m + n)
  {
    if n != 0 { ShlShl(a, m, n - 1); }
  }

  lemma {:induction false} ShlPow2(m: nat, k: nat)
    ensures Shl(Pow2(m), k) == Pow2(m + k)
  {
    if k != 0 { ShlPow2(m, k - 1); }
  }

  lemma {:induction false} ShlMono(a: nat, b: nat, k: nat)
    ensures a <= b <==> Shl(a, k) <= Shl(b, k)
    ensures Shl(a, k) >= a
  {
    if k != 0 { ShlMono(a, b, k - 1); }
  }

  /** n without its k lowest bits. */
  function Shr(n: nat, k: nat): nat {
    if k == 0 then n else Shr(n / 2, k - 1)
  }

  lemma {:induction false} ShrOfSum(x: nat, y: nat, k: nat)
    requires x < Pow2(k)
    ensures Shr(x + Shl(y, k), k) == y
  {
    if k != 0 {
      assert (x + Shl(y, k)) / 2 == x / 2 + Shl(y, k - 1);
      ShrOfSum(x / 2, y, k - 1);
    }
  }

  lemma ShrIsQuotient(n: nat, k: nat)
    ensures Shr(n, k) == n / Pow2(k)
  {
    hide Pow2, Shr;
    DivModFacts(n, Pow2(k));
    ShrOfParts(n, n % Pow2(k), n / Pow2(k), k);
  }

  lemma ShrOfParts(n: nat, r: nat, q: nat, k: nat)
    requires n == r + Pow2(k) * q && r < Pow2(k)
    ensures Shr(n, k) == q
  {
    ShlIsProduct(q, k);
    ShrOfSum(r, q, k);
  }

  lemma {:induction false} ShrBelow(n: nat, k: nat)
    ensures Shr(n, k) <= n
  {
    if k != 0 { ShrBelow(n / 2, k - 1); }
  }

  lemma {:induction false} BitOfShr(n: nat, k: nat, i: nat)
    ensures Bit(Shr(n, k), i) == Bit(n, i + k)
  {
    if k != 0 { BitOfShr(n / 2, k - 1, i); }
  }

  lemma {:induction false} BitOfShl(n: nat, k: nat, i: nat)
    ensures Bit(Shl(n, k), i) == (i >= k && Bit(n, i - k))
  {
    if k != 0 && i != 0 { BitOfShl(n, k - 1, i - 1); }
  }

  /** Bit i of n, bit 0 being the least significant. */
  predicate Bit(n: nat, i: nat) {
    if i == 0 then n % 2 == 1 else Bit(n / 2, i - 1)
  }

  lemma {:induction false} ZeroHasNoBits(i: nat)
    ensures !Bit(0, i)
  {
    if i != 0 { ZeroHasNoBits(i - 1); }
  }

  /** Below 2^k, a number is determined by its k lowest bits. */
  lemma {:induction false} BitExtensionality(a: nat, b: nat, k: nat)
    requires a < Pow2(k) && b < Pow2(k)
    requires forall i: nat :: i < k ==> Bit(a, i) == Bit(b, i)
    ensures a == b
  {
    if k != 0 {
      assert Bit(a, 0) == Bit(b, 0);
      forall i: nat | i < k - 1 ensures Bit(a / 2, i) == Bit(b / 2, i) {
        assert Bit(a, i + 1) == Bit(b, i + 1);
      }
      BitExtensionality(a / 2, b / 2, k - 1);
    }
  }

  lemma HalveSum(x: nat, y: nat, k: nat)
    requires k > 0
    ensures (x + Pow2(k) * y) % 2 == x % 2
    ensures (x + Pow2(k) * y) / 2 == x / 2 + Pow2(k - 1) * y
  {
    assert x + Pow2(k) * y == x + 2 * (Pow2(k - 1) * y);
  }

  /** Adding a multiple of 2^k to a number below 2^k puts the two bit strings side by side. */
  lemma {:induction false} BitOfSum(x: nat, y: nat, k: nat, i: nat)
    requires x < Pow2(k)
    ensures Bit(x + Pow2(k) * y, i) == if i < k then Bit(x, i) else Bit(y, i - k)
  {
    if k != 0 {
      HalveSum(x, y, k);
      if i != 0 { BitOfSum(x / 2, y, k - 1, i - 1); }
    }
  }

  lemma DivModFacts(n: int, m: nat)
    requires m > 0
    ensures n == n % m + m * (n / m)
    ensures 0 <= n % m < m
  {
  }

  /** Quotient and remainder of a sum whose parts are known. */
  lemma DivModOfSum(x: nat, y: nat, m: nat)
    requires x < m
    ensures (x + m * y) / m == y && (x + m * y) % m == x
  {
    DivModUnique(x + m * y, m, (x + m * y) / m, (x + m * y) % m, y, x);
  }

  lemma DivModUnique(n: int, m: nat, q: int, r: nat, q': int, r': nat)
    requires n == m * q + r == m * q' + r'
    requires r < m && r' < m
    ensures q == q' && r == r'
  {
    assert m * (q - q') == r' - r;
    if q != q' {
      MulAtLeast(m, if q > q' then q - q' else q' - q);
    }
  }

  lemma MulAtLeast(m: nat, d: nat)
    requires d >= 1
    ensures m * d >= m
  {
  }

  lemma BitOfLowPart(n: nat, r: nat, q: nat, k: nat, i: nat)
    requires r < Pow2(k) && n == r + Pow2(k) * q
    ensures Bit(r, i) == (i < k && Bit(n, i))
  {
    BitOfSum(r, q, k, i);
    if i >= k {
      BitOfSum(r, 0, k, i);
      assert r + Pow2(k) * 0 == r;
      ZeroHasNoBits(i - k);
    }
  }

  lemma BitOfMod(n: nat, k: nat, i: nat)
    ensures Bit(n % Pow2(k), i) == (i < k && Bit(n, i))
  {
    hide Pow2, Bit;
    DivModFacts(n, Pow2(k));
    BitOfLowPart(n, n % Pow2(k), n / Pow2(k), k, i);
  }

  /** Dropping one bit less leaves one bit more. */
  lemma {:induction false} ShrStep(n: nat, k: nat)
    requires k >= 1
    ensures Shr(n, k - 1) == 2 * Shr(n, k) + BitVal(Bit(n, k - 1))
  {
    if k > 1 { ShrStep(n / 2, k - 1); }
  }

  lemma {:induction false} ShrRange(n: nat, m: nat, k: nat)
    ensures n < Pow2(m + k) <==> Shr(n, k) < Pow2(m)
  {
    if k != 0 { ShrRange(n / 2, m, k - 1); }
  }

  // ----- Bit lists

  function BitVal(b: bool): nat { if b then 1 else 0 }

  /** The number whose bits, least significant first, are bs. */
  function LsbVal(bs: seq<bool>): nat {
    if bs == [] then 0 else BitVal(bs[0]) + 2 * LsbVal(bs[1..])
  }

  /** The n low bits of v, least significant first. */
  function ToBits(v: nat, n: nat): (bs: seq<bool>)
    ensures |bs| == n
  {
    if n == 0 then [] else [v % 2 == 1] + ToBits(v / 2, n - 1)
  }

  /** Bytes laid end to end, each least significant bit first. */
  function BytesToBits(s: seq<byte>): (bs: seq<bool>)
    ensures |bs| == 8 * |s|
  {
    if s == [] then [] else ToBits(s[0], 8) + BytesToBits(s[1..])
  }

  lemma {:induction false} ToBitsVal(v: nat, n: nat)
    requires v < Pow2(n)
    ensures LsbVal(ToBits(v, n)) == v
  {
    if n != 0 {
      ToBitsVal(v / 2, n - 1);
      assert ToBits(v, n)[1..] == ToBits(v / 2, n - 1);
    }
  }

  lemma {:induction false} LsbValBits(bs: seq<bool>)
    ensures LsbVal(bs) < Pow2(|bs|)
    ensures ToBits(LsbVal(bs), |bs|) == bs
  {
    if bs != [] {
      LsbValBits(bs[1..]);
      assert LsbVal(bs) / 2 == LsbVal(bs[1..]);
      assert bs == [bs[0]] + bs[1..];
    }
  }

  /** Putting y above the n bits of x appends y's bits to x's. */
  lemma {:induction false} ToBitsOfSum(x: nat, n: nat, y: nat, m: nat)
    requires x < Pow2(n)
    ensures ToBits(x + Shl(y, n), n + m) == ToBits(x, n) + ToBits(y, m)
  {
    if n != 0 {
      var v := x + Shl(y, n);
      assert v % 2 == x % 2 && v / 2 == x / 2 + Shl(y, n - 1);
      ToBitsOfSum(x / 2, n - 1, y, m);
      assert ToBits(v, n + m) == [x % 2 == 1] + ToBits(v / 2, n - 1 + m);
    }
  }

  lemma {:induction false} BytesToBitsConcat(s: seq<byte>, t: seq<byte>)
    ensures BytesToBits(s + t) == BytesToBits(s) + BytesToBits(t)
  {
    hide ToBits;
    if s == [] {
      assert s + t == t;
    } else {
      BytesToBitsConcat(s[1..], t);
      assert (s + t)[1..] == s[1..] + t;
    }
  }
}
