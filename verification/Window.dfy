/** deflate.lua, make_outstate, output, the copy loop of a match, and adler32: a 32K ring window
    that stands for the whole output, and the running checksum of that output. */
module Window {
  import opened Bits

  const SIZE: nat := 32768
  const ADLER_BASE: nat := 65521

  // ----- Adler-32

  function Adler32(b: byte, crc: nat): nat {
    var s1 := crc % 65536;
    var s2 := (crc - s1) / 65536;
    var t1 := (s1 + b) % 65521;
    var t2 := (s2 + t1) % 65521;
    t2 * 65536 + t1
  }

  /** The checksum as each byte of s is appended, starting from 1. */
  function AdlerOf(s: seq<byte>): nat {
    if s == [] then 1 else Adler32(s[|s| - 1], AdlerOf(s[..|s| - 1]))
  }

  function Sum(s: seq<byte>): nat {
    if s == [] then 0 else Sum(s[..|s| - 1]) + s[|s| - 1]
  }

  /** n*b_0 + (n-1)*b_1 + ... + 1*b_(n-1). */
  function WeightedSum(s: seq<byte>): nat {
    if s == [] then 0 else WeightedSum(s[..|s| - 1]) + Sum(s)
  }

  /** The two sums of section 8.2 of RFC 1950 in closed form, in one 32-bit word. */
  lemma AdlerClosedForm(s: seq<byte>)
    ensures AdlerOf(s) == (|s| + WeightedSum(s)) % 65521 * 65536 + (1 + Sum(s)) % 65521
    ensures AdlerOf(s) < 0x1_0000_0000
  {
    hide AdlerOf;
    AdlerIsWord(s);
  }

  /** Two sums in one word. */
  function AdlerWord(w: nat, v: nat): (word: nat)
    ensures word < 0x1_0000_0000
  {
    w % ADLER_BASE * 65536 + v % ADLER_BASE
  }

  lemma {:induction false} AdlerIsWord(s: seq<byte>)
    ensures AdlerOf(s) == AdlerWord(|s| + WeightedSum(s), 1 + Sum(s))
  {
    hide Adler32, AdlerWord;
    if s == [] {
      AdlerOfNothing();
    } else {
      var u, b := s[..|s| - 1], s[|s| - 1];
      AdlerIsWord(u);
      AdlerStep(b, |u| + WeightedSum(u), 1 + Sum(u));
      assert |u| + WeightedSum(u) + (1 + Sum(u)) + b == |s| + WeightedSum(s);
    }
  }

  lemma AdlerOfNothing()
    ensures AdlerWord(0, 1) == 1
  {
  }

  lemma AdlerStep(b: byte, w: nat, v: nat)
    ensures Adler32(b, AdlerWord(w, v)) == AdlerWord(w + v + b, v + b)
  {
    hide Adler32;
    AdlerOnce(b, w % ADLER_BASE, v % ADLER_BASE);
    ModOfSum(v, b);
    ModOfSums(w, v + b);
  }

  lemma AdlerOnce(b: byte, w: nat, v: nat)
    requires v < 65536
    ensures Adler32(b, w * 65536 + v) == (w + (v + b) % ADLER_BASE) % ADLER_BASE * 65536 + (v + b) % ADLER_BASE
  {
    SplitWord(w, v);
  }

  lemma ModOfSums(a: nat, b: nat)
    ensures (a % ADLER_BASE + b % ADLER_BASE) % ADLER_BASE == (a + b) % ADLER_BASE
  {
    ModOfSum(a, b % ADLER_BASE);
    ModOfSum(b, a);
  }

  lemma SplitWord(high: nat, low: nat)
    requires low < 65536
    ensures (high * 65536 + low) % 65536 == low && (high * 65536 + low - low) / 65536 == high
  {
  }

  lemma ModOfSum(a: nat, b: nat)
    ensures (a % ADLER_BASE + b) % ADLER_BASE == (a + b) % ADLER_BASE
  {
  }

  /** The weight of byte i in the second sum is the number of bytes from it to the end. */
  function Weighted(s: seq<byte>, i: nat): nat
    requires i <= |s|
  {
    if i == 0 then 0 else Weighted(s, i - 1) + (|s| - (i - 1)) * s[i - 1]
  }

  lemma {:induction false} WeightedGrows(s: seq<byte>, i: nat)
    requires s != [] && i < |s|
    ensures Weighted(s, i) == Weighted(s[..|s| - 1], i) + Sum(s[..i])
  {
    var u := s[..|s| - 1];
    if i == 0 {
      assert s[..0] == [];
    } else {
      WeightedGrows(s, i - 1);
      assert s[..i][..i - 1] == s[..i - 1];
      assert (|s| - (i - 1)) * s[i - 1] == (|u| - (i - 1)) * s[i - 1] + s[i - 1];
    }
  }

  lemma {:induction false} WeightedSumIs(s: seq<byte>)
    ensures WeightedSum(s) == Weighted(s, |s|)
  {
    if s != [] {
      var n := |s| - 1;
      WeightedSumIs(s[..n]);
      WeightedGrows(s, n);
      assert (|s| - n) * s[n] == s[n];
    }
  }

  // ----- The ring window

  /** The distance the ring effectively looks back: distances are taken modulo the window size. */
  function Effective(dist: nat): (d: nat)
    requires dist >= 1
    ensures 1 <= d <= SIZE && (dist <= SIZE ==> d == dist)
  {
    (dist - 1) % SIZE + 1
  }

  /** The possibly overlapping copy of section 3.2.3 of RFC 1951 on the unbounded output. */
  function Copy(out: seq<byte>, dist: nat, len: nat): (r: seq<byte>)
    requires 1 <= dist <= |out|
    ensures |r| == |out| + len && r[..|out|] == out
    decreases len
  {
    if len == 0 then out else Copy(out + [out[|out| - dist]], dist, len - 1)
  }

  /** Byte k of a copy is byte k - dist of the finished output. */
  lemma {:induction false} CopyIsPeriodic(out: seq<byte>, dist: nat, len: nat, k: nat)
    requires 1 <= dist <= |out| <= k < |out| + len
    ensures Copy(out, dist, len)[k] == Copy(out, dist, len)[k - dist]
    decreases len
  {
    var next := out + [out[|out| - dist]];
    var r := Copy(next, dist, len - 1);
    if k == |out| {
      assert r[k] == r[..|next|][k] == next[k];
      assert r[k - dist] == r[..|next|][k - dist] == next[k - dist];
    } else {
      CopyIsPeriodic(next, dist, len - 1, k);
    }
  }

  function SlotOf(j: nat): nat { j % SIZE + 1 }

  /** The window holds the last 32768 bytes of the output, each at its position modulo the size. */
  ghost predicate Holds(window: map<int, byte>, windowPos: int, out: seq<byte>) {
    && windowPos == SlotOf(|out|)
    && (forall p :: p in window <==> 1 <= p <= |out| && p <= SIZE)
    && (forall j :: 0 <= j < |out| && |out| - SIZE <= j ==> SlotOf(j) in window && window[SlotOf(j)] == out[j])
  }

  lemma HoldsAfterOutput(window: map<int, byte>, windowPos: int, out: seq<byte>, b: byte)
    requires Holds(window, windowPos, out)
    ensures Holds(window[windowPos := b], windowPos % 32768 + 1, out + [b])
  {
    SlotsDiffer(|out|);
    hide SlotOf;
  }

  /** Writing output n only overwrites the slot of output n - SIZE. */
  lemma SlotsDiffer(n: nat)
    ensures forall j :: 0 <= j < n && n - SIZE < j ==> SlotOf(j) != SlotOf(n)
    ensures 1 <= SlotOf(n) <= SIZE && SlotOf(n) <= n + 1
    ensures SlotOf(n) % SIZE + 1 == SlotOf(n + 1)
    ensures n < SIZE ==> SlotOf(n) == n + 1
  {
  }

  /** A lookup at distance dist finds the byte written Effective(dist) outputs ago, and finds
      nothing exactly when so many bytes have not been written. */
  lemma LookBack(window: map<int, byte>, windowPos: int, out: seq<byte>, dist: nat)
    requires Holds(window, windowPos, out) && dist >= 1
    ensures var pos := (windowPos - 1 - dist) % 32768 + 1;
            if Effective(dist) <= |out| then pos in window && window[pos] == out[|out| - Effective(dist)]
            else pos !in window
  {
    LookBackSlot(|out|, dist);
    hide SlotOf, Effective;
  }

  lemma LookBackSlot(n: nat, dist: nat)
    requires dist >= 1
    ensures var pos := (SlotOf(n) - 1 - dist) % 32768 + 1;
            var d := Effective(dist);
            if d <= n then pos == SlotOf(n - d) else pos > n
  {
    var d := Effective(dist);
    WholeWindows(dist);
    var q := (dist - d) / SIZE;
    SlotBefore(n, d, q);
  }

  lemma WholeWindows(dist: nat)
    requires dist >= 1
    ensures 1 <= Effective(dist) <= SIZE && dist == Effective(dist) + SIZE * ((dist - Effective(dist)) / SIZE)
  {
  }

  lemma SlotBefore(n: nat, d: nat, q: int)
    requires 1 <= d <= SIZE
    ensures (SlotOf(n) - 1 - (d + SIZE * q)) % SIZE == (n - d) % SIZE
    ensures d > n ==> (n - d) % SIZE >= n
  {
    assert n % SIZE - (d + SIZE * q) == n - d + SIZE * (-(n / SIZE) - q);
  }

  class OutState {
    /** What the output function has received. */
    var out: seq<byte>
    /** The checksum the output function of inflate_zlib maintains. */
    var dataAdler32: nat
    var window: map<int, byte>
    var windowPos: nat

    ghost predicate Valid()
      reads this
    {
      Holds(window, windowPos, out) && dataAdler32 == AdlerOf(out)
    }

    constructor ()
      ensures Valid() && out == []
    {
      out, dataAdler32 := [], 1;
      window := map[];
      windowPos := 1;
    }

    method Output(b: byte)
      requires Valid()
      modifies this
      ensures Valid() && out == old(out) + [b]
    {
      HoldsAfterOutput(window, windowPos, out, b);
      AdlerAfterOutput(out, b);
      hide Holds, AdlerOf, Adler32;
      dataAdler32 := Adler32(b, dataAdler32);
      out := out + [b];
      window := window[windowPos := b];
      windowPos := windowPos % 32768 + 1;
    }

    /** The copy loop of a match; ok is false where the program raises 'invalid distance'. */
    method CopyMatch(dist: nat, len: nat) returns (ok: bool)
      requires Valid() && dist >= 1 && len >= 1
      modifies this
      ensures Valid()
      ensures ok <==> Effective(dist) <= |old(out)|
      ensures out == if ok then Copy(old(out), Effective(dist), len) else old(out)
    {
      hide Holds, AdlerOf, Effective;
      ghost var d := Effective(dist);
      for i := 0 to len
        invariant Valid() && |out| == |old(out)| + i
        invariant i > 0 ==> d <= |old(out)|
        invariant d <= |old(out)| ==> Copy(out, d, len - i) == Copy(old(out), d, len)
        invariant i == 0 ==> out == old(out)
      {
        LookBack(window, windowPos, out, dist);
        var pos := (windowPos - 1 - dist) % 32768 + 1;
        if pos !in window {
          return false;
        }
        Output(window[pos]);
      }
      ok := true;
    }
  }

  lemma AdlerAfterOutput(out: seq<byte>, b: byte)
    ensures AdlerOf(out + [b]) == Adler32(b, AdlerOf(out))
  {
    hide Adler32;
    assert (out + [b])[..|out|] == out;
  }
}
