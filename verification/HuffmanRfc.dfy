/** The code assignment of section 3.2.2 of RFC 1951, as the standard words it (count the codes
    of each length, derive the first code of each length, number the symbols of one length in
    order), and its agreement with the marker codes that HuffmanTable computes. */
module HuffmanRfc {
  import opened Bits
  import opened Huffman

  /** How many symbols below val have length n. */
  function CountBelow(lens: seq<nat>, n: nat, val: nat): nat
    requires val <= |lens|
  {
    if val == 0 then 0 else CountBelow(lens, n, val - 1) + if lens[val - 1] == n then 1 else 0
  }

  /** bl_count, with bl_count[0] = 0 as the standard sets it. */
  function BlCount(lens: seq<nat>, n: nat): nat {
    if n == 0 then 0 else CountBelow(lens, n, |lens|)
  }

  /** next_code before any symbol of length n has been numbered. */
  function FirstCode(lens: seq<nat>, n: nat): nat {
    if n == 0 then 0 else 2 * (FirstCode(lens, n - 1) + BlCount(lens, n - 1))
  }

  function RfcCode(lens: seq<nat>, val: nat): nat
    requires val < |lens|
  {
    FirstCode(lens, lens[val]) + CountBelow(lens, lens[val], val)
  }

  /** Huffman codes are packed most significant bit first (section 3.1.1). */
  function MsbBits(c: nat, n: nat): (bits: seq<bool>)
    ensures |bits| == n
  {
    if n == 0 then [] else [Bit(c, n - 1)] + MsbBits(c, n - 1)
  }

  /** The bits that stand for symbol val. */
  function SymbolBits(lens: seq<nat>, val: nat): (bits: seq<bool>)
    requires val < |lens|
    ensures |bits| == lens[val]
  {
    MsbBits(RfcCode(lens, val), lens[val])
  }

  /** The Kraft inequality on code lengths: the sum of 2^(-length) over the symbols that have a
      code is at most 1, here scaled by 2^top. */
  function LensKraftSum(lens: seq<nat>, top: nat): nat
    requires forall i :: 0 <= i < |lens| ==> lens[i] <= top
  {
    if lens == [] then 0 else
      var last := lens[|lens| - 1];
      LensKraftSum(lens[..|lens| - 1], top) + if last == 0 then 0 else Pow2(top - last)
  }

  ghost predicate Kraft(lens: seq<nat>, top: nat) {
    (forall i :: 0 <= i < |lens| ==> lens[i] <= top) && LensKraftSum(lens, top) <= Pow2(top)
  }

  // ----- Counting in a sorted table

  function Count(t: seq<Entry>, n: nat, val: nat): nat {
    if t == [] then 0 else Count(t[..|t| - 1], n, val) + Hit(t[|t| - 1], n, val)
  }

  function Hit(e: Entry, n: nat, val: nat): nat { if e.nbits == n && e.val < val then 1 else 0 }

  lemma {:induction false} CountFromFront(t: seq<Entry>, n: nat, val: nat)
    requires t != []
    ensures Count(t, n, val) == Hit(t[0], n, val) + Count(t[1..], n, val)
  {
    var s := t[..|t| - 1];
    if s != [] {
      CountFromFront(s, n, val);
      assert t[1..][..|t| - 2] == s[1..];
    } else {
      assert t[1..] == [];
    }
  }

  lemma {:induction false} CountInsert(t: seq<Entry>, e: Entry, n: nat, val: nat)
    ensures Count(Insert(t, e), n, val) == Count(t, n, val) + Hit(e, n, val)
  {
    CountFromFront(Insert(t, e), n, val);
    if t == [] || Less(e, t[0]) {
      assert Insert(t, e)[1..] == t;
    } else {
      CountInsert(t[1..], e, n, val);
      CountFromFront(t, n, val);
      assert Insert(t, e)[1..] == Insert(t[1..], e);
    }
  }

  lemma {:induction false} CountSort(t: seq<Entry>, n: nat, val: nat)
    ensures Count(SortEntries(t), n, val) == Count(t, n, val)
  {
    if t != [] {
      CountSort(t[..|t| - 1], n, val);
      CountInsert(SortEntries(t[..|t| - 1]), t[|t| - 1], n, val);
    }
  }

  lemma {:induction false} CountEntries(lens: seq<nat>, n: nat, val: nat)
    requires n != 0
    ensures Count(Entries(lens), n, val) == CountBelow(lens, n, if val <= |lens| then val else |lens|)
  {
    if lens != [] {
      var k := |lens| - 1;
      CountEntries(lens[..k], n, val);
      CountBelowPrefix(lens, n, if val <= k then val else k);
      if lens[k] != 0 {
        assert Entries(lens) == Entries(lens[..k]) + [Entry(k, lens[k])];
        assert Entries(lens)[..|Entries(lens)| - 1] == Entries(lens[..k]);
      } else {
        assert Entries(lens) == Entries(lens[..k]);
      }
    }
  }

  lemma {:induction false} CountBelowPrefix(lens: seq<nat>, n: nat, val: nat)
    requires val < |lens|
    ensures CountBelow(lens[..|lens| - 1], n, val) == CountBelow(lens, n, val)
  {
    if val != 0 { CountBelowPrefix(lens, n, val - 1); }
  }

  /** The canonical table has as many entries of a length as the length table. */
  lemma CountCanonical(lens: seq<nat>, n: nat, val: nat)
    requires n != 0 && val <= |lens|
    ensures Count(Canonical(lens), n, val) == CountBelow(lens, n, val)
  {
    CountSort(Entries(lens), n, val);
    CountEntries(lens, n, val);
  }

  // ----- The marker code of a symbol is 2^length plus its code in the standard

  /** FirstCode over a table prefix. */
  function First(t: seq<Entry>, n: nat, bound: nat): nat {
    if n == 0 then 0 else 2 * (First(t, n - 1, bound) + Count(t, n - 1, bound))
  }

  /** The next marker code of length n once the entries of t have theirs. */
  function NextCode(t: seq<Entry>, n: nat): nat
    requires Sorted(t) && (t != [] ==> t[|t| - 1].nbits <= n)
  {
    if t == [] then Pow2(n) else Shl(CodeAt(t, |t| - 1) + 1, n - t[|t| - 1].nbits)
  }

  lemma {:induction false} CountNone(t: seq<Entry>, n: nat, val: nat)
    requires forall i :: 0 <= i < |t| ==> t[i].nbits != n || t[i].val >= val
    ensures Count(t, n, val) == 0
  {
    if t != [] { CountNone(t[..|t| - 1], n, val); }
  }

  lemma {:induction false} FirstOfShorter(t: seq<Entry>, u: seq<Entry>, n: nat, bound: nat)
    requires forall m :: 0 <= m < n ==> Count(t, m, bound) == Count(u, m, bound)
    ensures First(t, n, bound) == First(u, n, bound)
  {
    if n != 0 {
      FirstOfShorter(t, u, n - 1, bound);
      assert Count(t, n - 1, bound) == Count(u, n - 1, bound);
    }
  }

  lemma {:induction false} CodeAtPrefix(t: seq<Entry>, i: nat, n: nat)
    requires Sorted(t) && i < n <= |t|
    ensures CodeAt(t[..n], i) == CodeAt(t, i)
  {
    if i != 0 { CodeAtPrefix(t, i - 1, n); }
  }

  lemma CountNoneYet(t: seq<Entry>, n: nat, val: nat)
    requires Sorted(t) && t != [] && t[|t| - 1].nbits < n
    ensures Count(t, n, val) == 0
  {
    forall i | 0 <= i < |t| ensures t[i].nbits != n {
      if i < |t| - 1 { assert Less(t[i], t[|t| - 1]); }
    }
    CountNone(t, n, val);
  }

  lemma {:induction false} NextCodeIs(t: seq<Entry>, n: nat, bound: nat)
    requires Sorted(t) && (t != [] ==> t[|t| - 1].nbits <= n)
    requires forall i :: 0 <= i < |t| ==> t[i].val < bound
    ensures NextCode(t, n) == Pow2(n) + First(t, n, bound) + Count(t, n, bound)
    decreases |t|, n
  {
    if t == [] {
      FirstOfNothing(n, bound);
    } else if t[|t| - 1].nbits < n {
      NextCodeIs(t, n - 1, bound);
      assert NextCode(t, n) == 2 * NextCode(t, n - 1);
      CountNoneYet(t, n, bound);
    } else {
      var s, e := t[..|t| - 1], t[|t| - 1];
      if s != [] { assert Less(t[|t| - 2], e); }
      NextCodeIs(s, n, bound);
      if s != [] { CodeAtPrefix(t, |s| - 1, |s|); }
      assert CodeAt(t, |s|) == NextCode(s, n);
      FirstOfShorter(s, t, n, bound);
    }
  }

  lemma {:induction false} FirstOfNothing(n: nat, bound: nat)
    ensures First([], n, bound) == 0
  {
    if n != 0 { FirstOfNothing(n - 1, bound); }
  }

  /** Which entries come before entry i. */
  lemma {:induction false} CountBefore(t: seq<Entry>, i: nat, n: nat, val: nat, bound: nat)
    requires Sorted(t) && i < |t|
    requires forall j :: 0 <= j < |t| ==> t[j].val < bound
    requires (n < t[i].nbits && val == bound) || (n == t[i].nbits && val == t[i].val)
    ensures Count(t[..i], n, bound) == Count(t, n, val)
  {
    CountRest(t, i, |t|, n, val);
    assert t[..|t|] == t;
    forall j | 0 <= j < i ensures Hit(t[j], n, bound) == Hit(t[j], n, val) {
      assert Less(t[j], t[i]);
    }
    CountSame(t[..i], n, bound, val);
  }

  lemma {:induction false} CountSame(t: seq<Entry>, n: nat, bound: nat, val: nat)
    requires forall j :: 0 <= j < |t| ==> Hit(t[j], n, bound) == Hit(t[j], n, val)
    ensures Count(t, n, bound) == Count(t, n, val)
  {
    if t != [] { CountSame(t[..|t| - 1], n, bound, val); }
  }

  lemma {:induction false} CountRest(t: seq<Entry>, i: nat, k: nat, n: nat, val: nat)
    requires Sorted(t) && i <= k <= |t| && i < |t|
    requires n < t[i].nbits || (n == t[i].nbits && val <= t[i].val)
    ensures Count(t[..k], n, val) == Count(t[..i], n, val)
  {
    if i < k {
      CountRest(t, i, k - 1, n, val);
      if i < k - 1 { assert Less(t[i], t[k - 1]); }
      assert t[..k][..k - 1] == t[..k - 1];
    }
  }

  /** Entry i of the canonical table has marker code 2^length + code of the standard. */
  lemma CodeAtIsRfcCode(lens: seq<nat>, i: nat)
    requires i < |Canonical(lens)|
    ensures Sorted(Canonical(lens)) && IsEntry(lens, Canonical(lens)[i])
    ensures CodeAt(Canonical(lens), i) == Pow2(Canonical(lens)[i].nbits) + RfcCode(lens, Canonical(lens)[i].val)
  {
    CanonicalFacts(lens);
    var t, bound := Canonical(lens), |lens|;
    hide Canonical, CodeAt, First, Count, CountBelow;
    forall j | 0 <= j < |t| ensures IsEntry(lens, t[j]) {
      assert t[j] in t;
    }
    var n, val := t[i].nbits, t[i].val;
    CodeAtIsNextCode(t, i, bound);
    CountBefore(t, i, n, val, bound);
    CountCanonical(lens, n, val);
    forall m | 0 <= m < n ensures Count(t[..i], m, bound) == BlCount(lens, m) {
      ShorterCounts(lens, t, i, m);
    }
    FirstIs(t[..i], lens, n, bound);
  }

  lemma CodeAtIsNextCode(t: seq<Entry>, i: nat, bound: nat)
    requires Sorted(t) && i < |t|
    requires forall j :: 0 <= j < |t| ==> t[j].val < bound
    ensures var n := t[i].nbits;
            CodeAt(t, i) == Pow2(n) + First(t[..i], n, bound) + Count(t[..i], n, bound)
  {
    if i != 0 {
      assert Less(t[i - 1], t[i]);
      CodeAtPrefix(t, i - 1, i);
    }
    NextCodeIs(t[..i], t[i].nbits, bound);
  }

  lemma ShorterCounts(lens: seq<nat>, t: seq<Entry>, i: nat, m: nat)
    requires t == Canonical(lens) && Sorted(t) && i < |t| && m < t[i].nbits
    requires forall j :: 0 <= j < |t| ==> IsEntry(lens, t[j])
    ensures Count(t[..i], m, |lens|) == BlCount(lens, m)
  {
    hide Canonical;
    CountBefore(t, i, m, |lens|, |lens|);
    if m == 0 {
      CountNone(t, 0, |lens|);
    } else {
      CountCanonical(lens, m, |lens|);
    }
  }

  lemma {:induction false} FirstIs(t: seq<Entry>, lens: seq<nat>, n: nat, bound: nat)
    requires forall m :: 0 <= m < n ==> Count(t, m, bound) == BlCount(lens, m)
    ensures First(t, n, bound) == FirstCode(lens, n)
  {
    if n != 0 {
      FirstIs(t, lens, n - 1, bound);
      assert Count(t, n - 1, bound) == BlCount(lens, n - 1);
    }
  }

  // ----- The Kraft inequality carries over to the table

  lemma {:induction false} KraftSumFromFront(t: seq<Entry>, top: nat)
    requires t != [] && forall i :: 0 <= i < |t| ==> t[i].nbits <= top
    ensures KraftSum(t, top) == Pow2(top - t[0].nbits) + KraftSum(t[1..], top)
  {
    var s := t[..|t| - 1];
    if s != [] {
      KraftSumFromFront(s, top);
      assert t[1..][..|t| - 2] == s[1..];
    } else {
      assert t[1..] == [];
    }
  }

  lemma InsertStep(t: seq<Entry>, e: Entry)
    ensures var r := Insert(t, e);
            && r != []
            && if t == [] || Less(e, t[0]) then r[0] == e && r[1..] == t
               else r[0] == t[0] && r[1..] == Insert(t[1..], e)
  {
    hide Less;
  }

  lemma {:induction false} KraftSumInsert(t: seq<Entry>, e: Entry, top: nat)
    requires e.nbits <= top && forall i :: 0 <= i < |t| ==> t[i].nbits <= top
    ensures forall i :: 0 <= i < |Insert(t, e)| ==> Insert(t, e)[i].nbits <= top
    ensures KraftSum(Insert(t, e), top) == KraftSum(t, top) + Pow2(top - e.nbits)
  {
    hide Pow2, Less, KraftSum;
    InsertStep(t, e);
    hide Insert;
    if t != [] && !Less(e, t[0]) {
      KraftSumInsert(t[1..], e, top);
      KraftSumFromFront(t, top);
    }
    KraftSumFromFront(Insert(t, e), top);
  }

  lemma {:induction false} KraftSumSort(t: seq<Entry>, top: nat)
    requires forall i :: 0 <= i < |t| ==> t[i].nbits <= top
    ensures forall i :: 0 <= i < |SortEntries(t)| ==> SortEntries(t)[i].nbits <= top
    ensures KraftSum(SortEntries(t), top) == KraftSum(t, top)
  {
    if t != [] {
      KraftSumSort(t[..|t| - 1], top);
      KraftSumInsert(SortEntries(t[..|t| - 1]), t[|t| - 1], top);
    }
  }

  lemma LastEntry(lens: seq<nat>)
    requires lens != []
    ensures var n := |lens| - 1;
            Entries(lens) == if lens[n] == 0 then Entries(lens[..n]) else Entries(lens[..n]) + [Entry(n, lens[n])]
  {
  }

  lemma KraftSumLast(t: seq<Entry>, e: Entry, top: nat)
    requires e.nbits <= top && forall i :: 0 <= i < |t| ==> t[i].nbits <= top
    ensures KraftSum(t + [e], top) == KraftSum(t, top) + Pow2(top - e.nbits)
  {
    assert (t + [e])[..|t|] == t;
  }

  lemma {:induction false} KraftSumEntries(lens: seq<nat>, top: nat)
    requires forall i :: 0 <= i < |lens| ==> lens[i] <= top
    ensures forall i :: 0 <= i < |Entries(lens)| ==> Entries(lens)[i].nbits <= top
    ensures KraftSum(Entries(lens), top) == LensKraftSum(lens, top)
  {
    hide Pow2;
    if lens != [] {
      var k := |lens| - 1;
      KraftSumEntries(lens[..k], top);
      LastEntry(lens);
      hide Entries;
      if lens[k] != 0 {
        KraftSumLast(Entries(lens[..k]), Entry(k, lens[k]), top);
      }
    }
  }

  /** The codes of a length table fit their lengths if and only if the lengths satisfy Kraft. */
  lemma CanonicalFitsIffKraft(lens: seq<nat>, top: nat)
    requires forall i :: 0 <= i < |lens| ==> lens[i] <= top
    ensures Sorted(Canonical(lens))
    ensures CodesFit(Canonical(lens)) <==> Kraft(lens, top)
  {
    CanonicalFacts(lens);
    KraftSumEntries(lens, top);
    KraftSumSort(Entries(lens), top);
    CodesFitIffKraft(Canonical(lens), top);
  }
}
