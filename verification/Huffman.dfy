/** deflate.lua, HuffmanTable: canonical codes from code lengths, and reading one symbol.
    The reference is the code assignment of section 3.2.2 of RFC 1951. */
module Huffman {
  import opened Bits
  import opened BitStreams
  import BitOps

  datatype Entry = Entry(val: nat, nbits: nat)

  // ----- Sorting by (nbits, val)

  predicate Less(a: Entry, b: Entry) {
    (a.nbits == b.nbits && a.val < b.val) || a.nbits < b.nbits
  }

  ghost predicate Sorted(t: seq<Entry>) {
    && (forall i :: 0 <= i < |t| ==> t[i].nbits >= 1)
    && (forall i, j :: 0 <= i < j < |t| ==> Less(t[i], t[j]))
  }

  /** The library sort: entries are put in one by one, each after all smaller ones. */
  function Insert(t: seq<Entry>, e: Entry): (r: seq<Entry>)
    ensures |r| == |t| + 1
  {
    if t == [] || Less(e, t[0]) then [e] + t else [t[0]] + Insert(t[1..], e)
  }

  function SortEntries(t: seq<Entry>): (r: seq<Entry>)
    ensures |r| == |t|
  {
    if t == [] then [] else Insert(SortEntries(t[..|t| - 1]), t[|t| - 1])
  }

  lemma {:induction false} InsertMembers(t: seq<Entry>, e: Entry, x: Entry)
    ensures x in Insert(t, e) <==> x in t || x == e
  {
    if t == [] || Less(e, t[0]) {
    } else {
      InsertMembers(t[1..], e, x);
      assert t == [t[0]] + t[1..];
    }
  }

  lemma {:induction false} InsertSorted(t: seq<Entry>, e: Entry)
    requires Sorted(t) && e.nbits >= 1
    requires forall x :: x in t ==> x.val != e.val
    ensures Sorted(Insert(t, e))
  {
    if t == [] || Less(e, t[0]) {
    } else {
      InsertSorted(t[1..], e);
      forall x | x in Insert(t[1..], e) ensures Less(t[0], x) {
        InsertMembers(t[1..], e, x);
      }
    }
  }

  ghost predicate Distinct(t: seq<Entry>) {
    && (forall i :: 0 <= i < |t| ==> t[i].nbits >= 1)
    && (forall i, j :: 0 <= i < j < |t| ==> t[i].val != t[j].val)
  }

  lemma {:induction false} SortEntriesMembers(t: seq<Entry>, x: Entry)
    ensures x in SortEntries(t) <==> x in t
  {
    if t != [] {
      var s := t[..|t| - 1];
      SortEntriesMembers(s, x);
      InsertMembers(SortEntries(s), t[|t| - 1], x);
      assert t == s + [t[|t| - 1]];
    }
  }

  lemma {:induction false} SortEntriesSorted(t: seq<Entry>)
    requires Distinct(t)
    ensures Sorted(SortEntries(t))
  {
    if t != [] {
      var s, e := t[..|t| - 1], t[|t| - 1];
      SortEntriesSorted(s);
      forall x | x in SortEntries(s) ensures x.val != e.val {
        SortEntriesMembers(s, x);
      }
      InsertSorted(SortEntries(s), e);
    }
  }

  /** A sorted table is determined by its set of entries. */
  lemma SortedIsUnique(s: seq<Entry>, t: seq<Entry>)
    requires Sorted(s) && Sorted(t)
    requires forall x :: x in s <==> x in t
    ensures s == t
  {
    LengthIsSetSize(s);
    LengthIsSetSize(t);
    assert (set x | x in s) == (set x | x in t);
    SortedOfOneLength(s, t);
  }

  lemma HeadNotInTail(t: seq<Entry>)
    requires Sorted(t) && t != []
    ensures t[0] !in t[1..]
  {
    forall k | 0 <= k < |t[1..]| ensures t[1..][k] != t[0] {
      assert Less(t[0], t[k + 1]);
    }
  }

  lemma {:induction false} LengthIsSetSize(t: seq<Entry>)
    requires Sorted(t)
    ensures |set x | x in t| == |t|
  {
    if t != [] {
      LengthIsSetSize(t[1..]);
      HeadNotInTail(t);
      hide Sorted;
      assert t == [t[0]] + t[1..];
      assert (set x | x in t) == {t[0]} + set x | x in t[1..];
    }
  }

  lemma {:induction false} SortedOfOneLength(s: seq<Entry>, t: seq<Entry>)
    requires Sorted(s) && Sorted(t) && |s| == |t|
    requires forall x :: x in s <==> x in t
    ensures s == t
  {
    if s != [] {
      SameHead(s, t);
      forall x ensures x in s[1..] <==> x in t[1..] {
        TailMembers(s, x);
        TailMembers(t, x);
      }
      SortedOfOneLength(s[1..], t[1..]);
      assert s == [s[0]] + s[1..] && t == [t[0]] + t[1..];
    }
  }

  lemma SameHead(s: seq<Entry>, t: seq<Entry>)
    requires Sorted(s) && Sorted(t) && s != [] && t != []
    requires forall x :: x in s <==> x in t
    ensures s[0] == t[0]
  {
    assert s[0] in t && t[0] in s;
  }

  lemma TailMembers(s: seq<Entry>, x: Entry)
    requires Sorted(s) && s != []
    ensures x in s[1..] <==> x in s && x != s[0]
  {
    assert s == [s[0]] + s[1..];
  }

  // ----- Entries of a length table

  /** The entry of symbol v, present exactly when its length is not zero. */
  ghost predicate IsEntry(lens: seq<nat>, e: Entry) {
    e.val < |lens| && e.nbits == lens[e.val] && e.nbits != 0
  }

  /** The entries of a length table in the order of their values. */
  function Entries(lens: seq<nat>): seq<Entry> {
    if lens == [] then [] else
      var n := |lens| - 1;
      Entries(lens[..n]) + if lens[n] != 0 then [Entry(n, lens[n])] else []
  }

  lemma {:induction false} EntriesMembers(lens: seq<nat>, e: Entry)
    ensures e in Entries(lens) <==> IsEntry(lens, e)
  {
    if lens != [] { EntriesMembers(lens[..|lens| - 1], e); }
  }

  lemma {:induction false} EntriesDistinct(lens: seq<nat>)
    ensures Distinct(Entries(lens))
    ensures forall i :: 0 <= i < |Entries(lens)| ==> Entries(lens)[i].val < |lens|
  {
    if lens != [] { EntriesDistinct(lens[..|lens| - 1]); }
  }

  /** The table every iteration order leads to. */
  function Canonical(lens: seq<nat>): seq<Entry> { SortEntries(Entries(lens)) }

  lemma CanonicalFacts(lens: seq<nat>)
    ensures Sorted(Canonical(lens))
    ensures forall e :: e in Canonical(lens) <==> IsEntry(lens, e)
  {
    EntriesDistinct(lens);
    SortEntriesSorted(Entries(lens));
    forall e ensures e in Canonical(lens) <==> IsEntry(lens, e) {
      SortEntriesMembers(Entries(lens), e);
      EntriesMembers(lens, e);
    }
  }

  // ----- Code assignment

  /** The code of entry i, leading 1 marker included. */
  function CodeAt(t: seq<Entry>, i: nat): nat
    requires Sorted(t) && i < |t|
  {
    if i == 0 then Pow2(t[0].nbits)
    else assert Less(t[i - 1], t[i]); Shl(CodeAt(t, i - 1) + 1, t[i].nbits - t[i - 1].nbits)
  }

  /** The first n codes with their symbols. */
  function LookOf(t: seq<Entry>, n: nat): map<nat, nat>
    requires Sorted(t) && n <= |t|
  {
    if n == 0 then map[] else LookOf(t, n - 1)[CodeAt(t, n - 1) := t[n - 1].val]
  }

  /** A built table; minbits is None for the empty table, where the program has infinity. */
  datatype Table = Table(look: map<nat, nat>, minbits: Option<nat>)

  function TableOf(lens: seq<nat>): Table {
    CanonicalFacts(lens);
    var t := Canonical(lens);
    Table(LookOf(t, |t|), if t == [] then None else Some(t[0].nbits))
  }

  /** Later entries leave room for every extension of an earlier code. */
  lemma {:induction false} CodeGap(t: seq<Entry>, j: nat, i: nat)
    requires Sorted(t) && j < i < |t|
    ensures t[j].nbits <= t[i].nbits
    ensures CodeAt(t, i) >= Shl(CodeAt(t, j) + 1, t[i].nbits - t[j].nbits)
    decreases i
  {
    var d := t[i].nbits - t[i - 1].nbits;
    if j < i - 1 {
      CodeGap(t, j, i - 1);
      var room := Shl(CodeAt(t, j) + 1, t[i - 1].nbits - t[j].nbits);
      ShlShl(CodeAt(t, j) + 1, t[i - 1].nbits - t[j].nbits, d);
      ShlMono(room, CodeAt(t, i - 1) + 1, d);
    }
  }

  lemma {:induction false} CodeIncreases(t: seq<Entry>, j: nat, i: nat)
    requires Sorted(t) && j < i < |t|
    ensures CodeAt(t, j) < CodeAt(t, i)
  {
    CodeGap(t, j, i);
    ShlMono(CodeAt(t, j) + 1, 0, t[i].nbits - t[j].nbits);
  }

  lemma {:induction false} CodeAtLeast(t: seq<Entry>, i: nat)
    requires Sorted(t) && i < |t|
    ensures CodeAt(t, i) >= Pow2(t[i].nbits) >= 2
  {
    if i != 0 {
      CodeAtLeast(t, i - 1);
      var d := t[i].nbits - t[i - 1].nbits;
      ShlMono(Pow2(t[i - 1].nbits), CodeAt(t, i - 1) + 1, d);
      ShlPow2(t[i - 1].nbits, d);
    }
  }

  /** look maps each code to the symbol it was made for: no code is overwritten by a later one. */
  lemma {:induction false} LookHas(t: seq<Entry>, n: nat, i: nat)
    requires Sorted(t) && i < n <= |t|
    ensures CodeAt(t, i) in LookOf(t, n) && LookOf(t, n)[CodeAt(t, i)] == t[i].val
  {
    if i < n - 1 {
      LookHas(t, n - 1, i);
      CodeIncreases(t, i, n - 1);
    }
  }

  /** look has no other keys than the codes. */
  lemma {:induction false} LookIndex(t: seq<Entry>, n: nat, c: nat) returns (i: nat)
    requires Sorted(t) && n <= |t| && c in LookOf(t, n)
    ensures i < n && CodeAt(t, i) == c && t[i].val == LookOf(t, n)[c]
  {
    if c == CodeAt(t, n - 1) {
      i := n - 1;
    } else {
      i := LookIndex(t, n - 1, c);
    }
  }

  // ----- The Kraft sum

  /** The sum of 2^(-nbits), scaled by 2^top. */
  function KraftSum(t: seq<Entry>, top: nat): nat
    requires forall i :: 0 <= i < |t| ==> t[i].nbits <= top
  {
    if t == [] then 0 else KraftSum(t[..|t| - 1], top) + Pow2(top - t[|t| - 1].nbits)
  }

  /** The i-th code is 2^n_i * (1 + the sum of 2^-n_j over j < i), here scaled by 2^top. */
  lemma {:induction false} CodeIsKraftSum(t: seq<Entry>, i: nat, top: nat)
    requires Sorted(t) && i < |t|
    requires forall j :: 0 <= j < |t| ==> t[j].nbits <= top
    ensures Shl(CodeAt(t, i), top - t[i].nbits) == Pow2(top) + KraftSum(t[..i], top)
  {
    hide Shl, Pow2;
    if i == 0 {
      ShlPow2(t[0].nbits, top - t[0].nbits);
    } else {
      CodeIsKraftSum(t, i - 1, top);
      assert Less(t[i - 1], t[i]);
      ScaledStep(CodeAt(t, i - 1), t[i].nbits - t[i - 1].nbits, top - t[i].nbits);
      assert t[..i][..i - 1] == t[..i - 1];
    }
  }

  lemma ScaledStep(c: nat, d: nat, e: nat)
    ensures Shl(Shl(c + 1, d), e) == Shl(c, d + e) + Pow2(d + e)
  {
    ShlShl(c + 1, d, e);
    ShlAdd(c, 1, d + e);
    ShlPow2(0, d + e);
  }

  /** Every code fits its length exactly when the Kraft inequality holds. */
  ghost predicate CodesFit(t: seq<Entry>)
    requires Sorted(t)
  {
    forall i :: 0 <= i < |t| ==> CodeAt(t, i) < 2 * Pow2(t[i].nbits)
  }

  lemma {:induction false} KraftPrefix(t: seq<Entry>, i: nat, top: nat)
    requires i < |t| && forall j :: 0 <= j < |t| ==> t[j].nbits <= top
    ensures KraftSum(t[..i], top) + Pow2(top - t[i].nbits) <= KraftSum(t, top)
  {
    var s := t[..|t| - 1];
    if i < |t| - 1 {
      KraftPrefix(s, i, top);
      assert s[..i] == t[..i];
    }
  }

  lemma CodesFitIffKraft(t: seq<Entry>, top: nat)
    requires Sorted(t)
    requires forall j :: 0 <= j < |t| ==> t[j].nbits <= top
    ensures CodesFit(t) <==> KraftSum(t, top) <= Pow2(top)
  {
    forall i | 0 <= i < |t|
      ensures CodeAt(t, i) < 2 * Pow2(t[i].nbits)
         <==> KraftSum(t[..i], top) + Pow2(top - t[i].nbits) <= Pow2(top)
      ensures KraftSum(t[..i], top) + Pow2(top - t[i].nbits) <= KraftSum(t, top)
    {
      FitIffPrefixSum(t, i, top);
      KraftPrefix(t, i, top);
    }
    if t != [] {
      assert CodesFit(t) ==> CodeAt(t, |t| - 1) < 2 * Pow2(t[|t| - 1].nbits);
    }
  }

  lemma FitIffPrefixSum(t: seq<Entry>, i: nat, top: nat)
    requires Sorted(t) && i < |t|
    requires forall j :: 0 <= j < |t| ==> t[j].nbits <= top
    ensures CodeAt(t, i) < 2 * Pow2(t[i].nbits)
       <==> KraftSum(t[..i], top) + Pow2(top - t[i].nbits) <= Pow2(top)
  {
    var c, n := CodeAt(t, i), t[i].nbits;
    CodeIsKraftSum(t, i, top);
    ShlAdd(c, 1, top - n);
    ShlPow2(0, top - n);
    ShlPow2(n + 1, top - n);
    ShlMono(c + 1, Pow2(n + 1), top - n);
  }
}
