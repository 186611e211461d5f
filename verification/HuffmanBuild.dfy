/** deflate.lua, HuffmanTable: the loops that collect the entries, assign the codes and fill look. */
module HuffmanBuild {
  import opened Bits
  import opened Huffman

  /** From a table of lengths (is_full): the keys come in any order whatever, and the table
      built does not depend on that order. */
  method FromLengths(init: seq<nat>) returns (table: Table)
    ensures table == TableOf(init)
  {
    var t: seq<Entry> := [];
    var keys := set i {:trigger init[i]} | 0 <= i < |init|;
    while keys != {}
      invariant forall k :: k in keys ==> 0 <= k < |init|
      invariant Distinct(t)
      invariant forall e :: e in t <==> IsEntry(init, e) && e.val !in keys
    {
      var val :| val in keys;
      keys := keys - {val};
      var nbits := init[val];
      if nbits != 0 {
        forall i | 0 <= i < |t| ensures t[i].val != val { assert t[i] in t; }
        t := t + [Entry(val, nbits)];
      }
    }
    table := FromEntries(t, init);
  }

  /** The length table that a list of ranges {first, nbits, next, nbits, ..., end} stands for,
      up to position i. */
  ghost function RangeLengths(init: seq<nat>, i: nat): (lens: seq<nat>)
    requires GoodRanges(init) && i % 2 == 0 && i < |init|
    ensures |lens| == init[i]
  {
    if i == 0 then [] else RangeLengths(init, i - 2) + seq(init[i] - init[i - 2], j => init[i - 1])
  }

  ghost predicate GoodRanges(init: seq<nat>) {
    && |init| % 2 == 1
    && init[0] == 0
    && forall i :: 0 <= i < |init| - 2 && i % 2 == 0 ==> init[i] <= init[i + 2]
  }

  lemma NoEntries()
    ensures Entries([]) == []
  {
  }

  /** From a list of ranges (not is_full), as for the fixed tables. */
  method FromRanges(init: seq<nat>) returns (table: Table)
    requires GoodRanges(init)
    ensures table == TableOf(RangeLengths(init, |init| - 1))
  {
    hide TableOf, IsEntry, Distinct, Entries;
    NoEntries();
    var t: seq<Entry> := [];
    ghost var lens: seq<nat> := [];
    var i := 0;
    while i + 2 < |init|
      invariant i % 2 == 0 && i < |init|
      invariant lens == RangeLengths(init, i) && t == Entries(lens)
    {
      var firstval, nbits, nextval := init[i], init[i + 1], init[i + 2];
      ghost var whole := lens + seq(nextval - firstval, j => nbits);
      if nbits != 0 {
        t := AddRange(t, firstval, nbits, nextval, lens, whole);
      } else {
        assert whole[..|lens|] == lens;
        SkipZeros(whole, firstval);
      }
      lens := whole;
      i := i + 2;
    }
    AllEntries(lens);
    table := FromEntries(t, lens);
  }

  lemma AllEntries(lens: seq<nat>)
    ensures Distinct(Entries(lens)) && forall e :: e in Entries(lens) <==> IsEntry(lens, e)
  {
    EntriesDistinct(lens);
    forall e ensures e in Entries(lens) <==> IsEntry(lens, e) { EntriesMembers(lens, e); }
  }

  method AddRange(t0: seq<Entry>, firstval: nat, nbits: nat, nextval: nat, ghost lens: seq<nat>, ghost whole: seq<nat>)
    returns (t: seq<Entry>)
    requires nbits != 0 && firstval <= nextval && |lens| == firstval
    requires whole == lens + seq(nextval - firstval, j => nbits)
    requires t0 == Entries(lens)
    ensures t == Entries(whole)
  {
    t := t0;
    assert whole[..firstval] == lens;
    for val := firstval to nextval
      invariant t == Entries(whole[..val])
    {
      assert whole[..val + 1][..val] == whole[..val];
      t := t + [Entry(val, nbits)];
    }
    assert whole[..nextval] == whole;
  }

  lemma {:induction false} SkipZeros(lens: seq<nat>, n: nat)
    requires n <= |lens| && forall i :: n <= i < |lens| ==> lens[i] == 0
    ensures Entries(lens) == Entries(lens[..n])
    decreases |lens|
  {
    if n == |lens| {
      assert lens[..n] == lens;
    } else {
      SkipZeros(lens[..|lens| - 1], n);
      assert lens[..|lens| - 1][..n] == lens[..n];
    }
  }

  /** Sorting, code assignment and the look table. */
  method FromEntries(unsorted: seq<Entry>, ghost lens: seq<nat>) returns (table: Table)
    requires Distinct(unsorted)
    requires forall e :: e in unsorted <==> IsEntry(lens, e)
    ensures table == TableOf(lens)
  {
    var t := SortEntries(unsorted);
    SortedAsCanonical(unsorted, lens);
    var codes := AssignCodes(t);
    var minbits: Option<nat> := None;
    var look: map<nat, nat> := map[];
    for i := 0 to |t|
      invariant look == LookOf(t, i)
      invariant minbits == if i == 0 then None else Some(t[0].nbits)
    {
      if i != 0 { assert Less(t[0], t[i]); }
      if minbits.None? || t[i].nbits < minbits.value {
        minbits := Some(t[i].nbits);
      }
      look := look[codes[i] := t[i].val];
    }
    table := Table(look, minbits);
  }

  lemma SortedAsCanonical(t: seq<Entry>, lens: seq<nat>)
    requires Distinct(t)
    requires forall e :: e in t <==> IsEntry(lens, e)
    ensures Sorted(SortEntries(t)) && SortEntries(t) == Canonical(lens)
  {
    CanonicalFacts(lens);
    SortEntriesSorted(t);
    hide Canonical;
    forall e ensures e in SortEntries(t) <==> e in Canonical(lens) {
      SortEntriesMembers(t, e);
    }
    SortedIsUnique(SortEntries(t), Canonical(lens));
  }

  method AssignCodes(t: seq<Entry>) returns (codes: seq<nat>)
    requires Sorted(t)
    ensures |codes| == |t| && forall i :: 0 <= i < |t| ==> codes[i] == CodeAt(t, i)
  {
    hide Pow2, Shl, CodeAt;
    codes := [];
    var code, nbits := 1, 0;
    for i := 0 to |t|
      invariant |codes| == i && forall j :: 0 <= j < i ==> codes[j] == CodeAt(t, j)
      invariant if i == 0 then code == 1 && nbits == 0 else nbits == t[i - 1].nbits && code == CodeAt(t, i - 1) + 1
    {
      CodeStep(t, i, code, nbits);
      if t[i].nbits != nbits {
        code := Pow2(t[i].nbits - nbits) * code;
        nbits := t[i].nbits;
      }
      codes := codes + [code];
      code := code + 1;
    }
  }

  lemma CodeStep(t: seq<Entry>, i: nat, code: nat, nbits: nat)
    requires Sorted(t) && i < |t|
    requires if i == 0 then code == 1 && nbits == 0 else nbits == t[i - 1].nbits && code == CodeAt(t, i - 1) + 1
    ensures nbits <= t[i].nbits
    ensures Pow2(t[i].nbits - nbits) * code == CodeAt(t, i)
    ensures t[i].nbits == nbits ==> code == CodeAt(t, i)
  {
    if i != 0 { assert Less(t[i - 1], t[i]); }
    hide Pow2, Shl;
    ShlIsProduct(code, t[i].nbits - nbits);
    FirstShift(t[i].nbits);
    NoShift(code);
  }

  lemma FirstShift(n: nat)
    ensures Shl(1, n) == Pow2(n)
  {
    ShlPow2(0, n);
  }

  lemma NoShift(code: nat)
    ensures Shl(code, 0) == code
  {
  }
}
