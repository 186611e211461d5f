/** deflate.lua, the tables of parse_compressed_item: the loops that fill them on first use give
    the tables of section 3.2.5 of RFC 1951, and one base beyond them. */
module LzTables {
  import opened Bits
  import opened BitStreams
  import opened DeflateSpec
  import BitOps

  const RAW_LEN_BASE: seq<nat> := [3, 4, 5, 6, 7, 8, 9, 10, 11, 13, 15, 17, 19, 23, 27, 31, 35, 43, 51, 59,
                                   67, 83, 99, 115, 131, 163, 195, 227, 259]
  const LEN_SKIP: seq<nat> := [1, 1, 2, 4, 8, 16, 32, 64]
  const DIST_SKIP: seq<nat> := [1, 1, 2, 4, 8, 16, 32, 64, 128, 256, 512, 1024, 2048, 4096, 8192, 16384]

  const RAW_DIST_BASE: seq<nat> := [1, 2, 3, 4, 5, 7, 9, 13, 17, 25, 33, 49, 65, 97, 129, 193, 257, 385, 513, 769,
                                    1025, 1537, 2049, 3073, 4097, 6145, 8193, 12289, 16385, 24577, 32769]

  /** want rises by skip at each of the places i..j. */
  ghost predicate Steps(want: seq<nat>, i: nat, j: nat, skip: nat) {
    1 <= i <= j <= |want| && forall k :: i <= k < j ==> want[k] == want[k - 1] + skip
  }

  lemma LenSteps(k: nat)
    requires k < 7
    ensures Steps(RAW_LEN_BASE, 4 * k + 1, 4 * k + 5, LEN_SKIP[k])
  {
    hide RAW_LEN_BASE, LEN_SKIP;
    LenStep(k, 1);
    LenStep(k, 2);
    LenStep(k, 3);
    LenStep(k, 4);
  }

  lemma LenStep(k: nat, j: nat)
    requires k < 7 && 1 <= j <= 4
    ensures |RAW_LEN_BASE| == 29 && |LEN_SKIP| == 8
    ensures RAW_LEN_BASE[4 * k + j] == RAW_LEN_BASE[4 * k + j - 1] + LEN_SKIP[k]
  {
  }

  lemma LenSkips(k: nat)
    requires k < 7
    ensures LEN_SKIP[k + 1] == if k == 0 then 1 else 2 * LEN_SKIP[k]
  {
  }

  lemma DistSkips(k: nat)
    requires k < 15
    ensures DIST_SKIP[k + 1] == if k == 0 then 1 else 2 * DIST_SKIP[k]
  {
  }

  lemma DistSteps(k: nat)
    requires k < 15
    ensures Steps(RAW_DIST_BASE, 2 * k + 1, 2 * k + 3, DIST_SKIP[k])
  {
    hide RAW_DIST_BASE, DIST_SKIP;
    DistFirstStep(k);
    DistSecondStep(k);
  }

  lemma DistFirstStep(k: nat)
    requires k < 15
    ensures |RAW_DIST_BASE| == 31 && |DIST_SKIP| == 16
    ensures RAW_DIST_BASE[2 * k + 1] == RAW_DIST_BASE[2 * k] + DIST_SKIP[k]
  {
  }

  lemma DistSecondStep(k: nat)
    requires k < 15
    ensures |RAW_DIST_BASE| == 31 && |DIST_SKIP| == 16
    ensures RAW_DIST_BASE[2 * k + 2] == RAW_DIST_BASE[2 * k + 1] + DIST_SKIP[k]
  {
  }

  /** t has the first n values of want, from key first on. */
  ghost predicate Agrees(t: map<nat, nat>, first: nat, want: seq<nat>, n: nat) {
    && n <= |want|
    && (forall i :: i in t <==> first <= i < first + n)
    && (forall i :: first <= i < first + n ==> t[i] == want[i - first])
  }

  /** Each entry from i to below end is the one before it and skip more. */
  method FillRun(t0: map<nat, nat>, i: nat, end: nat, skip: nat, ghost first: nat, ghost want: seq<nat>)
    returns (t: map<nat, nat>)
    requires first < i <= end <= first + |want|
    requires Agrees(t0, first, want, i - first) && Steps(want, i - first, end - first, skip)
    ensures Agrees(t, first, want, end - first)
  {
    t := t0;
    for j := i to end
      invariant Agrees(t, first, want, j - first)
    {
      assert want[j - first] == want[j - first - 1] + skip;
      t := t[j := t[j - 1] + skip];
    }
  }

  method BuildLenBase() returns (t: map<nat, nat>)
    ensures Agrees(t, 257, LEN_BASE, 29)
  {
    hide Steps, Agrees, RAW_LEN_BASE, LEN_SKIP;
    FirstEntries();
    t := map[257 := 3];
    var skip: nat := 1;
    var i: nat := 258;
    while i <= 285
      invariant 258 <= i <= 286 && i % 4 == 2
      invariant skip == LEN_SKIP[(i - 258) / 4]
      invariant Agrees(t, 257, RAW_LEN_BASE, i - 257)
    {
      LenSteps((i - 258) / 4);
      LenSkips((i - 258) / 4);
      t := FillRun(t, i, i + 4, skip, 257, RAW_LEN_BASE);
      if i != 258 { skip := skip * 2; }
      i := i + 4;
    }
    LastLength(t);
    t := t[285 := 258];
  }

  lemma FirstEntries()
    ensures |RAW_LEN_BASE| == 29 && |LEN_SKIP| == 8 && LEN_SKIP[0] == 1
    ensures |RAW_DIST_BASE| == 31 && |DIST_SKIP| == 16 && DIST_SKIP[0] == 1
    ensures Agrees(map[257 := 3], 257, RAW_LEN_BASE, 1)
    ensures Agrees(map[0 := 1], 0, RAW_DIST_BASE, 1)
  {
  }

  lemma LastLength(t: map<nat, nat>)
    requires Agrees(t, 257, RAW_LEN_BASE, 29)
    ensures Agrees(t[285 := 258], 257, LEN_BASE, 29)
  {
    assert RAW_LEN_BASE[..28] == LEN_BASE[..28];
    forall i | 0 <= i < 28 ensures RAW_LEN_BASE[i] == LEN_BASE[i] {
      assert RAW_LEN_BASE[..28][i] == LEN_BASE[..28][i];
    }
  }

  method BuildDistBase() returns (t: map<nat, nat>)
    ensures Agrees(t, 0, RAW_DIST_BASE, 31)
  {
    hide Steps, Agrees, RAW_DIST_BASE, DIST_SKIP;
    FirstEntries();
    t := map[0 := 1];
    var skip: nat := 1;
    var i: nat := 1;
    while i <= 29
      invariant 1 <= i <= 31 && i % 2 == 1
      invariant skip == DIST_SKIP[(i - 1) / 2]
      invariant Agrees(t, 0, RAW_DIST_BASE, i)
    {
      DistSteps((i - 1) / 2);
      DistSkips((i - 1) / 2);
      t := FillRun(t, i, i + 2, skip, 0, RAW_DIST_BASE);
      if i != 1 { skip := skip * 2; }
      i := i + 2;
    }
  }

  method BuildLenExtra(native: bool) returns (t: map<nat, nat>)
    ensures Agrees(t, 257, LEN_EXTRA, 29)
  {
    t := map[];
    for i := 257 to 286
      invariant forall k :: k in t <==> 257 <= k < i
      invariant forall k :: 257 <= k < i ==> t[k] == Max0(k - 261) / 4
    {
      var j := Max0(i - 261);
      Shifted(j);
      t := t[i := if native then BitOps.Rshift(j, 2) else (j - j % 4) / 4];
    }
    LenExtraFormula();
    t := t[285 := 0];
  }

  method BuildDistExtra(native: bool) returns (t: map<nat, nat>)
    ensures Agrees(t, 0, DIST_EXTRA, 30)
  {
    t := map[];
    for i := 0 to 30
      invariant forall k :: k in t <==> 0 <= k < i
      invariant forall k :: 0 <= k < i ==> t[k] == Max0(k - 2) / 2
    {
      var j := Max0(i - 2);
      Shifted(j);
      t := t[i := if native then BitOps.Rshift(j, 1) else (j - j % 2) / 2];
    }
    DistExtraFormula();
  }

  function Max0(j: int): nat { if j > 0 then j else 0 }

  lemma Shifted(j: nat)
    requires j < 100
    ensures BitOps.Rshift(j, 2) == j / 4 && BitOps.Rshift(j, 1) == j / 2
  {
    NativeShift(j, 2);
    NativeShift(j, 1);
    assert Shr(j, 2) == Shr(j / 2, 1) == Shr(j / 2 / 2, 0);
    assert Shr(j, 1) == Shr(j / 2, 0);
  }

  lemma LenExtraFormula()
    ensures |LEN_EXTRA| == 29 && LEN_EXTRA[28] == 0
    ensures forall k :: 0 <= k < 28 ==> LEN_EXTRA[k] == Max0(k - 4) / 4
  {
  }

  lemma DistExtraFormula()
    ensures |DIST_EXTRA| == 30
    ensures forall k :: 0 <= k < 30 ==> DIST_EXTRA[k] == Max0(k - 2) / 2
  {
  }

  /** What the items look up: the bases of the standard, and symbol 30 beyond them. */
  lemma DistBaseTable(sym: nat)
    requires sym <= 30
    ensures |RAW_DIST_BASE| == 31 && RAW_DIST_BASE[sym] == DistBase(sym)
  {
    assert RAW_DIST_BASE[..30] == DIST_BASE;
    if sym < 30 { assert RAW_DIST_BASE[..30][sym] == DIST_BASE[sym]; }
  }
}
