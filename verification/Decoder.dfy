/** deflate.lua, from parse_huffmantables to inflate: the decoder as it runs, with its carry
    buffer, its ring window and its loops, proved against DeflateSpec and BlockSpec. A read that
    meets the end of the input fails the run, as the program's arithmetic on nil does. */
module Decoder {
  import opened Bits
  import opened BitStreams
  import opened Huffman
  import opened HuffmanRead
  import HuffmanBuild
  import opened Window
  import opened DeflateSpec
  import opened BlockSpec
  import opened LzTables

  ghost predicate Ready(bs: BitStream)
    reads bs
  {
    bs.Valid() && bs.bufNbit < 8
  }

  /** A table whose shortest code can be read at once. */
  ghost predicate Readable(t: Table) {
    Usable(t) && (t.minbits.Some? ==> t.minbits.value <= 24)
  }

  datatype Status = Error | Finished | Continue

  // ----- parse_compressed_item

  /** The length of a match, its symbol being given. */
  method ReadLength(bs: BitStream, sym: nat) returns (len: Option<nat>)
    requires Ready(bs) && sym > 256
    modifies bs
    ensures bs.Valid() && bs.bufNbit < 24 && (len.Some? ==> Ready(bs))
    ensures if sym > 285 then len == None else
              match LengthOf(sym, old(bs.Remaining()))
              case None => len == None
              case Some((v, rest)) => len == Some(v) && bs.Remaining() == rest
  {
    hide ReadBits, LEN_BASE, LEN_EXTRA;
    var lenBase := BuildLenBase();
    var lenExtra := BuildLenExtra(bs.library != Absent);
    ExtraSizes();
    // a missing bit count reads one bit
    var extra := bs.Read(if sym in lenExtra then lenExtra[sym] else 1);
    if extra.None? || sym !in lenBase {
      return None;
    }
    len := Some(lenBase[sym] + extra.value);
  }

  lemma ExtraSizes()
    ensures |LEN_BASE| == |LEN_EXTRA| == 29 && forall i :: 0 <= i < 29 ==> LEN_EXTRA[i] <= 24
    ensures |DIST_EXTRA| == 30 && forall i :: 0 <= i < 30 ==> DIST_EXTRA[i] <= 24
    ensures |RAW_DIST_BASE| == 31
  {
    TableSizes();
  }

  /** The distance of a match. */
  method ReadDistance(bs: BitStream, dist: Table) returns (d: Option<nat>)
    requires Ready(bs) && Readable(dist)
    modifies bs
    ensures bs.Valid() && bs.bufNbit < 24 && (d.Some? ==> Ready(bs))
    ensures match DistanceOf(dist, old(bs.Remaining()))
            case None => d == None
            case Some((v, rest)) => d == Some(v) && bs.Remaining() == rest
  {
    hide ReadBits, DecodeSymbol, DIST_EXTRA, RAW_DIST_BASE, DistBase, DIST_BASE, Usable;
    var distBase := BuildDistBase();
    var distExtra := BuildDistExtra(bs.library != Absent);
    ExtraSizes();
    var sym := ReadSymbol(dist, bs);
    if sym.None? {
      return None;
    }
    if sym.value <= 30 { DistBaseTable(sym.value); }
    var extra := bs.Read(if sym.value in distExtra then distExtra[sym.value] else 1);
    if extra.None? || sym.value !in distBase {
      return None;
    }
    d := Some(distBase[sym.value] + extra.value);
  }

  /** What a status says about an item of the specification. */
  ghost predicate ItemAgrees(r: Status, rest: seq<bool>, out0: seq<byte>, out: seq<byte>, item: Item) {
    match item
    case Bad => r == Error && out == out0
    case EndOfBlock(end) => r == Finished && rest == end && out == out0
    case More(end, o) => r == Continue && rest == end && out == o
  }

  method ParseMatch(bs: BitStream, os: OutState, sym: nat, dist: Table) returns (r: Status)
    requires Ready(bs) && os.Valid() && Readable(dist) && sym > 256
    modifies bs, os
    ensures bs.Valid() && os.Valid() && (r != Error ==> Ready(bs))
    ensures ItemAgrees(r, bs.Remaining(), old(os.out), os.out,
                       if sym > 285 then Bad else RunMatch(sym, old(bs.Remaining()), old(os.out), dist))
  {
    hide LengthOf, DistanceOf, Usable, Copy, Effective, Holds, AdlerOf, IsSuffix;
    ghost var bits := bs.Remaining();
    if sym <= 285 { LengthSuffix(sym, bits); }
    var len := ReadLength(bs, sym);
    if len.None? {
      return Error;
    }
    DistanceSuffix(dist, bs.Remaining());
    var d := ReadDistance(bs, dist);
    if d.None? {
      return Error;
    }
    var ok := os.CopyMatch(d.value, len.value);
    r := if ok then Continue else Error;
  }

  method ParseCompressedItem(bs: BitStream, os: OutState, lit: Table, dist: Table) returns (r: Status)
    requires Ready(bs) && os.Valid() && Readable(lit) && Readable(dist)
    modifies bs, os
    ensures bs.Valid() && os.Valid() && (r != Error ==> Ready(bs))
    ensures ItemAgrees(r, bs.Remaining(), old(os.out), os.out,
                       RunItem(old(bs.Remaining()), old(os.out), lit, dist))
  {
    hide DecodeSymbol, RunMatch, Usable, Holds, AdlerOf;
    var val := ReadSymbol(lit, bs);
    if val.None? {
      return Error;
    }
    if val.value < 256 {
      os.Output(val.value);
      r := Continue;
    } else if val.value == 256 {
      r := Finished;
    } else {
      r := ParseMatch(bs, os, val.value, dist);
    }
  }

  /** What a finished or failed run says about an outcome of the specification. */
  ghost predicate OutcomeAgrees(ok: bool, rest: seq<bool>, out: seq<byte>, r: Outcome) {
    match r
    case Fail(_, o) => !ok && out == o
    case Done(end, o) => ok && rest == end && out == o
  }

  /** The repeat loop over the items of a block. */
  method ParseItems(bs: BitStream, os: OutState, lit: Table, dist: Table) returns (ok: bool)
    requires Ready(bs) && os.Valid() && Readable(lit) && Readable(dist)
    modifies bs, os
    ensures bs.Valid() && os.Valid() && (ok ==> Ready(bs))
    ensures OutcomeAgrees(ok, bs.Remaining(), os.out, RunItems(old(bs.Remaining()), old(os.out), lit, dist))
  {
    hide RunItem, Usable, Holds, AdlerOf, Grows;
    while true
      invariant Ready(bs) && os.Valid()
      invariant RunItems(bs.Remaining(), os.out, lit, dist) == RunItems(old(bs.Remaining()), old(os.out), lit, dist)
      decreases |bs.Remaining()|
    {
      ItemSuffix(bs.Remaining(), os.out, lit, dist);
      var r := ParseCompressedItem(bs, os, lit, dist);
      match r
      case Error => return false;
      case Finished => return true;
      case Continue =>
    }
  }

  // ----- parse_huffmantables

  lemma PlaceExists(i: nat)
    requires i < 19
    ensures |CODELEN_ORDER| == 19 && CODELEN_ORDER[i] < 19
  {
  }

  method ReadCodeLengthTable(bs: BitStream, ncodelen: nat) returns (lens: Option<seq<nat>>)
    requires Ready(bs) && ncodelen <= 19
    modifies bs
    ensures bs.Valid() && bs.bufNbit < 24 && (lens.Some? ==> Ready(bs))
    ensures match ReadCodeLengths(old(bs.Remaining()), 0, ncodelen, Repeat<nat>(0, 19))
            case None => lens == None
            case Some((cl, rest)) => lens == Some(cl) && bs.Remaining() == rest
  {
    hide CODELEN_ORDER, LsbVal;
    var codelens: seq<nat> := Repeat<nat>(0, 19);
    for i := 0 to ncodelen
      invariant Ready(bs) && |codelens| == 19
      invariant ReadCodeLengths(bs.Remaining(), i, ncodelen, codelens)
             == ReadCodeLengths(old(bs.Remaining()), 0, ncodelen, Repeat<nat>(0, 19))
    {
      PlaceExists(i);
      var v := bs.Read(3);
      if v.None? {
        return None;
      }
      codelens := codelens[CODELEN_ORDER[i] := v.value];
    }
    lens := Some(codelens);
  }

  /** One symbol of the code length alphabet: how often which length is to be entered. */
  method ReadRun(bs: BitStream, t: Table, nbits: nat) returns (run: Option<(nat, nat)>)
    requires Ready(bs) && Readable(t)
    modifies bs
    ensures bs.Valid() && bs.bufNbit < 24 && (run.Some? ==> Ready(bs))
    ensures match LengthStep(t, old(bs.Remaining()), nbits)
            case None => run == None
            case Some((lens, rest)) =>
              run.Some? && lens == Repeat<nat>(run.value.1, run.value.0) && bs.Remaining() == rest
  {
    hide DecodeSymbol, Usable, LsbVal;
    var codelen := ReadSymbol(t, bs);
    if codelen.None? {
      return None;
    }
    if codelen.value <= 15 {
      SingleRun(codelen.value);
      run := Some((1, codelen.value));
    } else if codelen.value == 16 {
      var extra := bs.Read(2);
      run := if extra.None? then None else Some((3 + extra.value, nbits));
    } else if codelen.value == 17 {
      var extra := bs.Read(3);
      run := if extra.None? then None else Some((3 + extra.value, 0));
    } else if codelen.value == 18 {
      var extra := bs.Read(7);
      run := if extra.None? then None else Some((11 + extra.value, 0));
    } else {
      run := None;
    }
  }

  lemma SingleRun(v: nat)
    ensures [v] == Repeat<nat>(v, 1)
  {
  }

  /** decode: the code lengths up to at least ncodes of them. A missing previous length enters
      nothing into the table, as length 0 does. */
  method Decode(bs: BitStream, t: Table, ncodes: nat) returns (init: Option<seq<nat>>)
    requires Ready(bs) && Readable(t)
    modifies bs
    ensures bs.Valid() && (init.Some? ==> Ready(bs))
    ensures match RunLengths(t, old(bs.Remaining()), ncodes, [], 0)
            case None => init == None
            case Some((lens, rest)) => init == Some(lens) && bs.Remaining() == rest
  {
    hide LengthStep, Usable;
    var lens: seq<nat> := [];
    var nbits: nat := 0;
    while |lens| < ncodes
      invariant Ready(bs)
      invariant RunLengths(t, bs.Remaining(), ncodes, lens, nbits)
             == RunLengths(t, old(bs.Remaining()), ncodes, [], 0)
      decreases |bs.Remaining()|
    {
      StepSuffix(t, bs.Remaining(), nbits);
      var run := ReadRun(bs, t, nbits);
      if run.None? {
        return None;
      }
      var (nrepeat, v) := run.value;
      nbits := v;
      ghost var before := lens;
      for i := 0 to nrepeat
        invariant lens == before + Repeat<nat>(nbits, i)
      {
        lens := lens + [nbits];
      }
    }
    init := Some(lens);
  }

  lemma FourBitCount(bits: seq<bool>)
    ensures ReadBits(bits, 4).Some? ==> ReadBits(bits, 4).value.0 < 16
  {
    FieldValue(bits, 4, 16) by { assert Pow2(4) == 16; }
  }

  method ParseHuffmanTables(bs: BitStream) returns (tables: Option<(Table, Table)>)
    requires Ready(bs)
    modifies bs
    ensures bs.Valid() && (tables.Some? ==> Ready(bs))
    ensures match RunHeader(old(bs.Remaining()))
            case None => tables == None
            case Some((lit, dist, rest)) =>
              tables == Some((TableOf(lit), TableOf(dist))) && bs.Remaining() == rest
  {
    hide ReadBits, LsbVal, RunHeaderBody, TableOf, IsSuffix;
    var hlit := bs.Read(5);
    if hlit.None? { return None; }
    var hdist := bs.Read(5);
    if hdist.None? { return None; }
    ghost var r2 := bs.Remaining();
    var hclen := bs.Read(4);
    if hclen.None? { return None; }
    FourBitCount(r2);
    tables := ParseHeaderBody(bs, hlit.value + 257, hdist.value + 1, hclen.value + 4);
  }

  method ParseHeaderBody(bs: BitStream, nlit: nat, ndist: nat, ncodelen: nat) returns (tables: Option<(Table, Table)>)
    requires Ready(bs) && ncodelen <= 19
    modifies bs
    ensures bs.Valid() && (tables.Some? ==> Ready(bs))
    ensures match RunHeaderBody(old(bs.Remaining()), nlit, ndist, ncodelen)
            case None => tables == None
            case Some((lit, dist, rest)) =>
              tables == Some((TableOf(lit), TableOf(dist))) && bs.Remaining() == rest
  {
    hide ReadCodeLengths, RunLengths, TableOf, Usable, AtMost;
    ghost var bits := bs.Remaining();
    CodeLengthsStart(bits, ncodelen);
    var cl := ReadCodeLengthTable(bs, ncodelen);
    if cl.None? { return None; }
    ShortCodes(cl.value, 7);
    var codelentable := HuffmanBuild.FromLengths(cl.value);
    var lit := Decode(bs, codelentable, nlit);
    if lit.None? { return None; }
    var littable := HuffmanBuild.FromLengths(lit.value);
    var dist := Decode(bs, codelentable, ndist);
    if dist.None? { return None; }
    var disttable := HuffmanBuild.FromLengths(dist.value);
    tables := Some((littable, disttable));
  }

  lemma CodeLengthsStart(bits: seq<bool>, n: nat)
    requires n <= 19
    ensures match ReadCodeLengths(bits, 0, n, Repeat<nat>(0, 19))
            case None => true
            case Some((cl, rest)) => IsSuffix(rest, bits) && |cl| == 19 && AtMost(cl, 7)
  {
    hide ReadCodeLengths;
    CodeLengthsSuffix(bits, 0, n, Repeat<nat>(0, 19));
  }

  lemma ShortCodes(lens: seq<nat>, n: nat)
    requires AtMost(lens, n) && n <= 24
    ensures Readable(TableOf(lens))
  {
    hide TableOf, Usable;
    TableOfUsable(lens);
  }

  // ----- parse_block

  method ParseStoredBlock(bs: BitStream, os: OutState) returns (ok: bool)
    requires Ready(bs) && os.Valid()
    modifies bs, os
    ensures bs.Valid() && os.Valid() && (ok ==> Ready(bs))
    ensures OutcomeAgrees(ok, bs.Remaining(), os.out, RunStoredBlock(old(bs.Remaining()), old(os.out)))
  {
    hide Holds, AdlerOf, LsbVal, RunStored;
    bs.SkipToByte();
    var len := bs.Read(16);
    if len.None? { return false; }
    var nlen := bs.Read(16);
    if nlen.None? { return false; }
    ok := CopyStored(bs, os, len.value);
  }

  method CopyStored(bs: BitStream, os: OutState, len: nat) returns (ok: bool)
    requires Ready(bs) && os.Valid()
    modifies bs, os
    ensures bs.Valid() && os.Valid() && (ok ==> Ready(bs))
    ensures OutcomeAgrees(ok, bs.Remaining(), os.out, RunStored(old(bs.Remaining()), len, old(os.out)))
  {
    hide Holds, AdlerOf, LsbVal;
    for i := 0 to len
      invariant Ready(bs) && os.Valid()
      invariant RunStored(bs.Remaining(), len - i, os.out) == RunStored(old(bs.Remaining()), len, old(os.out))
    {
      ByteValue(bs.Remaining());
      var b := bs.Read(8);
      if b.None? { return false; }
      os.Output(b.value);
    }
    ok := true;
  }

  method ParseCompressedBlock(bs: BitStream, os: OutState, dynamic: bool) returns (ok: bool)
    requires Ready(bs) && os.Valid()
    modifies bs, os
    ensures bs.Valid() && os.Valid() && (ok ==> Ready(bs))
    ensures OutcomeAgrees(ok, bs.Remaining(), os.out,
                          RunBody(if dynamic then 2 else 1, old(bs.Remaining()), old(os.out)))
  {
    hide Holds, AdlerOf, RunHeader, RunItems, TableOf, Usable, AtMost, FIXED_LIT, FIXED_DIST;
    var lit, dist;
    if dynamic {
      ghost var bits := bs.Remaining();
      HeaderSuffix(bits);
      var tables := ParseHuffmanTables(bs);
      if tables.None? { return false; }
      ShortCodes(RunHeader(bits).value.0, 15);
      ShortCodes(RunHeader(bits).value.1, 15);
      lit, dist := tables.value.0, tables.value.1;
    } else {
      lit, dist := FixedTables();
    }
    ok := ParseItems(bs, os, lit, dist);
  }

  method FixedTables() returns (lit: Table, dist: Table)
    ensures lit == TableOf(FIXED_LIT) && dist == TableOf(FIXED_DIST)
    ensures Readable(lit) && Readable(dist)
  {
    hide TableOf;
    FixedRanges();
    lit := HuffmanBuild.FromRanges([0, 8, 144, 9, 256, 7, 280, 8, 288]);
    dist := HuffmanBuild.FromRanges([0, 5, 32]);
    ShortCodes(FIXED_LIT, 9);
    ShortCodes(FIXED_DIST, 9);
  }

  lemma FixedRanges()
    ensures HuffmanBuild.GoodRanges([0, 8, 144, 9, 256, 7, 280, 8, 288])
    ensures HuffmanBuild.RangeLengths([0, 8, 144, 9, 256, 7, 280, 8, 288], 8) == FIXED_LIT
    ensures HuffmanBuild.GoodRanges([0, 5, 32])
    ensures HuffmanBuild.RangeLengths([0, 5, 32], 2) == FIXED_DIST
    ensures AtMost(FIXED_LIT, 9) && AtMost(FIXED_DIST, 9)
  {
    var r: seq<nat> := [0, 8, 144, 9, 256, 7, 280, 8, 288];
    assert HuffmanBuild.RangeLengths(r, 0) == [];
    assert HuffmanBuild.RangeLengths(r, 2) == Repeat<nat>(8, 144);
    assert HuffmanBuild.RangeLengths(r, 4) == HuffmanBuild.RangeLengths(r, 2) + Repeat<nat>(9, 112);
    assert HuffmanBuild.RangeLengths(r, 6) == HuffmanBuild.RangeLengths(r, 4) + Repeat<nat>(7, 24);
    assert HuffmanBuild.RangeLengths(r, 8) == HuffmanBuild.RangeLengths(r, 6) + Repeat<nat>(8, 8);
    var d: seq<nat> := [0, 5, 32];
    assert HuffmanBuild.RangeLengths(d, 0) == [];
    assert HuffmanBuild.RangeLengths(d, 2) == Repeat<nat>(5, 32);
  }

  datatype BlockStatus = BlockError | LastBlock | NotLast

  method ParseBlock(bs: BitStream, os: OutState) returns (r: BlockStatus)
    requires Ready(bs) && os.Valid()
    modifies bs, os
    ensures bs.Valid() && os.Valid() && (r != BlockError ==> Ready(bs))
    ensures match RunBlock(old(bs.Remaining()), old(os.out))
            case BlockFail(_, o) => r == BlockError && os.out == o
            case BlockDone(rest, o, final) =>
              r == (if final then LastBlock else NotLast) && bs.Remaining() == rest && os.out == o
  {
    hide Holds, AdlerOf, LsbVal, RunStoredBlock, RunHeader, RunCompressed, FIXED_LIT, FIXED_DIST;
    var bfinal := bs.Read(1);
    if bfinal.None? { return BlockError; }
    var btype := bs.Read(2);
    if btype.None? { return BlockError; }
    var ok;
    if btype.value == 0 {
      ok := ParseStoredBlock(bs, os);
    } else if btype.value == 1 || btype.value == 2 {
      ok := ParseCompressedBlock(bs, os, btype.value == 2);
    } else {
      ok := false;
    }
    if !ok { return BlockError; }
    r := if bfinal.value != 0 then LastBlock else NotLast;
  }

  // ----- inflate

  method Inflate(bs: BitStream, os: OutState) returns (ok: bool)
    requires Ready(bs) && os.Valid()
    modifies bs, os
    ensures bs.Valid() && os.Valid() && (ok ==> Ready(bs))
    ensures OutcomeAgrees(ok, bs.Remaining(), os.out, RunBlocks(old(bs.Remaining()), old(os.out)))
  {
    hide Holds, AdlerOf, RunBlock;
    while true
      invariant Ready(bs) && os.Valid()
      invariant RunBlocks(bs.Remaining(), os.out) == RunBlocks(old(bs.Remaining()), old(os.out))
      decreases |bs.Remaining()|
    {
      BlockBounded(bs.Remaining(), os.out);
      var r := ParseBlock(bs, os);
      match r
      case BlockError => return false;
      case LastBlock => return true;
      case NotLast =>
    }
  }
}
