/** deflate.lua, parse_huffmantables: the program decodes the literal and the distance code
    lengths by two separate runs, section 3.2.7 of RFC 1951 by a single one. When they agree. */
module HeaderRuns {
  import opened Bits
  import opened BitStreams
  import opened Huffman
  import opened HuffmanRead
  import opened DeflateSpec
  import opened BlockSpec

  /** The single sequence of HLIT + 257 + HDIST + 1 lengths of the standard. */
  function OneRun(t: Table, bits: seq<bool>, nlit: nat, ndist: nat): Option<(seq<nat>, seq<bool>)>
    requires Usable(t)
  {
    RunLengths(t, bits, nlit + ndist, [], 0)
  }

  function LastOr(lens: seq<nat>, prev: nat): nat { if lens == [] then prev else lens[|lens| - 1] }

  /** The next symbol of the code length alphabet repeats the previous length. */
  predicate Repeats(t: Table, bits: seq<bool>) {
    match DecodeSymbol(t, bits)
    case None => false
    case Some((sym, r)) => sym == 16
  }

  /** A step takes the same bits and yields as many lengths whatever the previous length was, and
      the same lengths unless it repeats the previous one. */
  lemma StepIgnoresPrevious(t: Table, bits: seq<bool>, p: nat, q: nat)
    ensures match LengthStep(t, bits, p)
            case None => LengthStep(t, bits, q) == None
            case Some((run, rest)) =>
              && LengthStep(t, bits, q).Some?
              && LengthStep(t, bits, q).value.1 == rest && |LengthStep(t, bits, q).value.0| == |run| >= 1
              && (!Repeats(t, bits) ==> LengthStep(t, bits, q).value.0 == run)
              && (Repeats(t, bits) ==> run[0] == p && LengthStep(t, bits, q).value.0[0] == q)
  {
    hide DecodeSymbol, ReadBits;
  }

  /** A run to n + m lengths is a run to n lengths carried on. */
  lemma {:induction false} RunInParts(t: Table, bits: seq<bool>, n: nat, m: nat, lens: seq<nat>, prev: nat)
    requires Usable(t)
    ensures RunLengths(t, bits, n + m, lens, prev) ==
            match RunLengths(t, bits, n, lens, prev)
            case None => None
            case Some((l, r)) => RunLengths(t, r, n + m, l, if |l| == |lens| then prev else LastOr(l, prev))
    ensures RunLengths(t, bits, n, lens, prev).Some? ==> |RunLengths(t, bits, n, lens, prev).value.0| >= |lens|
    decreases |bits|
  {
    StepSuffix(t, bits, prev);
    hide LengthStep, Usable;
    if |lens| < n {
      match LengthStep(t, bits, prev)
      case None =>
      case Some((run, rest)) =>
        RunInParts(t, rest, n, m, lens + run, run[|run| - 1]);
        RunKeepsPrefix(t, rest, n, lens + run, run[|run| - 1]);
        var r := RunLengths(t, rest, n, lens + run, run[|run| - 1]);
        if r.Some? && |r.value.0| == |lens + run| {
          assert r.value.0 == r.value.0[..|lens + run|] == lens + run;
        }
    }
  }

  /** Lengths already there only shift the run that follows them. */
  lemma {:induction false} RunAfter(t: Table, bits: seq<bool>, before: seq<nat>, m: nat, lens: seq<nat>, prev: nat)
    requires Usable(t)
    ensures match RunLengths(t, bits, m, lens, prev)
            case None => RunLengths(t, bits, |before| + m, before + lens, prev) == None
            case Some((l, r)) => RunLengths(t, bits, |before| + m, before + lens, prev) == Some((before + l, r))
    decreases |bits|
  {
    StepSuffix(t, bits, prev);
    hide LengthStep, Usable;
    if |lens| < m {
      match LengthStep(t, bits, prev)
      case None =>
      case Some((run, rest)) =>
        RunAfter(t, rest, before, m, lens + run, run[|run| - 1]);
        assert before + (lens + run) == before + lens + run;
    }
  }

  /** A run that begins with a step not repeating the previous length does not depend on it. */
  lemma RunIgnoresPrevious(t: Table, bits: seq<bool>, n: nat, p: nat, q: nat)
    requires Usable(t) && (n == 0 || !Repeats(t, bits) || p == q)
    ensures RunLengths(t, bits, n, [], p) == RunLengths(t, bits, n, [], q)
  {
    StepIgnoresPrevious(t, bits, p, q);
    hide LengthStep, Usable, Repeats;
  }

  /** A run that begins by repeating the previous length begins with that length. */
  lemma RunStartsWithPrevious(t: Table, bits: seq<bool>, n: nat, p: nat)
    requires Usable(t) && n >= 1 && Repeats(t, bits)
    ensures match RunLengths(t, bits, n, [], p)
            case None => true
            case Some((l, r)) => |l| >= 1 && l[0] == p
  {
    StepIgnoresPrevious(t, bits, p, p);
    StepSuffix(t, bits, p);
    hide LengthStep, Usable, Repeats;
    match LengthStep(t, bits, p)
    case None =>
    case Some((run, rest)) =>
      assert [] + run == run;
      RunKeepsPrefix(t, rest, n, run, run[|run| - 1]);
  }

  lemma {:induction false} RunKeepsPrefix(t: Table, bits: seq<bool>, n: nat, lens: seq<nat>, prev: nat)
    requires Usable(t)
    ensures match RunLengths(t, bits, n, lens, prev)
            case None => true
            case Some((l, r)) => |l| >= |lens| && |l| >= n && l[..|lens|] == lens && IsSuffix(r, bits)
    decreases |bits|
  {
    StepSuffix(t, bits, prev);
    hide LengthStep, Usable;
    if |lens| < n {
      match LengthStep(t, bits, prev)
      case None =>
      case Some((run, rest)) =>
        RunKeepsPrefix(t, rest, n, lens + run, run[|run| - 1]);
        match RunLengths(t, rest, n, lens + run, run[|run| - 1])
        case None =>
        case Some((l, r)) =>
          assert l[..|lens + run|][..|lens|] == l[..|lens|];
    }
  }

  /** From the same bits, a run that still needs more lengths than another, which ends exactly,
      reads further than that one. */
  lemma {:induction false} NeedingMoreReadsMore(t: Table, bits: seq<bool>, n1: nat, a: seq<nat>, p1: nat, n2: nat, b: seq<nat>, p2: nat)
    requires Usable(t) && |a| <= n1 && n2 - |b| > n1 - |a|
    requires RunLengths(t, bits, n1, a, p1).Some? && |RunLengths(t, bits, n1, a, p1).value.0| == n1
    ensures match RunLengths(t, bits, n2, b, p2)
            case None => true
            case Some((l, r)) => |r| < |RunLengths(t, bits, n1, a, p1).value.1|
    decreases |bits|
  {
    StepIgnoresPrevious(t, bits, p1, p2);
    StepSuffix(t, bits, p1);
    StepSuffix(t, bits, p2);
    hide LengthStep, Usable, Repeats;
    match LengthStep(t, bits, p2)
    case None =>
    case Some((run2, rest)) =>
      if |a| == n1 {
        RunKeepsPrefix(t, rest, n2, b + run2, run2[|run2| - 1]);
      } else {
        var run1 := LengthStep(t, bits, p1).value.0;
        RunKeepsPrefix(t, rest, n1, a + run1, run1[|run1| - 1]);
        NeedingMoreReadsMore(t, rest, n1, a + run1, run1[|run1| - 1], n2, b + run2, run2[|run2| - 1]);
      }
  }

  /** If the standard's single sequence exists, so does the first run, and its end is reached on the way. */
  lemma FirstRunExists(t: Table, bits: seq<bool>, nlit: nat, ndist: nat)
    requires Usable(t) && nlit >= 1
    requires OneRun(t, bits, nlit, ndist).Some?
    ensures RunLengths(t, bits, nlit, [], 0).Some?
    ensures var (lit, r) := RunLengths(t, bits, nlit, [], 0).value;
            |lit| >= nlit && OneRun(t, bits, nlit, ndist) == RunLengths(t, r, nlit + ndist, lit, lit[|lit| - 1])
  {
    hide Usable;
    RunInParts(t, bits, nlit, ndist, [], 0);
    RunKeepsPrefix(t, bits, nlit, [], 0);
  }

  /** A run that crosses from the literal to the distance lengths leaves the program's reader at
      another place than the standard's sequence, if it succeeds at all. */
  lemma CrossingRunMisplacesReader(t: Table, bits: seq<bool>, nlit: nat, ndist: nat)
    requires Usable(t) && nlit >= 1 && ndist >= 1
    requires OneRun(t, bits, nlit, ndist).Some? && |OneRun(t, bits, nlit, ndist).value.0| == nlit + ndist
    requires RunLengths(t, bits, nlit, [], 0).Some? && |RunLengths(t, bits, nlit, [], 0).value.0| > nlit
    ensures TwoRuns(t, bits, nlit, ndist).None?
         || |TwoRuns(t, bits, nlit, ndist).value.2| < |OneRun(t, bits, nlit, ndist).value.1|
  {
    hide Usable, RunLengths;
    FirstRunExists(t, bits, nlit, ndist);
    var (lit, r) := RunLengths(t, bits, nlit, [], 0).value;
    RunKeepsPrefix(t, r, nlit + ndist, lit, lit[|lit| - 1]);
    NeedingMoreReadsMore(t, r, nlit + ndist, lit, lit[|lit| - 1], ndist, [], 0);
  }

  /** The program agrees with the standard on a header if and only if no run crosses the boundary
      and the distance lengths do not open by repeating a literal length other than zero. */
  lemma TwoRunsAgreeIff(t: Table, bits: seq<bool>, nlit: nat, ndist: nat)
    requires Usable(t) && nlit >= 1 && ndist >= 1
    requires OneRun(t, bits, nlit, ndist).Some? && |OneRun(t, bits, nlit, ndist).value.0| == nlit + ndist
    ensures RunLengths(t, bits, nlit, [], 0).Some?
    ensures var (lens, rest) := OneRun(t, bits, nlit, ndist).value;
            var (lit, r) := RunLengths(t, bits, nlit, [], 0).value;
            |lit| >= nlit
            && (TwoRuns(t, bits, nlit, ndist) == Some((lens[..nlit], lens[nlit..], rest))
                <==> |lit| == nlit && (!Repeats(t, r) || lit[nlit - 1] == 0))
  {
    hide Usable, RunLengths, Repeats;
    FirstRunExists(t, bits, nlit, ndist);
    var (lens, rest) := OneRun(t, bits, nlit, ndist).value;
    var (lit, r) := RunLengths(t, bits, nlit, [], 0).value;
    if |lit| == nlit {
      var p := lit[nlit - 1];
      assert lit + [] == lit;
      RunAfter(t, r, lit, ndist, [], p);
      var dist := RunLengths(t, r, ndist, [], p).value.0;
      assert lens == lit + dist && lens[..nlit] == lit && lens[nlit..] == dist;
      if !Repeats(t, r) || p == 0 {
        RunIgnoresPrevious(t, r, ndist, p, 0);
      } else {
        RunStartsWithPrevious(t, r, ndist, p);
        RunStartsWithPrevious(t, r, ndist, 0);
      }
    }
  }

  // ----- After a failed read of a code length

  /** From two bits no more than two lengths can be read. */
  lemma {:induction false} NoRunFromTwoBits(t: Table, bits: seq<bool>, n: nat, lens: seq<nat>, prev: nat)
    requires Usable(t) && |bits| <= 2 && |lens| + |bits| < n
    ensures RunLengths(t, bits, n, lens, prev) == None
    decreases |bits|
  {
    OneLengthAtATime(t, bits, prev);
    StepSuffix(t, bits, prev);
    hide LengthStep, Usable;
    match LengthStep(t, bits, prev)
    case None =>
    case Some((run, rest)) => NoRunFromTwoBits(t, rest, n, lens + run, run[|run| - 1]);
  }

  lemma OneLengthAtATime(t: Table, bits: seq<bool>, prev: nat)
    requires Usable(t) && |bits| <= 2
    ensures LengthStep(t, bits, prev).Some? ==> |LengthStep(t, bits, prev).value.0| == 1
  {
    SymbolConsumes(t, bits);
    hide DecodeSymbol, Usable, LsbVal;
  }

  /** The program reads the code length code lengths without checking that the input goes on. When one
      of them cannot be read, fewer than three bits are left, and whatever table came of the others, the
      257 or more literal lengths that it goes on to decode cannot be: the run fails all the same. */
  lemma MissingCodeLengthFails(bits: seq<bool>, cl: seq<nat>, nlit: nat)
    requires ReadBits(bits, 3) == None && nlit >= 257
    ensures Usable(TableOf(cl)) && RunLengths(TableOf(cl), bits, nlit, [], 0) == None
  {
    TableOfUsable(cl);
    hide TableOf, Usable;
    NoRunFromTwoBits(TableOf(cl), bits, nlit, [], 0);
  }
}
