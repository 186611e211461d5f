/** darkbox.c, read_string: the terminator is stored at index max_length, one cell beyond the arrays
    that are passed to it, for exactly those inputs that hold no shorter string. */
module DarkboxOverrun {
  import opened Bits
  import opened Darkbox
  import opened DarkboxRoundTrip

  /** The terminator goes to index max, just beyond an array of max cells (see Console.ReadString). */
  predicate Overruns(s: seq<byte>, max: nat) { |StringOf(s, max).0| == max }

  // ----- Strings as they are written

  /** A character of a string, written as it is or after a backslash. */
  datatype Mark = Plain(c: byte) | Quoted(c: byte)

  function Spell(w: seq<Mark>): seq<byte> {
    if w == [] then []
    else (match w[0] case Plain(c) => [c] case Quoted(c) => [92, c]) + Spell(w[1..])
  }

  function Meant(w: seq<Mark>): (t: seq<byte>)
    ensures |t| == |w|
  {
    seq(|w|, i requires 0 <= i < |w| => w[i].c)
  }

  predicate SpelledRight(w: seq<Mark>, quote: bool) {
    forall i :: 0 <= i < |w| && w[i].Plain? ==> w[i].c != BACKSLASH && !Ends(w[i].c, quote)
  }

  /** s is white space, perhaps a quote, the characters w, a character that ends them, and the rest. A string
      in quotes ends at a quote or a zero, any other at a blank, a tab, a line end or a zero. */
  predicate IsString(s: seq<byte>, lead: seq<byte>, quote: bool, w: seq<Mark>, e: byte, rest: seq<byte>) {
    && s == lead + ((if quote then [34] else []) + (Spell(w) + ([e] + rest)))
    && (forall i :: 0 <= i < |lead| ==> lead[i] in {9, 10, 11, 12, 13, 32})
    && (forall i :: 0 <= i < |w| && w[i].Plain? ==> w[i].c !in if quote then {0, 34, 92} else {0, 9, 10, 13, 32, 92})
    && (e in if quote then {0, 34} else {0, 9, 10, 13, 32})
    && (!quote ==> (Spell(w) + ([e] + rest))[0] !in {9, 10, 11, 12, 13, 32, 34})
  }

  /** The same in the terms of the program. */
  lemma IsStringIff(s: seq<byte>, lead: seq<byte>, quote: bool, w: seq<Mark>, e: byte, rest: seq<byte>)
    ensures IsString(s, lead, quote, w, e, rest) <==>
              && s == lead + ((if quote then [QUOTE] else []) + (Spell(w) + ([e] + rest)))
              && (forall i :: 0 <= i < |lead| ==> IsSpace(lead[i]))
              && SpelledRight(w, quote) && Ends(e, quote)
              && (!quote ==> var c := (Spell(w) + ([e] + rest))[0]; !IsSpace(c) && c != QUOTE)
  {
    hide Spell;
  }

  // ----- What is read of such a string

  lemma SpellOne(w: seq<Mark>, tail: seq<byte>)
    requires w != []
    ensures Spell(w) + tail == if w[0].Plain? then [w[0].c] + (Spell(w[1..]) + tail)
                               else [BACKSLASH] + ([w[0].c] + (Spell(w[1..]) + tail))
    ensures Meant(w) == [w[0].c] + Meant(w[1..])
  {
    hide Spell, Meant;
    SpellFirst(w);
    MeantFirst(w);
    if w[0].Plain? {
      Regroup([w[0].c], Spell(w[1..]), tail);
    } else {
      assert [BACKSLASH, w[0].c] == [BACKSLASH] + [w[0].c];
      Regroup([BACKSLASH, w[0].c], Spell(w[1..]), tail);
      Regroup([BACKSLASH], [w[0].c], Spell(w[1..]) + tail);
    }
  }

  lemma SpellFirst(w: seq<Mark>)
    requires w != []
    ensures Spell(w) == (if w[0].Plain? then [w[0].c] else [BACKSLASH, w[0].c]) + Spell(w[1..])
  {
  }

  lemma MeantFirst(w: seq<Mark>)
    requires w != []
    ensures Meant(w) == [w[0].c] + Meant(w[1..])
  {
  }

  lemma NextOf(c: byte, s: seq<byte>)
    ensures Next([c] + s) == (c, s)
  {
  }

  /** At most room of the characters are stored; a string of at most room characters is read to its end. */
  lemma {:induction false} ScanReads(w: seq<Mark>, e: byte, rest: seq<byte>, quote: bool, room: nat)
    requires SpelledRight(w, quote) && Ends(e, quote)
    ensures var (c, s) := Next(Spell(w) + ([e] + rest));
            && Scan(c, s, quote, room).0 == Meant(w)[..Min(room, |w|)]
            && (|w| <= room ==> Scan(c, s, quote, room).1 == rest)
    decreases |w|
  {
    hide Ends, Next, Spell, Meant;
    var tail := [e] + rest;
    if w == [] {
      assert Spell(w) + tail == tail by { SpellNothing(w); }
      NextOf(e, rest);
      assert Meant(w)[..0] == [];
    } else {
      SpellOne(w, tail);
      var m, more := w[0], Spell(w[1..]) + tail;
      NextOf(m.c, more);
      if m.Quoted? { NextOf(BACKSLASH, [m.c] + more); }
      if room == 0 {
        assert Meant(w)[..0] == [];
      } else {
        ScanReads(w[1..], e, rest, quote, room - 1);
        BackslashIsNoEnd(quote);
        assert Meant(w)[..Min(room, |w|)] == [m.c] + Meant(w[1..])[..Min(room - 1, |w| - 1)];
      }
    }
  }

  lemma SpellNothing(w: seq<Mark>)
    requires w == []
    ensures Spell(w) == []
  {
  }

  lemma BackslashIsNoEnd(quote: bool)
    ensures !Ends(BACKSLASH, quote)
  {
  }

  lemma {:induction false} SkipLeading(lead: seq<byte>, c: byte, s: seq<byte>)
    requires !IsSpace(c) && forall i :: 0 <= i < |lead| ==> IsSpace(lead[i])
    ensures SkipSpaces(lead + ([c] + s)) == (c, s)
    decreases |lead|
  {
    if lead == [] {
      assert lead + ([c] + s) == [c] + s;
    } else {
      SkipLeading(lead[1..], c, s);
      assert (lead + ([c] + s))[1..] == lead[1..] + ([c] + s);
    }
  }

  lemma StringReads(s: seq<byte>, lead: seq<byte>, quote: bool, w: seq<Mark>, e: byte, rest: seq<byte>, max: nat)
    requires IsString(s, lead, quote, w, e, rest)
    ensures StringOf(s, max).0 == Meant(w)[..Min(max, |w|)]
    ensures |w| <= max ==> StringOf(s, max).1 == rest
  {
    hide Scan, SkipSpaces, Spell, Meant, Ends, SpelledRight, IsString;
    IsStringIff(s, lead, quote, w, e, rest);
    ScanReads(w, e, rest, quote, max);
    var u := Spell(w) + ([e] + rest);
    if quote {
      SkipLeading(lead, QUOTE, u);
    } else {
      assert [] + u == u && u == [u[0]] + u[1..];
      SkipLeading(lead, u[0], u[1..]);
    }
  }

  // ----- And the other way round

  /** If fewer than room characters are stored, the input holds a whole string of so many. */
  lemma {:induction false} ScanEnds(u: seq<byte>, quote: bool, room: nat) returns (w: seq<Mark>, e: byte, rest: seq<byte>)
    requires var (c, s) := Next(u); |Scan(c, s, quote, room).0| < room
    ensures u == Spell(w) + ([e] + rest) && SpelledRight(w, quote) && Ends(e, quote) && |w| < room
    decreases room
  {
    if u == [] {
      ScanAtEnd(quote, room);
      assert false;
    } else if Ends(u[0], quote) {
      w, e, rest := [], u[0], u[1..];
    } else if u[0] != BACKSLASH {
      w, e, rest := ScanEnds(u[1..], quote, room - 1);
      w := PrependMark(Plain(u[0]), w, e, rest, quote);
    } else if u[1..] == [] {
      ScanAtEnd(quote, room - 1);
      assert false;
    } else {
      w, e, rest := ScanEnds(u[1..][1..], quote, room - 1);
      w := PrependMark(Quoted(u[1]), w, e, rest, quote);
    }
  }

  lemma PrependMark(m: Mark, w: seq<Mark>, e: byte, rest: seq<byte>, quote: bool) returns (longer: seq<Mark>)
    requires SpelledRight(w, quote) && (m.Plain? ==> m.c != BACKSLASH && !Ends(m.c, quote))
    ensures longer == [m] + w && SpelledRight(longer, quote)
    ensures Spell(longer) + ([e] + rest) == if m.Plain? then [m.c] + (Spell(w) + ([e] + rest))
                                            else [BACKSLASH] + ([m.c] + (Spell(w) + ([e] + rest)))
  {
    longer := [m] + w;
    SpellOne(longer, [e] + rest);
    assert longer[1..] == w;
  }

  lemma {:induction false} LeadOf(s: seq<byte>) returns (lead: seq<byte>, u: seq<byte>)
    ensures s == lead + u && forall i :: 0 <= i < |lead| ==> IsSpace(lead[i])
    ensures SkipSpaces(s) == Next(u) && (u != [] ==> !IsSpace(u[0]))
    decreases |s|
  {
    if s == [] || !IsSpace(s[0]) {
      lead, u := [], s;
    } else {
      lead, u := LeadOf(s[1..]);
      lead := [s[0]] + lead;
    }
  }

  lemma StringEnds(s: seq<byte>, max: nat) returns (lead: seq<byte>, quote: bool, w: seq<Mark>, e: byte, rest: seq<byte>)
    requires |StringOf(s, max).0| < max
    ensures IsString(s, lead, quote, w, e, rest) && |w| < max
  {
    hide Scan, SkipSpaces, Ends, Spell, SpelledRight, IsString, IsSpace;
    var u;
    lead, u := LeadOf(s);
    if u == [] {
      ScanAtEnd(false, max);
      assert false;
    } else if u[0] == QUOTE {
      quote := true;
      w, e, rest := ScanEnds(u[1..], true, max);
      assert u == [QUOTE] + u[1..];
      IsStringIff(s, lead, quote, w, e, rest);
    } else {
      quote := false;
      w, e, rest := ScanEnds(u, false, max);
      assert [] + u == u;
      IsStringIff(s, lead, quote, w, e, rest);
    }
  }

  // ----- Exactly when

  /** read_string writes beyond its array if and only if the input does not begin with a string of
      fewer than max characters: the characters of a string cut off by the end of the input count as
      going on for ever. */
  lemma OverrunIff(s: seq<byte>, max: nat)
    ensures Overruns(s, max) <==> !exists lead, quote, w, e, rest :: IsString(s, lead, quote, w, e, rest) && |w| < max
  {
    hide StringOf, IsString;
    StringConsumes(s, max);
    if !Overruns(s, max) {
      var lead, quote, w, e, rest := StringEnds(s, max);
    }
    forall lead, quote, w, e, rest | IsString(s, lead, quote, w, e, rest) && |w| < max ensures !Overruns(s, max) {
      StringReads(s, lead, quote, w, e, rest, max);
    }
  }

  /** With nothing left to read, every buffer is overrun. */
  lemma OverrunAtEnd(max: nat)
    ensures Overruns([], max)
  {
    hide Scan;
    ScanAtEnd(false, max);
  }

  /** What -e writes for a command overruns the text buffer if and only if it holds a full chunk of
      1024 characters without a zero byte. */
  lemma EscapedOverrunsIff(text: seq<byte>)
    ensures Overruns([QUOTE] + EscapeFrom(text, MAX_TEXT_LENGTH), MAX_TEXT_LENGTH)
       <==> |text| >= MAX_TEXT_LENGTH && 0 !in text[..MAX_TEXT_LENGTH]
  {
    var m := MAX_TEXT_LENGTH;
    var u := EscapeFrom(text, m);
    hide Scan, EscapeFrom, Escaped, SkipSpaces;
    SkipLead([], [QUOTE] + u);
    assert [] + ([QUOTE] + u) == [QUOTE] + u && ([QUOTE] + u)[1..] == u;
    if 0 !in text {
      ScanUndoesEscape(text, m);
    } else {
      var pre, post := SplitAtZero(text);
      if |pre| < m {
        ScanStopsAtZero(pre, post, m);
        assert text[|pre|] == 0;
        assert |text| >= m ==> text[..m][|pre|] == 0;
      } else {
        ScanFullChunk(text[..m], text[m..]);
        assert text[..m] + text[m..] == text && text[..m] == pre[..m];
      }
    }
  }

  // ----- Whole runs

  /** Whether the letters of a command overrun the text buffer. */
  function LettersOverrun(letters: seq<byte>, s: seq<byte>): bool
    decreases |letters|
  {
    letters != [] &&
    var c := ToLower(letters[0]);
    if c == LETTER_D then
      Overruns(s, MAX_TEXT_LENGTH) || LettersOverrun(letters[1..], StringOf(s, MAX_TEXT_LENGTH).1)
    else c != 113 && !IsOther(c) && LettersOverrun(letters[1..], s)
  }

  function TimesOverrun(n: nat, letters: seq<byte>, s: seq<byte>): bool
    decreases n
  {
    n != 0 && (LettersOverrun(letters, s) ||
      match RunLetters(letters, s)
      case Running(_, rest) => TimesOverrun(n - 1, letters, rest)
      case _ => false)
  }

  /** Whether a run of the main loop overruns the command buffer, and whether the text buffer. */
  function MainOverruns(s: seq<byte>): (bool, bool)
    decreases |s|
  {
    ParseConsumes(s);
    var here := Overruns(s, MAX_COMMAND_SIZE);
    match Parse(s)
    case AtEnd(_) => (here, false)
    case NotACommand(_, rest) => var (c, t) := MainOverruns(rest); (here || c, t)
    case Rejected(_, rest) => var (c, t) := MainOverruns(rest); (here || c, t)
    case Command(count, letters, rest) =>
      TimesConsume(count, letters, rest);
      var text := TimesOverrun(count, letters, rest);
      match RunTimes(count, letters, rest)
      case Running(_, rest') => var (c, t) := MainOverruns(rest'); (here || c, text || t)
      case _ => (here, text)
  }

  /** One -d command of the escaper. */
  lemma DisplayOverruns(lead: seq<byte>, more: seq<byte>, shown: seq<byte>, rest: seq<byte>)
    requires lead == [] || lead == [SPACE]
    requires var (d, s) := Next(more); Scan(d, s, true, MAX_TEXT_LENGTH) == (shown, rest)
    requires 0 !in shown
    ensures var (c, t) := MainOverruns(rest);
            MainOverruns(lead + (OPENING + more)).0 == c && MainOverruns(lead + (OPENING + more)).1 == (|shown| == MAX_TEXT_LENGTH || t)
  {
    var s := lead + (OPENING + more);
    hide Parse, Scan, CString, MainOverruns, RunTimes;
    ParseOpening(lead, more);
    OpeningFits(lead, more);
    var q := [QUOTE] + more;
    SkipLead([], q);
    assert [] + q == q && q[1..] == more;
    assert StringOf(q, MAX_TEXT_LENGTH) == (shown, rest);
    CStringOfNonZero(shown);
    DisplayOnce(q, shown, rest);
    OneDisplay(q, shown, rest);
    OneCommand(s, q, shown, rest);
  }

  lemma OneDisplay(q: seq<byte>, shown: seq<byte>, rest: seq<byte>)
    requires StringOf(q, MAX_TEXT_LENGTH) == (shown, rest) && CString(shown) == shown
    ensures TimesOverrun(1, [LETTER_D], q) == (|shown| == MAX_TEXT_LENGTH)
  {
    hide StringOf, CString;
    assert [LETTER_D][1..] == [];
    assert !LettersOverrun([], rest);
    assert RunLetters([], rest) == Running([], rest);
    assert LettersOverrun([LETTER_D], q) == (|shown| == MAX_TEXT_LENGTH);
    assert forall r :: !TimesOverrun(0, [LETTER_D], r);
  }

  lemma OneCommand(s: seq<byte>, q: seq<byte>, shown: seq<byte>, rest: seq<byte>)
    requires Parse(s) == Command(1, [LETTER_D], q) && RunTimes(1, [LETTER_D], q) == Running(shown, rest)
    requires !Overruns(s, MAX_COMMAND_SIZE)
    ensures MainOverruns(s) == (MainOverruns(rest).0, TimesOverrun(1, [LETTER_D], q) || MainOverruns(rest).1)
  {
    hide Parse, RunTimes, Overruns, TimesOverrun;
    ParseConsumes(s);
    TimesConsume(1, [LETTER_D], q);
  }

  /** The command word of the escaper fits. */
  lemma OpeningFits(lead: seq<byte>, more: seq<byte>)
    requires lead == [] || lead == [SPACE]
    ensures !Overruns(lead + (OPENING + more), MAX_COMMAND_SIZE)
  {
    var w := [Plain(DASH), Plain(LETTER_D)];
    assert w[1..] == [Plain(LETTER_D)] && w[1..][1..] == [];
    assert Spell(w[1..]) == [LETTER_D] + Spell([]) == [LETTER_D];
    assert Spell(w) == [DASH] + Spell(w[1..]) == [DASH, LETTER_D];
    var rest := [QUOTE] + more;
    assert OPENING + more == [] + (Spell(w) + ([SPACE] + rest));
    assert IsString(lead + (OPENING + more), lead, false, w, SPACE, rest);
    hide IsString, StringOf;
    StringReads(lead + (OPENING + more), lead, false, w, SPACE, rest, MAX_COMMAND_SIZE);
  }

  lemma EndOverruns()
    ensures MainOverruns([]) == (true, false)
  {
    hide Parse, Overruns;
    ParseAtEnd();
    OverrunAtEnd(MAX_COMMAND_SIZE);
  }

  /** Displaying an escaped text always overruns the command buffer, at the end of the input, and
      overruns the text buffer if and only if the text has at least 1024 characters. */
  lemma {:induction false} DisplayedOverruns(text: seq<byte>, lead: seq<byte>)
    requires 0 !in text && (lead == [] || lead == [SPACE])
    ensures MainOverruns(lead + Escaped(text)) == (true, |text| >= MAX_TEXT_LENGTH)
    decreases |text|
  {
    hide MainOverruns, Scan, EscapeFrom;
    var m := MAX_TEXT_LENGTH;
    ScanUndoesEscape(text, m);
    DisplayOverruns(lead, EscapeFrom(text, m), text[..Min(m, |text|)], After(text, m));
    if |text| >= m {
      DisplayedOverruns(text[m..], [SPACE]);
    } else {
      EndOverruns();
    }
  }
}
