/** darkbox.c: the output server displays exactly the text that -e escaped, and this holds
    exactly for texts without a zero byte. */
module DarkboxRoundTrip {
  import opened Bits
  import opened Darkbox

  /** What is left after the text of a command has been read: nothing, or the next command. */
  function After(text: seq<byte>, room: nat): seq<byte> {
    if |text| >= room then [SPACE] + Escaped(text[room..]) else []
  }

  /** read_string undoes the escaping of one command and stops just after its closing quote. */
  lemma {:induction false} ScanUndoesEscape(text: seq<byte>, room: nat)
    requires 0 !in text
    ensures var (d, s) := Next(EscapeFrom(text, room));
            Scan(d, s, true, room) == (text[..Min(room, |text|)], After(text, room))
    decreases |text|
  {
    hide Scan, Escaped;
    if room == 0 || text == [] {
      ScanAtQuote(text, room);
    } else {
      ScanUndoesEscape(text[1..], room - 1);
      ScanOne(text[0], EscapeFrom(text[1..], room - 1), room);
      assert text[..Min(room, |text|)] == [text[0]] + text[1..][..Min(room - 1, |text| - 1)];
      assert |text| >= room ==> text[1..][room - 1..] == text[room..];
    }
  }

  lemma ScanAtQuote(text: seq<byte>, room: nat)
    requires room == 0 || text == []
    ensures var (d, s) := Next(EscapeFrom(text, room));
            Scan(d, s, true, room) == ([], After(text, room))
  {
    if room == 0 {
      assert ([QUOTE, SPACE] + Escaped(text))[1..] == [SPACE] + Escaped(text);
      assert text[0..] == text;
    } else {
      assert [QUOTE][1..] == [];
    }
  }

  /** One escaped character is read as itself. */
  lemma ScanOne(c: byte, more: seq<byte>, room: nat)
    requires c != 0 && room >= 1
    ensures var (d, s) := Next(EscapeChar(c) + more);
            var (e, s') := Next(more);
            Scan(d, s, true, room) == ([c] + Scan(e, s', true, room - 1).0, Scan(e, s', true, room - 1).1)
  {
    if c == BACKSLASH || c == QUOTE {
      assert (EscapeChar(c) + more)[1..] == [c] + more && ([c] + more)[1..] == more;
    } else {
      assert (EscapeChar(c) + more)[1..] == more;
    }
  }

  /** A zero byte ends the text early: what was escaped after it is left to be read as commands. */
  lemma {:induction false} ScanStopsAtZero(pre: seq<byte>, post: seq<byte>, room: nat)
    requires 0 !in pre && |pre| < room
    ensures var (d, s) := Next(EscapeFrom(pre + [0] + post, room));
            Scan(d, s, true, room) == (pre, EscapeFrom(post, room - |pre| - 1))
    decreases |pre|
  {
    var text := pre + [0] + post;
    if pre == [] {
      assert text[1..] == post;
      assert ([0] + EscapeFrom(post, room - 1))[1..] == EscapeFrom(post, room - 1);
    } else {
      assert text[1..] == pre[1..] + [0] + post;
      ScanStopsAtZero(pre[1..], post, room - 1);
      ScanOne(pre[0], EscapeFrom(text[1..], room - 1), room);
      hide EscapeFrom;
      assert pre == [pre[0]] + pre[1..];
    }
  }

  // ----- One command

  /** The command word of -d is read, whether or not a space precedes it. */
  lemma ParseOpening(lead: seq<byte>, more: seq<byte>)
    requires lead == [] || lead == [SPACE]
    ensures Parse(lead + (OPENING + more)) == Command(1, [LETTER_D], [QUOTE] + more)
  {
    var s := OPENING + more;
    SkipLead(lead, s);
    var r1, r2, r3 := s[1..], s[2..], s[3..];
    assert r1[0] == LETTER_D && r1[1..] == r2;
    assert r2[0] == SPACE && r2[1..] == r3;
    assert r3 == [QUOTE] + more;
    assert Scan(SPACE, r3, false, 126) == ([], r3);
    assert [LETTER_D] + [] == [LETTER_D];
    assert Scan(LETTER_D, r2, false, 127) == ([LETTER_D] + [], r3);
    assert [DASH] + [LETTER_D] == [DASH, LETTER_D];
    assert Scan(DASH, r1, false, 128) == ([DASH] + [LETTER_D], r3);
    hide Scan, SkipSpaces, RunLetters;
    assert StringOf(lead + s, MAX_COMMAND_SIZE) == ([DASH, LETTER_D], r3);
    assert CString([DASH, LETTER_D][1..]) == [LETTER_D] + CString([LETTER_D][1..]);
    assert CString([DASH, LETTER_D]) == [DASH, LETTER_D];
    assert [DASH, LETTER_D][1..] == [LETTER_D];
  }

  lemma SkipLead(lead: seq<byte>, s: seq<byte>)
    requires (lead == [] || lead == [SPACE]) && s != [] && !IsSpace(s[0])
    ensures SkipSpaces(lead + s) == (s[0], s[1..])
  {
    if lead == [] {
      assert lead + s == s;
    } else {
      assert (lead + s)[1..] == s;
    }
  }

  /** One -d command displays the text that is read after it. */
  lemma RunDisplay(lead: seq<byte>, more: seq<byte>, shown: seq<byte>, rest: seq<byte>)
    requires lead == [] || lead == [SPACE]
    requires var (d, s) := Next(more); Scan(d, s, true, MAX_TEXT_LENGTH) == (shown, rest)
    requires 0 !in shown
    ensures RunMain(lead + (OPENING + more)) == Prepend(shown, RunMain(rest))
  {
    hide Parse, Scan, CString, RunMain;
    var s := [QUOTE] + more;
    ParseOpening(lead, more);
    assert lead + (OPENING + more) != [];
    SkipLead([], s);
    assert [] + s == s && s[1..] == more;
    assert StringOf(s, MAX_TEXT_LENGTH) == (shown, rest);
    CStringOfNonZero(shown);
    DisplayOnce(s, shown, rest);
    RunOne(lead + (OPENING + more), s, shown, rest);
  }

  lemma DisplayOnce(s: seq<byte>, shown: seq<byte>, rest: seq<byte>)
    requires StringOf(s, MAX_TEXT_LENGTH) == (shown, rest) && CString(shown) == shown
    ensures RunTimes(1, [LETTER_D], s) == Running(shown, rest)
  {
    hide StringOf, CString;
    assert [LETTER_D][1..] == [];
    assert RunLetters([], rest) == Running([], rest);
    assert shown + [] == shown;
    assert RunLetters([LETTER_D], s) == Running(shown, rest);
    assert RunTimes(0, [LETTER_D], rest) == Running([], rest);
  }

  lemma RunOne(s: seq<byte>, s': seq<byte>, shown: seq<byte>, rest: seq<byte>)
    requires Parse(s) == Command(1, [LETTER_D], s') && RunTimes(1, [LETTER_D], s') == Running(shown, rest)
    ensures RunMain(s) == Prepend(shown, RunMain(rest))
  {
    hide Parse, RunTimes;
    ParseConsumes(s);
    TimesConsume(1, [LETTER_D], s');
  }

  // ----- Whole texts

  lemma RunAtEnd()
    ensures RunMain([]) == Exited(END_MARK)
  {
    hide Parse, END_MARK;
    ParseAtEnd();
  }

  /** For every text of non-zero bytes, of any length, feeding the output of -e to the output
      server displays exactly that text; then the input is used up and the program ends. */
  lemma {:induction false} DisplayUndoesEscape(text: seq<byte>, lead: seq<byte>)
    requires 0 !in text && (lead == [] || lead == [SPACE])
    ensures RunMain(lead + Escaped(text)) == Exited(text + END_MARK)
    decreases |text|
  {
    hide RunMain, Scan, EscapeFrom, END_MARK;
    var shown := text[..Min(MAX_TEXT_LENGTH, |text|)];
    ScanUndoesEscape(text, MAX_TEXT_LENGTH);
    RunDisplay(lead, EscapeFrom(text, MAX_TEXT_LENGTH), shown, After(text, MAX_TEXT_LENGTH));
    if |text| >= MAX_TEXT_LENGTH {
      DisplayUndoesEscape(text[MAX_TEXT_LENGTH..], [SPACE]);
      assert shown + (text[MAX_TEXT_LENGTH..] + END_MARK) == text + END_MARK;
    } else {
      RunAtEnd();
      assert shown == text;
    }
  }

  // ----- Exactly these texts

  /** After k characters of text, how many more fit into the current command. */
  function RoomAfter(k: nat): nat { MAX_TEXT_LENGTH - k % MAX_TEXT_LENGTH }

  /** With a zero byte, the text before it is displayed and everything escaped after it, up to the
      end of its command, is run as commands. */
  lemma {:induction false} ZeroByteEndsText(pre: seq<byte>, post: seq<byte>, lead: seq<byte>)
    requires 0 !in pre && (lead == [] || lead == [SPACE])
    ensures RunMain(lead + Escaped(pre + [0] + post))
         == Prepend(pre, RunMain(EscapeFrom(post, RoomAfter(|pre|) - 1)))
    decreases |pre|
  {
    hide RunMain, Scan, EscapeFrom;
    var text, m := pre + [0] + post, MAX_TEXT_LENGTH;
    if |pre| < m {
      ScanStopsAtZero(pre, post, m);
      RunDisplay(lead, EscapeFrom(text, m), pre, EscapeFrom(post, m - |pre| - 1));
    } else {
      var first, pre' := pre[..m], pre[m..];
      ScanFullChunk(first, pre' + [0] + post);
      assert text == first + (pre' + [0] + post);
      RunDisplay(lead, EscapeFrom(text, m), first, [SPACE] + Escaped(pre' + [0] + post));
      ZeroByteEndsText(pre', post, [SPACE]);
      PrependTwice(first, pre', RunMain(EscapeFrom(post, RoomAfter(|pre'|) - 1)));
      assert first + pre' == pre && RoomAfter(|pre'|) == RoomAfter(|pre|);
    }
  }

  lemma {:induction false} ScanFull(first: seq<byte>, more: seq<byte>)
    requires 0 !in first
    ensures var (d, s) := Next(EscapeFrom(first + more, |first|));
            Scan(d, s, true, |first|) == (first, [SPACE] + Escaped(more))
    decreases |first|
  {
    if first == [] {
      assert first + more == more;
      assert ([QUOTE, SPACE] + Escaped(more))[1..] == [SPACE] + Escaped(more);
    } else {
      assert (first + more)[1..] == first[1..] + more;
      ScanFull(first[1..], more);
      ScanOne(first[0], EscapeFrom(first[1..] + more, |first| - 1), |first|);
      hide EscapeFrom, Escaped;
      assert first == [first[0]] + first[1..];
    }
  }

  lemma ScanFullChunk(first: seq<byte>, more: seq<byte>)
    requires 0 !in first && |first| == MAX_TEXT_LENGTH
    ensures var (d, s) := Next(EscapeFrom(first + more, MAX_TEXT_LENGTH));
            Scan(d, s, true, MAX_TEXT_LENGTH) == (first, [SPACE] + Escaped(more))
  {
    hide EscapeFrom, Scan, Escaped;
    ScanFull(first, more);
  }

  /** The first byte that is displayed is never zero. */
  ghost predicate StartsNonZero(out: seq<byte>) { out != [] ==> out[0] != 0 }

  lemma CStringNonZero(s: seq<byte>)
    ensures StartsNonZero(CString(s))
  {
  }

  lemma {:induction false} EchoKeepsStart(s: seq<byte>, out: seq<byte>)
    requires out != [] && out[0] != 0
    ensures match EchoLine(s, out)
            case AtEnd(o) => StartsNonZero(o)
            case NotACommand(o, _) => StartsNonZero(o)
            case _ => true
    decreases |s|
  {
    if s != [] { EchoKeepsStart(s[1..], out + [s[0]]); }
  }

  lemma ParseStartsNonZero(s: seq<byte>)
    ensures match Parse(s)
            case AtEnd(o) => StartsNonZero(o)
            case NotACommand(o, _) => StartsNonZero(o)
            case _ => true
  {
    hide StringOf, CString, EchoLine;
    var (t, rest) := StringOf(s, MAX_COMMAND_SIZE);
    CStringNonZero(t);
    EchoKeepsStart(rest, CString(t) + [SPACE]);
  }

  lemma {:induction false} LettersStartNonZero(letters: seq<byte>, s: seq<byte>)
    ensures StartsNonZero(RunLetters(letters, s).out)
    decreases |letters|
  {
    hide StringOf, CString;
    if letters != [] {
      CStringNonZero(StringOf(s, MAX_TEXT_LENGTH).0);
      LettersStartNonZero(letters[1..], StringOf(s, MAX_TEXT_LENGTH).1);
      LettersStartNonZero(letters[1..], s);
    }
  }

  lemma {:induction false} TimesStartNonZero(n: nat, letters: seq<byte>, s: seq<byte>)
    ensures StartsNonZero(RunTimes(n, letters, s).out)
    decreases n
  {
    hide RunLetters;
    if n != 0 {
      LettersStartNonZero(letters, s);
      match RunLetters(letters, s)
      case Running(o, rest) => TimesStartNonZero(n - 1, letters, rest);
      case _ =>
    }
  }

  lemma {:induction false} MainStartsNonZero(s: seq<byte>)
    ensures StartsNonZero(RunMain(s).out)
    decreases |s|
  {
    hide Parse, RunTimes;
    ParseConsumes(s);
    ParseStartsNonZero(s);
    match Parse(s)
    case AtEnd(_) =>
    case NotACommand(_, rest) => MainStartsNonZero(rest);
    case Rejected(_, rest) => MainStartsNonZero(rest);
    case Command(count, letters, rest) =>
      TimesConsume(count, letters, rest);
      TimesStartNonZero(count, letters, rest);
      match RunTimes(count, letters, rest)
      case Running(_, rest') => MainStartsNonZero(rest');
      case _ =>
  }

  lemma {:induction false} SplitAtZero(text: seq<byte>) returns (pre: seq<byte>, post: seq<byte>)
    requires 0 in text
    ensures text == pre + [0] + post && 0 !in pre
    decreases |text|
  {
    if text[0] == 0 {
      pre, post := [], text[1..];
    } else {
      pre, post := SplitAtZero(text[1..]);
      pre := [text[0]] + pre;
    }
  }

  lemma DifferAtZero(pre: seq<byte>, out: seq<byte>, post: seq<byte>)
    requires StartsNonZero(out)
    ensures pre + out != pre + [0] + post
  {
    assert out != [] ==> (pre + out)[|pre|] == out[0];
    assert (pre + [0] + post)[|pre|] == 0;
  }

  /** The text is displayed as it was, up to the end-of-input mark, exactly when it has no zero byte. */
  lemma DisplayedIff(text: seq<byte>)
    ensures RunMain(Escaped(text)) == Exited(text + END_MARK) <==> 0 !in text
  {
    hide RunMain, EscapeFrom, END_MARK, Escaped;
    assert [] + Escaped(text) == Escaped(text);
    if 0 in text {
      var pre, post := SplitAtZero(text);
      ZeroByteEndsText(pre, post, []);
      var r := RunMain(EscapeFrom(post, RoomAfter(|pre|) - 1));
      MainStartsNonZero(EscapeFrom(post, RoomAfter(|pre|) - 1));
      DifferAtZero(pre, r.out, post + END_MARK);
      assert text + END_MARK == pre + [0] + (post + END_MARK);
    } else {
      DisplayUndoesEscape(text, []);
    }
  }
}
