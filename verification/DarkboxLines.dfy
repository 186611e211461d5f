/** darkbox.c in characters: where strings end, what becomes of lines that are no commands, and what the
    commands for new lines, text and the end of the program display, all in the numbers of the characters. */
module DarkboxLines {
  import opened Bits
  import opened Darkbox
  import opened DarkboxRoundTrip
  import opened DarkboxOverrun

  // ----- Where strings end

  lemma {:induction false} ScanPlain(w: seq<byte>, e: byte, rest: seq<byte>, quote: bool, room: nat)
    requires forall i :: 0 <= i < |w| ==> !Ends(w[i], quote) && w[i] != BACKSLASH
    requires Ends(e, quote)
    ensures var (c, s) := Next(w + ([e] + rest));
            Scan(c, s, quote, room) == if |w| <= room then (w, rest) else (w[..room], w[room + 1..] + ([e] + rest))
    decreases |w|
  {
    hide Ends;
    var u := w + ([e] + rest);
    if w == [] {
      assert u == [e] + rest;
    } else {
      assert u[1..] == w[1..] + ([e] + rest);
      if room == 0 {
        assert w[..0] == [];
      } else {
        ScanPlain(w[1..], e, rest, quote, room - 1);
        assert w == [w[0]] + w[1..];
        assert |w| > room ==> w[..room] == [w[0]] + w[1..][..room - 1] && w[1..][room..] == w[room + 1..];
      }
    }
  }

  /** A word, of which max characters are stored at most, ends at the first blank, tab, line end or zero,
      which is read too; no other character ends it. */
  lemma UnquotedString(lead: seq<byte>, w: seq<byte>, e: byte, rest: seq<byte>, max: nat)
    requires forall i :: 0 <= i < |lead| ==> lead[i] in {9, 10, 11, 12, 13, 32}
    requires forall i :: 0 <= i < |w| ==> w[i] !in {0, 9, 10, 13, 32, 92}
    requires w != [] && w[0] !in {11, 12, 34} && e in {0, 9, 10, 13, 32}
    ensures StringOf(lead + (w + ([e] + rest)), max)
         == if |w| <= max then (w, rest) else (w[..max], w[max + 1..] + ([e] + rest))
  {
    hide Scan, SkipSpaces;
    var u := w + ([e] + rest);
    SkipLeading(lead, u[0], u[1..]);
    assert u == [u[0]] + u[1..];
    ScanPlain(w, e, rest, false, max);
  }

  /** A string in quotes ends at the next quote or zero, and at nothing else. */
  lemma QuotedString(lead: seq<byte>, w: seq<byte>, e: byte, rest: seq<byte>, max: nat)
    requires forall i :: 0 <= i < |lead| ==> lead[i] in {9, 10, 11, 12, 13, 32}
    requires forall i :: 0 <= i < |w| ==> w[i] !in {0, 34, 92}
    requires e in {0, 34}
    ensures StringOf(lead + ([34] + (w + ([e] + rest))), max)
         == if |w| <= max then (w, rest) else (w[..max], w[max + 1..] + ([e] + rest))
  {
    hide Scan, SkipSpaces;
    SkipLeading(lead, 34, w + ([e] + rest));
    ScanPlain(w, e, rest, true, max);
  }

  /** A backslash makes the next character one of the string, whatever it is. */
  lemma EscapedCharacter(lead: seq<byte>, c: byte, e: byte, rest: seq<byte>, max: nat)
    requires forall i :: 0 <= i < |lead| ==> lead[i] in {9, 10, 11, 12, 13, 32}
    requires max >= 1
    ensures e in {0, 9, 10, 13, 32} ==> StringOf(lead + ([92] + ([c] + ([e] + rest))), max) == ([c], rest)
    ensures e in {0, 34} ==> StringOf(lead + ([34] + ([92] + ([c] + ([e] + rest)))), max) == ([c], rest)
  {
    hide SkipSpaces;
    var u := [c] + ([e] + rest);
    SkipLeading(lead, 92, u);
    SkipLeading(lead, 34, [92] + u);
    NextOf(92, u);
    NextOf(c, [e] + rest);
    NextOf(e, rest);
    assert [c] + [] == [c];
    hide Next;
    if e in {0, 9, 10, 13, 32} { assert Scan(e, rest, false, max - 1) == ([], rest); }
    if e in {0, 34} { assert Scan(e, rest, true, max - 1) == ([], rest); }
  }

  // ----- Lines that are no commands

  lemma {:induction false} EchoPlain(l: seq<byte>, more: seq<byte>, out: seq<byte>)
    requires 10 !in l
    ensures EchoLine(l + ([10] + more), out) == NotACommand(out + (l + [10]), more)
    ensures EchoLine(l, out) == AtEnd(out + (l + [255]))
    decreases |l|
  {
    if l == [] {
      assert l + ([10] + more) == [10] + more && l + [10] == [10] && l + [255] == [255];
    } else {
      assert (l + ([10] + more))[1..] == l[1..] + ([10] + more);
      EchoPlain(l[1..], more, out + [l[0]]);
      assert out + [l[0]] + (l[1..] + [10]) == out + (l + [10]);
      assert out + [l[0]] + (l[1..] + [255]) == out + (l + [255]);
    }
  }

  lemma RunEcho(s: seq<byte>, o: seq<byte>, more: seq<byte>)
    ensures Parse(s) == NotACommand(o, more) ==> RunMain(s) == Prepend(o, RunMain(more))
    ensures Parse(s) == AtEnd(o) ==> RunMain(s) == Exited(o)
    ensures (exists e :: Parse(s) == Rejected(e, more)) ==> RunMain(s) == RunMain(more)
  {
    hide Parse;
    ParseConsumes(s);
  }

  /** What is displayed of a string that is no command. */
  lemma ParseEcho(s: seq<byte>, w: seq<byte>, rest: seq<byte>)
    requires StringOf(s, 128) == (w, rest) && 0 !in w && (w == [] || w[0] !in {45, 47})
    ensures Parse(s) == if 10 in w then NotACommand(w + [32], rest) else EchoLine(rest, w + [32])
  {
    hide StringOf, EchoLine;
    CStringOfNonZero(w);
  }

  /** A line that is no command comes back as it was: a word of at most 128 characters, a separator that is
      displayed as a blank, and anything up to the end of the line or of the input. After a word alone
      on its line, the newline is that separator, and the next line is displayed behind it. */
  lemma LineComesBack(lead: seq<byte>, w: seq<byte>, e: byte, l: seq<byte>, more: seq<byte>)
    requires forall i :: 0 <= i < |lead| ==> lead[i] in {9, 10, 11, 12, 13, 32}
    requires forall i :: 0 <= i < |w| ==> w[i] !in {0, 9, 10, 13, 32, 92}
    requires 1 <= |w| <= 128 && w[0] !in {11, 12, 34, 45, 47} && e in {9, 10, 13, 32} && 10 !in l
    ensures RunMain(lead + (w + ([e] + (l + ([10] + more))))) == Prepend(w + [32] + (l + [10]), RunMain(more))
    ensures RunMain(lead + (w + ([e] + l))) == Exited(w + [32] + (l + [255]))
  {
    hide StringOf, EchoLine, Parse, RunMain;
    UnquotedString(lead, w, e, l + ([10] + more), 128);
    UnquotedString(lead, w, e, l, 128);
    var s, s' := lead + (w + ([e] + (l + ([10] + more)))), lead + (w + ([e] + l));
    ParseEcho(s, w, l + ([10] + more));
    ParseEcho(s', w, l);
    EchoPlain(l, more, w + [32]);
    RunEcho(s, w + [32] + (l + [10]), more);
    RunEcho(s', w + [32] + (l + [255]), []);
  }

  /** Of a longer word the character behind the first 128 is lost: a blank is displayed in its place. */
  lemma LongWordLosesOne(lead: seq<byte>, w: seq<byte>, e: byte, l: seq<byte>, more: seq<byte>)
    requires forall i :: 0 <= i < |lead| ==> lead[i] in {9, 10, 11, 12, 13, 32}
    requires forall i :: 0 <= i < |w| ==> w[i] !in {0, 9, 10, 13, 32, 92}
    requires |w| > 128 && w[0] !in {11, 12, 34, 45, 47} && e in {9, 13, 32} && 10 !in l
    ensures RunMain(lead + (w + ([e] + (l + ([10] + more)))))
         == Prepend(w[..128] + [32] + (w[129..] + ([e] + l) + [10]), RunMain(more))
  {
    hide StringOf, EchoLine, Parse, RunMain;
    UnquotedString(lead, w, e, l + ([10] + more), 128);
    var s, tail := lead + (w + ([e] + (l + ([10] + more)))), w[129..] + ([e] + l);
    assert w[129..] + ([e] + (l + ([10] + more))) == tail + ([10] + more);
    ParseEcho(s, w[..128], tail + ([10] + more));
    EchoPlain(tail, more, w[..128] + [32]);
    RunEcho(s, w[..128] + [32] + (tail + [10]), more);
  }

  /** A string in quotes that holds a newline is displayed without the rest of its line. */
  lemma QuotedLines(lead: seq<byte>, w: seq<byte>, l: seq<byte>, more: seq<byte>)
    requires forall i :: 0 <= i < |lead| ==> lead[i] in {9, 10, 11, 12, 13, 32}
    requires forall i :: 0 <= i < |w| ==> w[i] !in {0, 34, 92}
    requires |w| <= 128 && (w == [] || w[0] !in {45, 47}) && 10 !in l
    ensures RunMain(lead + ([34] + (w + ([34] + (l + ([10] + more))))))
         == if 10 in w then Prepend(w + [32], RunMain(l + ([10] + more))) else Prepend(w + [32] + (l + [10]), RunMain(more))
  {
    hide StringOf, EchoLine, Parse, RunMain;
    QuotedString(lead, w, 34, l + ([10] + more), 128);
    var s := lead + ([34] + (w + ([34] + (l + ([10] + more)))));
    ParseEcho(s, w, l + ([10] + more));
    EchoPlain(l, more, w + [32]);
    RunEcho(s, w + [32], l + ([10] + more));
    RunEcho(s, w + [32] + (l + [10]), more);
  }

  /** When the input is used up, 128 characters 255, a blank and one more 255 are displayed. */
  lemma EndOfInput()
    ensures match RunMain([])
            case Exited(o) => |o| == 130 && o[128] == 32 && forall i :: 0 <= i < 130 && i != 128 ==> o[i] == 255
            case _ => false
  {
    hide RunMain;
    RunAtEnd();
  }

  // ----- Command words

  /** The decimal digits of a number. */
  function Digits(n: nat): (d: seq<byte>)
    ensures d != [] && forall i :: 0 <= i < |d| ==> 48 <= d[i] <= 57
  {
    if n < 10 then [48 + n] else Digits(n / 10) + [48 + n % 10]
  }

  predicate AllDigits(d: seq<byte>) { forall i :: 0 <= i < |d| ==> 48 <= d[i] <= 57 }

  predicate AllLetters(w: seq<byte>) { forall i :: 0 <= i < |w| ==> 65 <= w[i] <= 90 || 97 <= w[i] <= 122 }

  lemma {:induction false} TakeAppend(a: seq<byte>, b: seq<byte>, n: nat)
    requires AllDigits(a)
    ensures TakeNumber(a, n).1 == [] && TakeNumber(a + b, n) == TakeNumber(b, TakeNumber(a, n).0)
  {
    if a == [] {
      assert a + b == b;
    } else {
      assert (a + b)[1..] == a[1..] + b;
      TakeAppend(a[1..], b, 10 * n + (a[0] - 48));
    }
  }

  lemma {:induction false} TakeDigits(n: nat)
    ensures TakeNumber(Digits(n), 0) == (n, [])
  {
    if n < 10 {
      OneDigit(n, 0);
    } else {
      TakeDigits(n / 10);
      TakeAppend(Digits(n / 10), [48 + n % 10], 0);
      OneDigit(n % 10, n / 10);
    }
  }

  lemma OneDigit(v: nat, n: nat)
    requires v < 10
    ensures TakeNumber([48 + v], n) == (10 * n + v, [])
  {
    assert [48 + v as byte][1..] == [];
  }

  /** How often a command with count n is run: the number is cut as strtol and an int of 32 bits cut it. */
  function Repeats(n: nat): nat { Min(n, 9223372036854775807) % 4294967296 }

  /** A command word: dash or slash, digits for a count or none for 1, and letters. */
  lemma CommandWord(lead: seq<byte>, p: byte, n: nat, counted: bool, letters: seq<byte>, e: byte, rest: seq<byte>)
    requires forall i :: 0 <= i < |lead| ==> lead[i] in {9, 10, 11, 12, 13, 32}
    requires p in {45, 47} && letters != [] && AllLetters(letters) && e in {0, 9, 10, 13, 32}
    requires var d := if counted then Digits(n) else []; 1 + |d| + |letters| <= 128
    ensures var d := if counted then Digits(n) else [];
            Parse(lead + ([p] + d + letters + ([e] + rest))) == Command(if counted then Repeats(n) else 1, letters, rest)
  {
    hide Digits, StringOf, CString, Parse, ParseWord, AllDigits, AllLetters, Repeats;
    var d := if counted then Digits(n) else [];
    var w := [p] + d + letters;
    DigitsAre(n);
    LettersAreNoEnds(letters);
    WordOf(p, d, letters);
    UnquotedString(lead, w, e, rest, 128);
    ParsePrefixed(lead + (w + ([e] + rest)), w, rest);
    ParseGoodWord(n, counted, letters, rest);
  }

  lemma DigitsAre(n: nat)
    ensures AllDigits(Digits(n)) && AllDigits([])
  {
  }

  lemma LettersAreNoEnds(letters: seq<byte>)
    requires AllLetters(letters)
    ensures forall i :: 0 <= i < |letters| ==> letters[i] !in {0, 9, 10, 13, 32, 92}
  {
  }

  /** A word of prefix, digits and characters that do not end it is stored as it is. */
  lemma WordOf(p: byte, d: seq<byte>, x: seq<byte>)
    requires p in {45, 47} && AllDigits(d) && forall i :: 0 <= i < |x| ==> x[i] !in {0, 9, 10, 13, 32, 92}
    ensures var w := [p] + d + x;
            && (forall i :: 0 <= i < |w| ==> w[i] !in {0, 9, 10, 13, 32, 92})
            && w[0] == p && CString(w) == w && w[1..] == d + x
  {
    var w := [p] + d + x;
    hide CString;
    CStringOfNonZero(w);
    assert w[1..] == d + x;
  }

  lemma ParseGoodWord(n: nat, counted: bool, letters: seq<byte>, rest: seq<byte>)
    requires letters != [] && AllLetters(letters)
    ensures ParseWord((if counted then Digits(n) else []) + letters, rest)
         == Command(if counted then Repeats(n) else 1, letters, rest)
  {
    hide Digits;
    if counted {
      TakeDigits(n);
      TakeAppend(Digits(n), letters, 0);
      NoMoreDigits(letters, n);
      hide TakeNumber;
      assert (Digits(n) + letters)[0] == Digits(n)[0];
    } else {
      assert [] + letters == letters;
      hide TakeNumber;
    }
  }

  /** A word after the prefix that has no letter behind its digits is an error of one kind, one that holds
      another character behind its first letter of the other; nothing is displayed. */
  lemma BadWord(lead: seq<byte>, p: byte, d: seq<byte>, x: seq<byte>, e: byte, rest: seq<byte>)
    requires forall i :: 0 <= i < |lead| ==> lead[i] in {9, 10, 11, 12, 13, 32}
    requires forall i :: 0 <= i < |x| ==> x[i] !in {0, 9, 10, 13, 32, 92}
    requires p in {45, 47} && AllDigits(d) && (x == [] || !(48 <= x[0] <= 57)) && 1 + |d| + |x| <= 128
    requires (x == [] || !AllLetters(x)) && e in {0, 9, 10, 13, 32}
    ensures Parse(lead + ([p] + d + x + ([e] + rest)))
         == Rejected(if x == [] || !(65 <= x[0] <= 90 || 97 <= x[0] <= 122) then NoCommand else InvalidLetters, rest)
    ensures RunMain(lead + ([p] + d + x + ([e] + rest))) == RunMain(rest)
  {
    hide StringOf, RunMain, CString, ParseWord, Parse, AllDigits, AllLetters;
    var w := [p] + d + x;
    var s := lead + (w + ([e] + rest));
    WordOf(p, d, x);
    UnquotedString(lead, w, e, rest, 128);
    ParseBadWord(d, x, rest);
    ParsePrefixed(s, w, rest);
    RunEcho(s, [], rest);
  }

  lemma ParsePrefixed(s: seq<byte>, w: seq<byte>, rest: seq<byte>)
    requires StringOf(s, 128) == (w, rest) && CString(w) == w && w != [] && w[0] in {45, 47}
    ensures Parse(s) == ParseWord(w[1..], rest)
  {
    hide StringOf, CString, ParseWord;
  }

  lemma ParseBadWord(d: seq<byte>, x: seq<byte>, rest: seq<byte>)
    requires AllDigits(d) && (x == [] || !(48 <= x[0] <= 57)) && (x == [] || !AllLetters(x))
    ensures ParseWord(d + x, rest)
         == Rejected(if x == [] || !(65 <= x[0] <= 90 || 97 <= x[0] <= 122) then NoCommand else InvalidLetters, rest)
  {
    TakeAppend(d, x, 0);
    NoMoreDigits(x, TakeNumber(d, 0).0);
    hide TakeNumber;
    if d == [] { assert d + x == x; } else { assert (d + x)[0] == d[0]; }
  }

  lemma NoMoreDigits(x: seq<byte>, n: nat)
    requires x == [] || !(48 <= x[0] <= 57)
    ensures TakeNumber(x, n) == (n, x)
  {
  }

  // ----- What commands display

  /** How many letters n there are, small or capital. */
  function NewLines(letters: seq<byte>): nat {
    if letters == [] then 0 else (if letters[0] in {78, 110} then 1 else 0) + NewLines(letters[1..])
  }

  /** The letter n, and letters that are no commands: e, f, k, m, p, t, u, v, x, y and z. */
  predicate OnlyNewLines(letters: seq<byte>) {
    forall i :: 0 <= i < |letters| ==>
      letters[i] in {69, 70, 75, 77, 78, 80, 84, 85, 86, 88, 89, 90, 101, 102, 107, 109, 110, 112, 116, 117, 118, 120, 121, 122}
  }

  lemma {:induction false} RunNewLines(letters: seq<byte>, more: seq<byte>, s: seq<byte>)
    requires OnlyNewLines(letters)
    ensures RunLetters(letters + more, s) == Prepend(Repeat<byte>(10, NewLines(letters)), RunLetters(more, s))
    decreases |letters|
  {
    hide RunLetters, Prepend;
    if letters == [] {
      assert letters + more == more && Repeat<byte>(10, 0) == [];
      PrependNothing(RunLetters(more, s));
    } else {
      FirstLetter(letters, more, s);
      RunNewLines(letters[1..], more, s);
      if letters[0] in {78, 110} {
        RepeatOneMore<byte>(10, NewLines(letters));
        PrependTwice([10], Repeat<byte>(10, NewLines(letters) - 1), RunLetters(more, s));
      }
    }
  }

  lemma FirstLetter(letters: seq<byte>, more: seq<byte>, s: seq<byte>)
    requires letters != [] && OnlyNewLines(letters)
    ensures RunLetters(letters + more, s)
         == if letters[0] in {78, 110} then Prepend([10], RunLetters(letters[1..] + more, s)) else RunLetters(letters[1..] + more, s)
  {
    hide StringOf, Prepend;
    var c := letters[0];
    assert (letters + more)[0] == c && (letters + more)[1..] == letters[1..] + more;
    hide OnlyNewLines;
    assert c !in {68, 81, 100, 113} && !IsOther(ToLower(c));
  }

  lemma {:induction false} RunNewLinesTimes(n: nat, letters: seq<byte>, s: seq<byte>)
    requires OnlyNewLines(letters)
    ensures 0 <= n * NewLines(letters) && RunTimes(n, letters, s) == Running(Repeat<byte>(10, n * NewLines(letters)), s)
  {
    hide RunLetters, NewLines;
    var k := NewLines(letters);
    if n == 0 {
      assert Repeat<byte>(10, 0) == [];
    } else {
      OnceNewLines(letters, s);
      RunNewLinesTimes(n - 1, letters, s);
      assert n * k == (n - 1) * k + k;
      assert Repeat<byte>(10, n * k) == Repeat<byte>(10, k) + Repeat<byte>(10, (n - 1) * k);
    }
  }

  lemma OnceNewLines(letters: seq<byte>, s: seq<byte>)
    requires OnlyNewLines(letters)
    ensures RunLetters(letters, s) == Running(Repeat<byte>(10, NewLines(letters)), s)
  {
    RunNewLines(letters, [], s);
    assert letters + [] == letters;
    assert RunLetters([], s) == Running([], s);
    assert Repeat<byte>(10, NewLines(letters)) + [] == Repeat<byte>(10, NewLines(letters));
  }

  lemma RunCommand(s: seq<byte>, count: nat, letters: seq<byte>, s1: seq<byte>)
    requires Parse(s) == Command(count, letters, s1)
    ensures RunMain(s) == match RunTimes(count, letters, s1)
                          case Running(o, rest) => Prepend(o, RunMain(rest))
                          case r => r
  {
    hide Parse, RunTimes;
    ParseConsumes(s);
    TimesConsume(count, letters, s1);
  }

  /** A command of letters n and letters without a meaning displays that many newlines, as often as
      its count says, and the input goes on behind the character that ends the word. */
  lemma NewLineCommand(lead: seq<byte>, p: byte, n: nat, counted: bool, letters: seq<byte>, e: byte, rest: seq<byte>)
    requires forall i :: 0 <= i < |lead| ==> lead[i] in {9, 10, 11, 12, 13, 32}
    requires p in {45, 47} && letters != [] && OnlyNewLines(letters) && e in {0, 9, 10, 13, 32}
    requires var d := if counted then Digits(n) else []; 1 + |d| + |letters| <= 128
    ensures var d, times := if counted then Digits(n) else [], if counted then Repeats(n) else 1;
            && 0 <= times * NewLines(letters)
            && RunMain(lead + ([p] + d + letters + ([e] + rest)))
                 == Prepend(Repeat<byte>(10, times * NewLines(letters)), RunMain(rest))
  {
    hide Digits, Parse, RunMain, RunTimes, NewLines, Repeats;
    var d, times := if counted then Digits(n) else [], if counted then Repeats(n) else 1;
    CommandWord(lead, p, n, counted, letters, e, rest);
    RunNewLinesTimes(times, letters, rest);
    RunCommand(lead + ([p] + d + letters + ([e] + rest)), times, letters, rest);
  }

  /** The letter q ends the program, whatever follows it in the word or behind it. */
  lemma QuitCommand(lead: seq<byte>, p: byte, before: seq<byte>, q: byte, behind: seq<byte>, e: byte, rest: seq<byte>)
    requires forall i :: 0 <= i < |lead| ==> lead[i] in {9, 10, 11, 12, 13, 32}
    requires p in {45, 47} && OnlyNewLines(before) && q in {81, 113} && AllLetters(behind) && e in {0, 9, 10, 13, 32}
    requires |before| + |behind| <= 126
    ensures RunMain(lead + ([p] + [] + (before + ([q] + behind)) + ([e] + rest))) == Exited(Repeat<byte>(10, NewLines(before)))
  {
    hide Parse, RunMain, NewLines;
    var letters := before + ([q] + behind);
    CommandWord(lead, p, 1, false, letters, e, rest);
    RunNewLines(before, [q] + behind, rest);
    QuitOnce([q] + behind, rest);
    hide RunLetters;
    assert RunTimes(1, letters, rest) == RunLetters(letters, rest);
    assert Repeat<byte>(10, NewLines(before)) + [] == Repeat<byte>(10, NewLines(before));
    RunCommand(lead + ([p] + [] + letters + ([e] + rest)), 1, letters, rest);
  }

  lemma QuitOnce(letters: seq<byte>, s: seq<byte>)
    requires letters != [] && letters[0] in {81, 113}
    ensures RunLetters(letters, s) == Exited([])
  {
  }

  /** The letters a, b, c, g, h, i, j, l, o, r, s and w are not followed further. */
  lemma OtherCommand(lead: seq<byte>, p: byte, before: seq<byte>, c: byte, behind: seq<byte>, e: byte, rest: seq<byte>)
    requires forall i :: 0 <= i < |lead| ==> lead[i] in {9, 10, 11, 12, 13, 32}
    requires p in {45, 47} && OnlyNewLines(before) && AllLetters(behind) && e in {0, 9, 10, 13, 32}
    requires c in {97, 98, 99, 103, 104, 105, 106, 108, 111, 114, 115, 119, 65, 66, 67, 71, 72, 73, 74, 76, 79, 82, 83, 87}
    requires |before| + |behind| <= 126
    ensures RunMain(lead + ([p] + [] + (before + ([c] + behind)) + ([e] + rest)))
         == Other(Repeat<byte>(10, NewLines(before)), if c < 97 then c + 32 else c)
  {
    hide Parse, RunMain, NewLines;
    var letters := before + ([c] + behind);
    CommandWord(lead, p, 1, false, letters, e, rest);
    RunNewLines(before, [c] + behind, rest);
    OtherOnce([c] + behind, rest);
    hide RunLetters;
    assert RunTimes(1, letters, rest) == RunLetters(letters, rest);
    assert Repeat<byte>(10, NewLines(before)) + [] == Repeat<byte>(10, NewLines(before));
    RunCommand(lead + ([p] + [] + letters + ([e] + rest)), 1, letters, rest);
  }

  lemma OtherOnce(letters: seq<byte>, s: seq<byte>)
    requires letters != []
    requires letters[0] in {97, 98, 99, 103, 104, 105, 106, 108, 111, 114, 115, 119, 65, 66, 67, 71, 72, 73, 74, 76, 79, 82, 83, 87}
    ensures RunLetters(letters, s) == Other([], if letters[0] < 97 then letters[0] + 32 else letters[0])
  {
  }

  /** The letter d displays the string that follows. */
  lemma DisplayCommand(lead: seq<byte>, p: byte, c: byte, e: byte, s: seq<byte>, shown: seq<byte>, rest: seq<byte>)
    requires forall i :: 0 <= i < |lead| ==> lead[i] in {9, 10, 11, 12, 13, 32}
    requires p in {45, 47} && c in {68, 100} && e in {0, 9, 10, 13, 32}
    requires StringOf(s, 1024) == (shown, rest) && 0 !in shown
    ensures RunMain(lead + ([p] + [] + [c] + ([e] + s))) == Prepend(shown, RunMain(rest))
  {
    hide Parse, RunMain, StringOf;
    CommandWord(lead, p, 1, false, [c], e, s);
    CStringOfNonZero(shown);
    DisplayLetter(c, s, shown, rest);
    RunCommand(lead + ([p] + [] + [c] + ([e] + s)), 1, [c], s);
  }

  lemma DisplayLetter(c: byte, s: seq<byte>, shown: seq<byte>, rest: seq<byte>)
    requires c in {68, 100} && StringOf(s, 1024) == (shown, rest) && CString(shown) == shown
    ensures RunTimes(1, [c], s) == Running(shown, rest)
  {
    hide StringOf, CString;
    assert [c][1..] == [];
    assert RunLetters([], rest) == Running([], rest);
    assert shown + [] == shown;
    assert RunLetters([c], s) == Running(shown, rest);
    assert RunTimes(0, [c], rest) == Running([], rest);
  }

  /** -d and a word, or a text in quotes, of at most 1024 characters: that is displayed. */
  lemma DisplayedText(lead: seq<byte>, p: byte, c: byte, e: byte, gap: seq<byte>, w: seq<byte>, quoted: bool, e2: byte, rest: seq<byte>)
    requires forall i :: 0 <= i < |lead| ==> lead[i] in {9, 10, 11, 12, 13, 32}
    requires forall i :: 0 <= i < |gap| ==> gap[i] in {9, 10, 11, 12, 13, 32}
    requires p in {45, 47} && c in {68, 100} && e in {0, 9, 10, 13, 32} && |w| <= 1024
    requires quoted ==> e2 in {0, 34} && forall i :: 0 <= i < |w| ==> w[i] !in {0, 34, 92}
    requires !quoted ==> e2 in {0, 9, 10, 13, 32} && w != [] && w[0] !in {11, 12, 34}
                         && forall i :: 0 <= i < |w| ==> w[i] !in {0, 9, 10, 13, 32, 92}
    ensures RunMain(lead + ([p] + [] + [c] + ([e] + (gap + ((if quoted then [34] else []) + (w + ([e2] + rest)))))))
         == Prepend(w, RunMain(rest))
  {
    hide RunMain, StringOf;
    var u := w + ([e2] + rest);
    if quoted {
      QuotedString(gap, w, e2, rest, 1024);
    } else {
      UnquotedString(gap, w, e2, rest, 1024);
      assert [] + u == u;
    }
    DisplayCommand(lead, p, c, e, gap + ((if quoted then [34] else []) + u), w, rest);
  }

  /** Two commands on two lines are run as two: -n, a newline, -q and a newline. */
  lemma TwoLines()
    ensures RunMain([45, 110, 10, 45, 113, 10]) == Exited([10])
  {
    hide RunMain;
    QuitCommand([], 45, [], 113, [], 10, []);
    assert [] + ([45] + [] + ([] + ([113] + [])) + ([10] + [])) == [45, 113, 10];
    assert Repeat<byte>(10, NewLines([])) == [];
    NewLineCommand([], 45, 1, false, [110], 10, [45, 113, 10]);
    assert [] + ([45] + [] + [110] + ([10] + [45, 113, 10])) == [45, 110, 10, 45, 113, 10];
    assert [110 as byte][1..] == [];
    assert NewLines([110]) == 1 && Repeat<byte>(10, 1) == [10] && [10] + [] == [10];
  }

  // ----- What -e writes

  /** Quotes and backslashes with a backslash before them, everything else as it is. */
  function Marked(text: seq<byte>): seq<byte> {
    if text == [] then [] else (if text[0] in {34, 92} then [92, text[0]] else [text[0]]) + Marked(text[1..])
  }

  lemma {:induction false} EscapedChunk(text: seq<byte>, room: nat)
    ensures EscapeFrom(text, room)
         == if |text| < room then Marked(text) + [34] else Marked(text[..room]) + ([34, 32] + Escaped(text[room..]))
    decreases |text|
  {
    hide Escaped, Marked, EscapeFrom, EscapeChar;
    EscapeFirst(text, room);
    if room == 0 {
      assert text[..0] == [] && text[0..] == text && Marked([]) + ([34, 32] + Escaped(text)) == [34, 32] + Escaped(text);
    } else if text == [] {
      assert Marked(text) + [34] == [34];
    } else {
      EscapedChunk(text[1..], room - 1);
      MarkedFirst(text, room);
      Regroup(EscapeChar(text[0]), Marked(text[1..]), [34]);
      if |text| >= room {
        Regroup(EscapeChar(text[0]), Marked(text[1..][..room - 1]), [34, 32] + Escaped(text[room..]));
      }
    }
  }

  lemma EscapeFirst(text: seq<byte>, room: nat)
    ensures Marked([]) == []
    ensures EscapeFrom(text, room) == if room == 0 then [34, 32] + Escaped(text) else if text == [] then [34]
                                      else EscapeChar(text[0]) + EscapeFrom(text[1..], room - 1)
  {
  }

  lemma EscapedIsOpening(text: seq<byte>)
    ensures Escaped(text) == OPENING + EscapeFrom(text, MAX_TEXT_LENGTH)
  {
  }

  lemma MarkedFirst(text: seq<byte>, room: nat)
    requires text != [] && room >= 1
    ensures Marked(text) == EscapeChar(text[0]) + Marked(text[1..])
    ensures |text| >= room ==> Marked(text[..room]) == EscapeChar(text[0]) + Marked(text[1..][..room - 1])
    ensures |text| >= room ==> text[1..][room - 1..] == text[room..]
  {
    hide EscapeChar, Marked;
    MarkedStep(text);
    if |text| >= room {
      TailOfChunk(text, room);
      MarkedStep(text[..room]);
    }
  }

  lemma TailOfChunk<X>(s: seq<X>, k: nat)
    requires 1 <= k <= |s|
    ensures s[..k][0] == s[0] && s[..k][1..] == s[1..][..k - 1] && s[1..][k - 1..] == s[k..]
  {
  }

  lemma MarkedStep(text: seq<byte>)
    requires text != []
    ensures Marked(text) == EscapeChar(text[0]) + Marked(text[1..])
  {
  }

  /** The output of -e: the characters -d, a blank and a quote, then 1024 characters of the text, a quote, a
      blank and the same for the rest of the text; with fewer characters left, these and a quote. */
  lemma EscapedIs(text: seq<byte>)
    ensures |text| < 1024 ==> Escaped(text) == [45, 100, 32, 34] + (Marked(text) + [34])
    ensures |text| >= 1024 ==>
              Escaped(text) == [45, 100, 32, 34] + (Marked(text[..1024]) + ([34, 32] + Escaped(text[1024..])))
  {
    EscapedChunk(text, 1024);
    EscapedIsOpening(text);
    hide Escaped, EscapeFrom, Marked;
  }
}
