/** darkbox.c: the text escaper (-e), the string reader, the command parser and the commands that
    display text, as functions of the bytes still to be read. */
module Darkbox {
  import opened Bits

  const EOF: int := -1
  const MAX_TEXT_LENGTH: nat := 1024
  const MAX_COMMAND_SIZE: nat := 128
  const NEWLINE: byte := 10
  const SPACE: byte := 32
  const QUOTE: byte := 34
  const DASH: byte := 45
  const SLASH: byte := 47
  const BACKSLASH: byte := 92
  const LETTER_D: byte := 100

  predicate IsSpace(c: byte) { 9 <= c <= 13 || c == SPACE }
  predicate IsDigit(c: byte) { 48 <= c <= 57 }
  predicate IsAlpha(c: byte) { 65 <= c <= 90 || 97 <= c <= 122 }
  function ToLower(c: byte): byte { if 65 <= c <= 90 then c + 32 else c }

  /** strchr(end_chars, c), which also finds the terminating zero. */
  predicate Ends(c: byte, quote: bool) {
    c == 0 || if quote then c == QUOTE else c == SPACE || c == NEWLINE || c == 13 || c == 9
  }

  // ----- What -e writes

  function EscapeChar(c: byte): seq<byte> {
    if c == BACKSLASH || c == QUOTE then [BACKSLASH, c] else [c]
  }

  /** -d and the opening quote. */
  const OPENING: seq<byte> := [DASH, LETTER_D, SPACE, QUOTE]

  /** What follows when room more characters fit into the current command. */
  function EscapeFrom(text: seq<byte>, room: nat): seq<byte>
    decreases |text|, if room == 0 then 1 else 0
  {
    if room == 0 then [QUOTE, SPACE] + (OPENING + EscapeFrom(text, MAX_TEXT_LENGTH))
    else if text == [] then [QUOTE]
    else EscapeChar(text[0]) + EscapeFrom(text[1..], room - 1)
  }

  function Escaped(text: seq<byte>): seq<byte> { OPENING + EscapeFrom(text, MAX_TEXT_LENGTH) }

  // ----- What read_string reads

  /** The next character as a char: at the end of the input, the end-of-file value as a char. */
  function Next(s: seq<byte>): (byte, seq<byte>) { if s == [] then (255, []) else (s[0], s[1..]) }

  function SkipSpaces(s: seq<byte>): (byte, seq<byte>)
    decreases |s|
  {
    var (c, r) := Next(s);
    if IsSpace(c) then SkipSpaces(r) else (c, r)
  }

  /** The characters stored from c on, at most room of them, and the input after their end. */
  function Scan(c: byte, s: seq<byte>, quote: bool, room: nat): (seq<byte>, seq<byte>)
    decreases room
  {
    if Ends(c, quote) || room == 0 then ([], s)
    else
      var (e, s1) := if c == BACKSLASH then Next(s) else (c, s);
      var (d, s2) := Next(s1);
      var (t, r) := Scan(d, s2, quote, room - 1);
      ([e] + t, r)
  }

  function StringOf(s: seq<byte>, max: nat): (seq<byte>, seq<byte>) {
    var (c, r) := SkipSpaces(s);
    if c == QUOTE then var (d, r') := Next(r); Scan(d, r', true, max) else Scan(c, r, false, max)
  }

  /** A C string is what stands before the first zero. */
  function CString(s: seq<byte>): seq<byte> {
    if s == [] || s[0] == 0 then [] else [s[0]] + CString(s[1..])
  }

  // ----- What parse_cmd makes of it

  datatype ParseError = InvalidLetters | NoCommand

  datatype Parsed =
    | AtEnd(out: seq<byte>)
    | NotACommand(out: seq<byte>, rest: seq<byte>)
    | Rejected(error: ParseError, rest: seq<byte>)
    | Command(count: nat, letters: seq<byte>, rest: seq<byte>)

  /** The largest result of strtol, where long has 64 bits. */
  const LONG_MAX: nat := 0x7FFF_FFFF_FFFF_FFFF

  /** What a count of n comes to: strtol stops at LONG_MAX, and 32 bits of that are kept and compared
      with an unsigned loop counter. */
  function Counted(n: nat): (c: nat)
    ensures c < 0x1_0000_0000 && (n < 0x1_0000_0000 ==> c == n)
  {
    Min(n, LONG_MAX) % 0x1_0000_0000
  }

  /** The digits at the front, as a number. */
  function TakeNumber(w: seq<byte>, n: nat): (nat, seq<byte>) {
    if w != [] && IsDigit(w[0]) then TakeNumber(w[1..], 10 * n + (w[0] - 48)) else (n, w)
  }

  predicate AllAlpha(w: seq<byte>) { forall i :: 0 <= i < |w| ==> IsAlpha(w[i]) }

  /** A command word without its prefix. */
  function ParseWord(w: seq<byte>, rest: seq<byte>): Parsed {
    var (number, letters) := if w != [] && IsDigit(w[0]) then TakeNumber(w, 0) else (1, w);
    if letters == [] || !IsAlpha(letters[0]) then Rejected(NoCommand, rest)
    else if !AllAlpha(letters) then Rejected(InvalidLetters, rest)
    else Command(Counted(number), letters, rest)
  }

  /** The rest of a line that is no command, up to its newline or the end of the input. */
  function EchoLine(s: seq<byte>, out: seq<byte>): Parsed
    decreases |s|
  {
    if s == [] then AtEnd(out + [255])
    else if s[0] == NEWLINE then NotACommand(out + [NEWLINE], s[1..])
    else EchoLine(s[1..], out + [s[0]])
  }

  function Parse(s: seq<byte>): Parsed {
    var (t, rest) := StringOf(s, MAX_COMMAND_SIZE);
    var w := CString(t);
    if w != [] && (w[0] == DASH || w[0] == SLASH) then ParseWord(w[1..], rest)
    else if NEWLINE in w then NotACommand(w + [SPACE], rest)
    else EchoLine(rest, w + [SPACE])
  }

  // ----- What is displayed

  /** Running: the commands so far are done. Exited: the program has ended. Other: a letter whose
      command reads integers or drives the console, which this model does not follow. */
  datatype Outcome =
    | Running(out: seq<byte>, rest: seq<byte>)
    | Exited(out: seq<byte>)
    | Other(out: seq<byte>, letter: byte)

  function Prepend(out: seq<byte>, r: Outcome): Outcome {
    match r
    case Running(o, rest) => Running(out + o, rest)
    case Exited(o) => Exited(out + o)
    case Other(o, letter) => Other(out + o, letter)
  }

  lemma PrependNothing(r: Outcome)
    ensures Prepend([], r) == r
  {
  }

  lemma PrependTwice(a: seq<byte>, b: seq<byte>, r: Outcome)
    ensures Prepend(a, Prepend(b, r)) == Prepend(a + b, r)
  {
    assert a + (b + r.out) == a + b + r.out;
  }

  /** The letters a, b, c, g, h, i, j, l, o, r, s, w. */
  predicate IsOther(c: byte) { c in {97, 98, 99, 103, 104, 105, 106, 108, 111, 114, 115, 119} }

  function RunLetters(letters: seq<byte>, s: seq<byte>): Outcome
    decreases |letters|
  {
    if letters == [] then Running([], s)
    else
      var c := ToLower(letters[0]);
      if c == LETTER_D then
        var (t, rest) := StringOf(s, MAX_TEXT_LENGTH);
        Prepend(CString(t), RunLetters(letters[1..], rest))
      else if c == 110 then Prepend([NEWLINE], RunLetters(letters[1..], s))
      else if c == 113 then Exited([])
      else if IsOther(c) then Other([], c)
      else RunLetters(letters[1..], s)
  }

  function RunTimes(n: nat, letters: seq<byte>, s: seq<byte>): Outcome
    decreases n
  {
    if n == 0 then Running([], s)
    else match RunLetters(letters, s)
         case Running(o, rest) => Prepend(o, RunTimes(n - 1, letters, rest))
         case r => r
  }

  /** The main loop. */
  function RunMain(s: seq<byte>): Outcome
    decreases |s|
  {
    ParseConsumes(s);
    match Parse(s)
    case AtEnd(o) => Exited(o)
    case NotACommand(o, rest) => Prepend(o, RunMain(rest))
    case Rejected(_, rest) => RunMain(rest)
    case Command(count, letters, rest) =>
      TimesConsume(count, letters, rest);
      match RunTimes(count, letters, rest)
      case Running(o, rest') => Prepend(o, RunMain(rest'))
      case r => r
  }

  // ----- Reading only ever consumes

  lemma {:induction false} SkipConsumes(s: seq<byte>)
    ensures |SkipSpaces(s).1| <= |s| && (s != [] ==> |SkipSpaces(s).1| < |s|)
    ensures s == [] ==> SkipSpaces(s) == (255, [])
    decreases |s|
  {
    if s != [] && IsSpace(s[0]) { SkipConsumes(s[1..]); }
  }

  lemma {:induction false} ScanConsumes(c: byte, s: seq<byte>, quote: bool, room: nat)
    ensures |Scan(c, s, quote, room).1| <= |s| && |Scan(c, s, quote, room).0| <= room
    decreases room
  {
    if !Ends(c, quote) && room != 0 {
      var s1 := if c == BACKSLASH then Next(s).1 else s;
      ScanConsumes(Next(s1).0, Next(s1).1, quote, room - 1);
    }
  }

  lemma StringConsumes(s: seq<byte>, max: nat)
    ensures |StringOf(s, max).1| <= |s| && (s != [] ==> |StringOf(s, max).1| < |s|) && |StringOf(s, max).0| <= max
  {
    hide Scan, SkipSpaces;
    SkipConsumes(s);
    var (c, r) := SkipSpaces(s);
    ScanConsumes(c, r, false, max);
    ScanConsumes(Next(r).0, Next(r).1, true, max);
  }

  /** With no input left, read_string fills the whole buffer with the end-of-file character. */
  lemma {:induction false} ScanAtEnd(quote: bool, room: nat)
    ensures Scan(255, [], quote, room) == (Repeat<byte>(255, room), [])
  {
    if room != 0 {
      ScanAtEnd(quote, room - 1);
      RepeatOneMore<byte>(255, room);
    }
  }

  lemma {:induction false} CStringOfNonZero(s: seq<byte>)
    requires 0 !in s
    ensures CString(s) == s
  {
    if s != [] { CStringOfNonZero(s[1..]); }
  }

  /** What the program displays when the input ends between commands. */
  const END_MARK: seq<byte> := Repeat<byte>(255, MAX_COMMAND_SIZE) + [SPACE] + [255]

  lemma ParseAtEnd()
    ensures Parse([]) == AtEnd(END_MARK)
  {
    hide Repeat, Scan;
    ScanAtEnd(false, MAX_COMMAND_SIZE);
    CStringOfNonZero(Repeat<byte>(255, MAX_COMMAND_SIZE));
    assert StringOf([], MAX_COMMAND_SIZE) == (Repeat<byte>(255, MAX_COMMAND_SIZE), []);
    assert Repeat<byte>(255, MAX_COMMAND_SIZE)[0] in Repeat<byte>(255, MAX_COMMAND_SIZE);
  }

  lemma {:induction false} EchoConsumes(s: seq<byte>, out: seq<byte>)
    ensures match EchoLine(s, out)
            case AtEnd(_) => true
            case NotACommand(_, rest) => |rest| < |s|
            case _ => false
    decreases |s|
  {
    if s != [] { EchoConsumes(s[1..], out + [s[0]]); }
  }

  /** Unless the program ends, each turn of the main loop reads something. */
  lemma ParseConsumes(s: seq<byte>)
    ensures match Parse(s)
            case AtEnd(_) => true
            case NotACommand(_, rest) => |rest| < |s|
            case Rejected(_, rest) => |rest| < |s|
            case Command(_, _, rest) => |rest| < |s|
  {
    hide StringOf, CString, EchoLine, Repeat;
    if s == [] {
      ParseAtEnd();
    } else {
      StringConsumes(s, MAX_COMMAND_SIZE);
      var (t, rest) := StringOf(s, MAX_COMMAND_SIZE);
      EchoConsumes(rest, CString(t) + [SPACE]);
    }
  }

  lemma {:induction false} LettersConsume(letters: seq<byte>, s: seq<byte>)
    ensures match RunLetters(letters, s) case Running(_, rest) => |rest| <= |s| case _ => true
    decreases |letters|
  {
    hide StringOf, CString;
    if letters != [] {
      StringConsumes(s, MAX_TEXT_LENGTH);
      LettersConsume(letters[1..], StringOf(s, MAX_TEXT_LENGTH).1);
      LettersConsume(letters[1..], s);
    }
  }

  lemma {:induction false} TimesConsume(n: nat, letters: seq<byte>, s: seq<byte>)
    ensures match RunTimes(n, letters, s) case Running(_, rest) => |rest| <= |s| case _ => true
    decreases n
  {
    hide RunLetters;
    if n != 0 {
      LettersConsume(letters, s);
      match RunLetters(letters, s)
      case Running(o, rest) => TimesConsume(n - 1, letters, rest);
      case _ =>
    }
  }
}
