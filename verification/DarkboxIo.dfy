/** darkbox.c: the character loops themselves, over the standard streams and the two buffers,
    proved against the functions of Darkbox. */
module DarkboxIo {
  import opened Bits
  import opened Darkbox

  /** Standard input and output. */
  class Console {
    var input: seq<byte>
    var output: seq<byte>

    constructor (input: seq<byte>)
      ensures this.input == input && output == []
    {
      this.input, output := input, [];
    }

    method GetChar() returns (c: int)
      modifies `input
      ensures old(input) == [] ==> c == EOF && input == []
      ensures old(input) != [] ==> c == old(input)[0] && input == old(input)[1..]
    {
      if input == [] {
        return EOF;
      }
      c := input[0];
      input := input[1..];
    }

    /** A getchar() whose result is kept in a char. */
    method GetCharAsChar() returns (c: byte)
      modifies `input
      ensures (c, input) == Next(old(input))
    {
      var i := GetChar();
      c := if i < 0 then i + 256 else i;
    }

    method PutChar(c: int)
      requires -1 <= c < 256
      modifies `output
      ensures output == old(output) + [if c < 0 then 255 else c]
    {
      output := output + [if c < 0 then 255 else c];
    }

    /** fputs on a buffer that holds a zero. */
    method Puts(buffer: array<byte>)
      requires 0 in buffer[..]
      modifies `output
      ensures output == old(output) + CString(buffer[..])
    {
      var i: nat := 0;
      while buffer[i] != 0
        invariant i < buffer.Length && 0 in buffer[i..]
        invariant output + CString(buffer[i..]) == old(output) + CString(buffer[..])
        decreases buffer.Length - i
      {
        assert buffer[i..][1..] == buffer[i + 1..];
        assert output + ([buffer[i]] + CString(buffer[i + 1..])) == output + [buffer[i]] + CString(buffer[i + 1..]);
        PutChar(buffer[i]);
        i := i + 1;
      }
      assert output + [] == output;
    }

    // ----- darkbox -e

    method PutAll(s: seq<byte>)
      modifies `output
      ensures output == old(output) + s
    {
      for i := 0 to |s|
        invariant output == old(output) + s[..i]
      {
        PutChar(s[i]);
      }
    }

    method Escape()
      modifies this
      ensures input == [] && output == old(output) + Escaped(old(input))
    {
      hide Escaped, EscapeFrom;
      assert output + Escaped(input) == old(output) + Escaped(old(input));
      while true
        invariant output + Escaped(input) == old(output) + Escaped(old(input))
        decreases |input|
      {
        OpeningWritten(output, input);
        PutAll(OPENING);
        ghost var before := |input|;
        for i := 0 to MAX_TEXT_LENGTH
          invariant |input| == before - i
          invariant output + EscapeFrom(input, MAX_TEXT_LENGTH - i) == old(output) + Escaped(old(input))
        {
          EscapeStep(output, input, MAX_TEXT_LENGTH - i);
          var c := GetChar();
          if c == EOF {
            PutChar(QUOTE);
            return;
          }
          if c == BACKSLASH || c == QUOTE {
            PutChar(BACKSLASH);
          }
          PutChar(c);
        }
        ChunkFull(output, input);
        PutAll([QUOTE, SPACE]);
      }
    }

    // ----- read_string

    /** The characters are stored from the front of the buffer and the terminator right after them, at
        index maxLength when there are that many. Nothing else in the buffer changes. */
    method ReadString(buffer: array<byte>, maxLength: nat)
      requires maxLength < buffer.Length
      modifies `input, buffer
      ensures var (t, rest) := StringOf(old(input), maxLength);
              && input == rest && |t| <= maxLength
              && buffer[..|t|] == t && buffer[|t|] == 0 && buffer[|t| + 1..] == old(buffer[|t| + 1..])
      ensures 0 in buffer[..] && CString(buffer[..]) == CString(StringOf(old(input), maxLength).0)
    {
      hide CString;
      var c := GetCharAsChar();
      while IsSpace(c)
        invariant SkipSpaces(old(input)) == if IsSpace(c) then SkipSpaces(input) else (c, input)
        invariant buffer[..] == old(buffer[..])
        decreases |input| + if IsSpace(c) then 1 else 0
      {
        c := GetCharAsChar();
      }
      var quote := c == QUOTE;
      if quote {
        c := GetCharAsChar();
      }
      StringIs(old(input), maxLength, c, input, quote);
      StoreString(buffer, maxLength, c, quote);
      CStringUpTo(buffer[..], |StringOf(old(input), maxLength).0|);
    }

    /** The part of read_string that stores, from the first character c on. */
    method StoreString(buffer: array<byte>, maxLength: nat, c0: byte, quote: bool)
      requires maxLength < buffer.Length
      modifies `input, buffer
      ensures var (t, rest) := Scan(c0, old(input), quote, maxLength);
              && input == rest && |t| <= maxLength
              && buffer[..|t|] == t && buffer[|t|] == 0 && buffer[|t| + 1..] == old(buffer[|t| + 1..])
    {
      hide Ends;
      var c := c0;
      var pos: nat := 0;
      ghost var result := Scan(c, input, quote, maxLength);
      assert buffer[..0] + result.0 == result.0;
      while !Ends(c, quote) && pos < maxLength
        invariant pos <= maxLength < buffer.Length
        invariant result == (buffer[..pos] + Scan(c, input, quote, maxLength - pos).0, Scan(c, input, quote, maxLength - pos).1)
        invariant forall i :: pos <= i < buffer.Length ==> buffer[i] == old(buffer[i])
        decreases maxLength - pos
      {
        ghost var c1, s1, stored := c, input, buffer[..pos];
        ScanStep(stored, c1, s1, quote, maxLength - pos);
        hide Scan;
        if c == BACKSLASH {
          c := GetCharAsChar();
        }
        buffer[pos] := c;
        assert buffer[..pos + 1] == stored + [c];
        pos := pos + 1;
        c := GetCharAsChar();
      }
      assert buffer[..pos] + [] == buffer[..pos];
      buffer[pos] := 0;
    }
  }

  lemma OpeningWritten(output: seq<byte>, input: seq<byte>)
    ensures output + Escaped(input) == output + OPENING + EscapeFrom(input, MAX_TEXT_LENGTH)
  {
  }

  lemma EscapeStep(output: seq<byte>, input: seq<byte>, room: nat)
    requires room >= 1
    ensures output + EscapeFrom(input, room)
         == if input == [] then output + [QUOTE]
            else if input[0] == BACKSLASH || input[0] == QUOTE
            then output + [BACKSLASH] + [input[0]] + EscapeFrom(input[1..], room - 1)
            else output + [input[0]] + EscapeFrom(input[1..], room - 1)
  {
  }

  lemma ChunkFull(output: seq<byte>, input: seq<byte>)
    ensures output + EscapeFrom(input, 0) == output + [QUOTE, SPACE] + Escaped(input)
  {
  }

  lemma StringIs(s: seq<byte>, max: nat, c: byte, r: seq<byte>, quote: bool)
    requires var (c0, r0) := SkipSpaces(s);
             quote == (c0 == QUOTE) && (c, r) == if quote then Next(r0) else (c0, r0)
    ensures StringOf(s, max) == Scan(c, r, quote, max)
  {
  }

  lemma ScanStep(stored: seq<byte>, c: byte, s: seq<byte>, quote: bool, room: nat)
    requires !Ends(c, quote) && room >= 1
    ensures var (e, s1) := if c == BACKSLASH then Next(s) else (c, s);
            var (d, s2) := Next(s1);
            (stored + Scan(c, s, quote, room).0, Scan(c, s, quote, room).1)
              == (stored + [e] + Scan(d, s2, quote, room - 1).0, Scan(d, s2, quote, room - 1).1)
  {
    var (e, s1) := if c == BACKSLASH then Next(s) else (c, s);
    var t := Scan(Next(s1).0, Next(s1).1, quote, room - 1).0;
    assert stored + ([e] + t) == stored + [e] + t;
  }

  lemma {:induction false} CStringUpTo(s: seq<byte>, pos: nat)
    requires pos < |s| && s[pos] == 0
    ensures CString(s) == CString(s[..pos])
    decreases pos
  {
    if pos > 0 && s[0] != 0 {
      CStringUpTo(s[1..], pos - 1);
      assert s[1..][..pos - 1] == s[..pos][1..];
    }
  }

  // ----- parse_cmd

  /** strtol on the digits at str, kept in an int. */
  method ReadCount(s: seq<byte>) returns (count: nat, letters: seq<byte>)
    ensures count == Counted(TakeNumber(s, 0).0) && letters == TakeNumber(s, 0).1
  {
    hide Counted;
    var i: nat := 0;
    var n: nat := 0;
    while i < |s| && IsDigit(s[i])
      invariant i <= |s| && TakeNumber(s[i..], n) == TakeNumber(s, 0)
    {
      assert s[i..][1..] == s[i + 1..];
      n := 10 * n + (s[i] - 48);
      i := i + 1;
    }
    count := Counted(n);
    letters := s[i..];
  }

  method CheckLetters(str: seq<byte>) returns (ok: bool)
    ensures ok == AllAlpha(str)
  {
    for i := 0 to |str|
      invariant AllAlpha(str[..i])
    {
      if !IsAlpha(str[i]) {
        return false;
      }
    }
    assert str[..|str|] == str;
    ok := true;
  }

  /** What parse_cmd says to the main loop. */
  datatype Verdict = Stop | Again | Failed(error: ParseError) | Run(count: nat, letters: seq<byte>)

  ghost predicate ParsedAs(v: Verdict, output: seq<byte>, input: seq<byte>, before: seq<byte>, p: Parsed) {
    match p
    case AtEnd(o) => v == Stop && output == before + o
    case NotACommand(o, rest) => v == Again && output == before + o && input == rest
    case Rejected(e, rest) => v == Failed(e) && output == before && input == rest
    case Command(n, letters, rest) => v == Run(n, letters) && output == before && input == rest
  }

  /** parse_cmd, with the command buffer. */
  method ParseCmd(io: Console, buffer: array<byte>) returns (v: Verdict)
    requires MAX_COMMAND_SIZE < buffer.Length
    modifies io, buffer
    ensures ParsedAs(v, io.output, io.input, old(io.output), Parse(old(io.input)))
  {
    hide StringOf, CString, EchoLine, TakeNumber, AllAlpha;
    io.ReadString(buffer, MAX_COMMAND_SIZE);
    ghost var rest := io.input;
    var str := FirstString(buffer);
    if str == [] || (str[0] != DASH && str[0] != SLASH) {
      io.Puts(buffer);
      io.PutChar(SPACE);
      assert io.output == old(io.output) + (str + [SPACE]);
      if NEWLINE in str {
        return Again;
      }
      v := EchoRest(io, str + [SPACE], old(io.output));
      return;
    }
    v := ParseLetters(str[1..]);
  }

  /** The string in a buffer that holds a zero, as a value. */
  method FirstString(buffer: array<byte>) returns (str: seq<byte>)
    requires 0 in buffer[..]
    ensures str == CString(buffer[..])
  {
    hide CString;
    ghost var s := buffer[..];
    var i: nat := 0;
    assert s[0..] == s && s[..0] + CString(s) == CString(s);
    while buffer[i] != 0
      invariant i < buffer.Length && 0 in s[i..]
      invariant s[..i] + CString(s[i..]) == CString(s)
      decreases buffer.Length - i
    {
      StringStep(s, i);
      i := i + 1;
    }
    StringStep(s, i);
    str := buffer[..i];
  }

  lemma StringStep(s: seq<byte>, i: nat)
    requires i < |s| && 0 in s[i..]
    ensures if s[i] == 0 then s[..i] + CString(s[i..]) == s[..i]
            else i + 1 < |s| && 0 in s[i + 1..] && s[..i] + CString(s[i..]) == s[..i + 1] + CString(s[i + 1..])
  {
    assert s[i..] == [s[i]] + s[i + 1..];
    assert s[..i + 1] == s[..i] + [s[i]];
  }

  method EchoRest(io: Console, ghost shown: seq<byte>, ghost before: seq<byte>) returns (v: Verdict)
    requires io.output == before + shown
    modifies io
    ensures ParsedAs(v, io.output, io.input, before, EchoLine(old(io.input), shown))
    ensures v == Stop || v == Again
  {
    var c := 0;
    ghost var o: seq<byte> := shown;
    while c != NEWLINE && c != EOF
      invariant io.output == before + o
      invariant c != NEWLINE && c != EOF ==> EchoLine(io.input, o) == EchoLine(old(io.input), shown)
      invariant c == EOF ==> EchoLine(old(io.input), shown) == AtEnd(o)
      invariant c == NEWLINE ==> EchoLine(old(io.input), shown) == NotACommand(o, io.input)
      decreases c != NEWLINE && c != EOF, |io.input|
    {
      c := io.GetChar();
      io.PutChar(c);
      ghost var b: byte := if c < 0 then 255 else c;
      o := o + [b];
    }
    v := if c == EOF then Stop else Again;
  }

  method ParseLetters(str: seq<byte>) returns (v: Verdict)
    ensures match ParseWord(str, [])
            case Rejected(e, _) => v == Failed(e)
            case Command(n, letters, _) => v == Run(n, letters)
            case _ => false
  {
    hide TakeNumber, AllAlpha, Counted;
    assert Counted(1) == 1;
    var count: nat, letters := 1, str;
    if str != [] && IsDigit(str[0]) {
      count, letters := ReadCount(str);
    }
    if letters != [] && IsAlpha(letters[0]) {
      var ok := CheckLetters(letters);
      if !ok {
        return Failed(InvalidLetters);
      }
    } else {
      return Failed(NoCommand);
    }
    v := Run(count, letters);
  }

  // ----- execute_cmd and the main loop

  datatype Status = Continue | Quit | Unmodelled(letter: byte)

  ghost predicate RanAs(st: Status, output: seq<byte>, input: seq<byte>, before: seq<byte>, r: Outcome) {
    match r
    case Running(o, rest) => st == Continue && output == before + o && input == rest
    case Exited(o) => st == Quit && output == before + o
    case Other(o, letter) => st == Unmodelled(letter) && output == before + o
  }

  lemma RanAfter(st: Status, output: seq<byte>, input: seq<byte>, mid: seq<byte>, before: seq<byte>, o: seq<byte>, r: Outcome)
    requires mid == before + o
    ensures RanAs(st, output, input, mid, r) == RanAs(st, output, input, before, Prepend(o, r))
  {
    assert mid + r.out == before + (o + r.out);
  }

  /** The letters of a command once. */
  method RunOnce(io: Console, letters: seq<byte>, text: array<byte>) returns (st: Status)
    requires MAX_TEXT_LENGTH < text.Length
    modifies io, text
    ensures RanAs(st, io.output, io.input, old(io.output), RunLetters(letters, old(io.input)))
    decreases |letters|
  {
    hide StringOf, CString;
    ghost var total := RunLetters(letters, io.input);
    ghost var done: seq<byte> := [];
    var i: nat := 0;
    assert io.output == old(io.output) + done;
    PrependNothing(RunLetters(letters[i..], io.input));
    assert letters[0..] == letters;
    while i < |letters|
      invariant i <= |letters| && io.output == old(io.output) + done
      invariant total == Prepend(done, RunLetters(letters[i..], io.input))
    {
      assert letters[i..][1..] == letters[i + 1..];
      ghost var s0 := io.input;
      var c := ToLower(letters[i]);
      if c == LETTER_D {
        io.ReadString(text, MAX_TEXT_LENGTH);
        io.Puts(text);
        PrependTwice(done, CString(text[..]), RunLetters(letters[i + 1..], io.input));
        done := done + CString(text[..]);
      } else if c == 110 {
        io.PutChar(NEWLINE);
        PrependTwice(done, [NEWLINE], RunLetters(letters[i + 1..], io.input));
        done := done + [NEWLINE];
      } else if c == 113 {
        assert done + [] == done;
        return Quit;
      } else if IsOther(c) {
        assert done + [] == done;
        return Unmodelled(c);
      }
      i := i + 1;
    }
    assert done + [] == done;
    st := Continue;
  }

  /** execute_cmd. */
  method Execute(io: Console, count: nat, letters: seq<byte>, text: array<byte>) returns (st: Status)
    requires MAX_TEXT_LENGTH < text.Length
    modifies io, text
    ensures RanAs(st, io.output, io.input, old(io.output), RunTimes(count, letters, old(io.input)))
  {
    hide RunLetters;
    ghost var total := RunTimes(count, letters, io.input);
    ghost var done: seq<byte> := [];
    PrependNothing(total);
    for i := 0 to count
      invariant io.output == old(io.output) + done
      invariant total == Prepend(done, RunTimes(count - i, letters, io.input))
    {
      ghost var mid, s0 := io.output, io.input;
      st := RunOnce(io, letters, text);
      RanAfter(st, io.output, io.input, mid, old(io.output), done, RunLetters(letters, s0));
      if st != Continue {
        return;
      }
      PrependTwice(done, RunLetters(letters, s0).out, RunTimes(count - i - 1, letters, io.input));
      done := done + RunLetters(letters, s0).out;
    }
    assert done + [] == done;
    st := Continue;
  }

  /** One turn of the main loop, behind what was displayed before. */
  lemma MainTurn(done: seq<byte>, s: seq<byte>)
    ensures match Parse(s)
            case AtEnd(o) => RunMain(s) == Exited(o)
            case NotACommand(o, rest) => |rest| < |s| && Prepend(done, RunMain(s)) == Prepend(done + o, RunMain(rest))
            case Rejected(_, rest) => |rest| < |s| && RunMain(s) == RunMain(rest)
            case Command(count, letters, s1) =>
              match RunTimes(count, letters, s1)
              case Running(o, rest) => |rest| < |s| && Prepend(done, RunMain(s)) == Prepend(done + o, RunMain(rest))
              case r => RunMain(s) == r
  {
    hide Parse, RunTimes, Prepend;
    ParseConsumes(s);
    match Parse(s)
    case NotACommand(o, rest) => PrependTwice(done, o, RunMain(rest));
    case Command(count, letters, s1) =>
      TimesConsume(count, letters, s1);
      match RunTimes(count, letters, s1) {
        case Running(o, rest) => PrependTwice(done, o, RunMain(rest));
        case _ =>
      }
    case _ =>
  }

  /** The output server: parse and execute until the program ends. */
  method Serve(io: Console) returns (st: Status)
    modifies io
    ensures RanAs(st, io.output, io.input, old(io.output), RunMain(old(io.input)))
    ensures st != Continue
  {
    hide Parse, RunTimes, RunMain;
    var command, text := new byte[MAX_COMMAND_SIZE + 1], new byte[MAX_TEXT_LENGTH + 1];
    ghost var total := RunMain(io.input);
    ghost var done: seq<byte> := [];
    PrependNothing(total);
    while true
      invariant io.output == old(io.output) + done
      invariant total == Prepend(done, RunMain(io.input))
      decreases |io.input|
    {
      ghost var mid, s0 := io.output, io.input;
      MainTurn(done, s0);
      var v := ParseCmd(io, command);
      match v
      case Stop =>
        return Quit;
      case Again =>
        done := done + Parse(s0).out;
      case Failed(_) =>
      case Run(count, letters) =>
        ghost var s1 := io.input;
        st := Execute(io, count, letters, text);
        RanAfter(st, io.output, io.input, mid, old(io.output), done, RunTimes(count, letters, s1));
        if st != Continue {
          return;
        }
        done := done + RunTimes(count, letters, s1).out;
    }
  }
}
