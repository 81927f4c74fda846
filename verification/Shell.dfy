/** The shell's line editor: what is in the command buffer is what is on the screen after the prompt. */
module Shell {
  import opened CString
  import opened Terminal

  const PROMPT: seq<Byte> := [79, 114, 98, 105, 116, 62, 32]

  lemma PromptSpells()
    ensures |PROMPT| == |"Orbit> "| && forall i :: 0 <= i < |PROMPT| ==> PROMPT[i] == "Orbit> "[i] as int
  {}

  const LIGHT_GREEN: Byte := 10
  const WHITE: Byte := 15

  // ---------------------------------------------------------------- lines and commands

  /** One key other than Enter: printable ones are appended while there is room, backspace takes one away. */
  function Edit(line: seq<Byte>, c: Byte): seq<Byte> {
    if c == BACKSPACE then if line == [] then line else line[..|line| - 1]
    else if 32 <= c <= 126 && |line| < 255 then line + [c]
    else line
  }

  predicate IsLine(line: seq<Byte>) {
    |line| <= 255 && forall i :: 0 <= i < |line| ==> 32 <= line[i] <= 126
  }

  /** The commands that a sequence of keys submits, and the line being edited at its end. */
  function Submitted(keys: seq<Byte>): (r: (seq<seq<Byte>>, seq<Byte>))
    ensures IsLine(r.1)
    decreases |keys|
  {
    if keys == [] then ([], []) else
      var (done, line) := Submitted(keys[..|keys| - 1]);
      var c := keys[|keys| - 1];
      if c == NEWLINE then (done + [line], []) else (done, Edit(line, c))
  }

  lemma SubmittedNext(keys: seq<Byte>, c: Byte)
    ensures var (done, line) := Submitted(keys);
      Submitted(keys + [c]) == if c == NEWLINE then (done + [line], []) else (done, Edit(line, c))
  {
    assert (keys + [c])[..|keys|] == keys;
  }

  lemma SubmittedSame(a: seq<Byte>, b: seq<Byte>, most: seq<Byte>, c: Byte, keys: seq<Byte>)
    requires Submitted(a + most) == Submitted(b + most) && keys == most + [c]
    ensures Submitted(a + keys) == Submitted(b + keys)
  {
    SubmittedNext(a + most, c);
    SubmittedNext(b + most, c);
    assert a + keys == a + most + [c];
    assert b + keys == b + most + [c];
  }

  /** What keys do depends on the commands and the line so far only. */
  lemma {:induction false} SubmittedOn(a: seq<Byte>, b: seq<Byte>, keys: seq<Byte>)
    requires Submitted(a) == Submitted(b)
    ensures Submitted(a + keys) == Submitted(b + keys)
    decreases |keys|
  {
    if keys == [] {
      assert a + keys == a;
      assert b + keys == b;
    } else {
      SubmittedOn(a, b, keys[..|keys| - 1]);
      SubmittedSame(a, b, keys[..|keys| - 1], keys[|keys| - 1], keys);
    }
  }

  /** Typing a line key by key, from an empty one, makes it the line being edited. */
  lemma {:induction false} LineTyped(keys: seq<Byte>, line: seq<Byte>)
    requires Submitted(keys).1 == [] && IsLine(line)
    ensures Submitted(keys + line) == (Submitted(keys).0, line)
    decreases |line|
  {
    if line == [] {
      assert keys + line == keys;
    } else {
      var most, c := line[..|line| - 1], line[|line| - 1];
      LineTyped(keys, most);
      SubmittedNext(keys + most, c);
      assert keys + line == (keys + most) + [c] && line == most + [c];
    }
  }

  /** The keys that type these lines, each with an Enter behind it. */
  function Typing(lines: seq<seq<Byte>>): seq<Byte> {
    if lines == [] then [] else Typing(lines[..|lines| - 1]) + lines[|lines| - 1] + [NEWLINE]
  }

  /** Every line of at most 255 characters from 32 to 126, blanks among them, is submitted as it was typed. */
  lemma {:induction false} LinesSubmitted(lines: seq<seq<Byte>>)
    requires forall i :: 0 <= i < |lines| ==> |lines[i]| <= 255 && forall c :: c in lines[i] ==> 32 <= c <= 126
    ensures Submitted(Typing(lines)) == (lines, [])
    decreases |lines|
  {
    if lines != [] {
      var most, line := lines[..|lines| - 1], lines[|lines| - 1];
      LinesSubmitted(most);
      assert forall i :: 0 <= i < |line| ==> line[i] in line;
      LineTyped(Typing(most), line);
      SubmittedNext(Typing(most) + line, NEWLINE);
      assert lines == most + [line];
    }
  }

  /** A character typed where there is room and taken back at once might as well not have been typed. */
  lemma TakenBack(keys: seq<Byte>, c: Byte, rest: seq<Byte>)
    requires 32 <= c <= 126 && |Submitted(keys).1| < 255
    ensures Submitted(keys + [c, BACKSPACE] + rest) == Submitted(keys + rest)
  {
    SubmittedNext(keys, c);
    SubmittedNext(keys + [c], BACKSPACE);
    assert keys + [c, BACKSPACE] == (keys + [c]) + [BACKSPACE];
    SubmittedOn(keys + [c, BACKSPACE], keys, rest);
  }

  /** Keys that do nothing: a backspace on an empty line, characters that cannot be printed, and the 256th one. */
  lemma Ignored(keys: seq<Byte>, c: Byte, rest: seq<Byte>)
    requires var line := Submitted(keys).1;
      (c == 8 && line == []) || (c != 8 && c != 10 && (c < 32 || c > 126)) || (c >= 32 && |line| == 255)
    ensures Submitted(keys + [c] + rest) == Submitted(keys + rest)
  {
    SubmittedNext(keys, c);
    SubmittedOn(keys + [c], keys, rest);
  }

  /** What a command does to the screen: perhaps clear it, then print. */
  datatype Response = Response(clears: bool, output: seq<Byte>)

  // ---------------------------------------------------------------- the editor

  class Editor {
    const screen: Screen
    const buffer: array<Byte>
    var length: nat
    /** Everything on the tape before the prompt. */
    ghost var before: seq<Byte>

    ghost function Line(): seq<Byte>
      reads this, buffer
      requires buffer.Length == 256 && length <= 255
    {
      buffer[..length]
    }

    /** While a line is edited: after `before`, the tape spells the prompt and then the buffer, up to the cursor,
      * and the window shows the whole of it. */
    ghost predicate Editing()
      reads this, buffer, screen, screen.buffer
    {
      && screen.Valid() && buffer.Length == 256 && length <= 255 && IsLine(Line())
      && screen.tape.text == before + PROMPT + Line()
      && 80 * screen.tape.top <= |before|
    }

    constructor (screen: Screen)
      requires screen.Valid()
      ensures this.screen == screen && buffer.Length == 256 && fresh(buffer) && length == 0
    {
      this.screen := screen;
      buffer := new Byte[256](_ => 0);
      length := 0;
    }

    /** The cells from the prompt's first one up to the cursor spell the prompt and the buffer. */
    lemma OnScreen(i: nat)
      requires Editing() && i < |PROMPT| + length
      ensures var start := |before| - 80 * screen.tape.top;
        && 0 <= start && start + |PROMPT| + length == 80 * screen.row + screen.column
        && screen.buffer[start + i] % 256 == (PROMPT + Line())[i]
    {
      assert (before + PROMPT + Line())[|before| + i] == (PROMPT + Line())[i];
    }

    /** shell_prompt */
    method Prompt()
      requires screen.Valid() && buffer.Length == 256 && length == 0
      modifies this`before, screen, screen.buffer
      ensures Editing() && before == old(screen.tape.text)
    {
      before := screen.tape.text;
      screen.SetColor(LIGHT_GREEN);
      ghost var t := screen.tape;
      screen.Write(PROMPT);
      PrintAppends(t, PROMPT);
      TopBound(t, PROMPT);
      screen.SetColor(WHITE);
    }

    /** One turn of the loop for a key other than Enter: no key ever touches the prompt or what is before it. */
    method Key(c: Byte)
      requires Editing() && c != NEWLINE
      modifies this`length, buffer, screen, screen.buffer
      ensures Editing() && Line() == Edit(old(Line()), c)
    {
      ghost var line, text := Line(), screen.tape.text;
      if c == BACKSPACE {
        if length > 0 {
          length := length - 1;
          screen.PutChar(BACKSPACE);
          assert screen.tape.text == text[..|text| - 1];
        }
      } else if 32 <= c <= 126 {
        if length < 255 {
          buffer[length] := c;
          length := length + 1;
          screen.PutChar(c);
          assert Line() == line + [c];
        }
      }
    }

    /** Enter: the line goes to execute_command as a C string, and a new prompt is shown. */
    method Enter(response: Response) returns (command: seq<Byte>)
      requires Editing()
      modifies this, buffer, screen, screen.buffer
      ensures Editing() && Line() == [] && command == old(Line())
      ensures var shown := if response.clears then Tape([], 0) else Put(old(screen.tape), NEWLINE);
        before == PutAll(shown, response.output).text
    {
      ghost var line := Line();
      screen.PutChar(NEWLINE);
      buffer[length] := 0;
      StrIs(buffer[..], line);
      var n := StrLen(buffer[..]);
      command := buffer[..n];
      if response.clears {
        screen.Initialize();
      }
      screen.Write(response.output);
      length := 0;
      Prompt();
    }

    /** shell_run's loop over any sequence of keys: what is executed, and what is left in the buffer and shown after
      * the prompt, are determined by the keys alone. */
    method Run(keys: seq<Byte>, responses: seq<Response>) returns (commands: seq<seq<Byte>>)
      requires Editing() && length == 0 && |responses| == |keys|
      modifies this, buffer, screen, screen.buffer
      ensures Editing() && (commands, Line()) == Submitted(keys)
    {
      commands := [];
      assert keys[..0] == [];
      for i := 0 to |keys|
        invariant Editing() && (commands, Line()) == Submitted(keys[..i])
      {
        assert keys[..i + 1][..i] == keys[..i];
        if keys[i] == NEWLINE {
          var command := Enter(responses[i]);
          commands := commands + [command];
        } else {
          Key(keys[i]);
        }
      }
      assert keys[..|keys|] == keys;
    }
  }

  /** Printing less than a screenful never scrolls away the row the cursor was in. */
  lemma {:induction false} TopBound(t: Tape, cs: seq<Byte>)
    requires InWindow(t) && Printable(cs) && |cs| <= 1840
    ensures 80 * PutAll(t, cs).top <= |t.text|
    decreases |cs|
  {
    if cs != [] {
      TopBound(t, cs[..|cs| - 1]);
      PrintAppends(t, cs[..|cs| - 1]);
    }
  }
}
