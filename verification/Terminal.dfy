/** The 80 by 25 text screen, as a window over an endless tape of 80-column rows. */
module Terminal {
  import opened CString

  const BACKSPACE: Byte := 8
  const NEWLINE: Byte := 10
  const SPACE: Byte := 32

  // ---------------------------------------------------------------- the tape

  /** Everything from the first row to the cursor, row by row without gaps, and the row at the top of the window.
    * What lies at or after the cursor is blank. */
  datatype Tape = Tape(text: seq<Byte>, top: nat)

  function Blanks(n: nat): (s: seq<Byte>)
    ensures |s| == n && forall i :: 0 <= i < n ==> s[i] == SPACE
  {
    if n == 0 then [] else Blanks(n - 1) + [SPACE]
  }

  /** The glyph at place i of the tape. */
  function Glyph(t: Tape, i: nat): Byte {
    if i < |t.text| then t.text[i] else SPACE
  }

  /** The cursor is inside the window. */
  predicate InWindow(t: Tape) {
    80 * t.top <= |t.text| < 80 * (t.top + 25)
  }

  /** The window follows the cursor down, and never moves back up. */
  function Follow(text: seq<Byte>, top: nat): Tape {
    Tape(text, if |text| / 80 - top == 25 then top + 1 else top)
  }

  function RowEnd(n: nat): nat {
    (n / 80 + 1) * 80
  }

  /** Typing c: a newline pads the row with blanks, a backspace takes one place away unless that would leave the
    * window, anything else is one more place. */
  function Put(t: Tape, c: Byte): Tape {
    if c == BACKSPACE then
      if |t.text| > 80 * t.top then t.(text := t.text[..|t.text| - 1]) else t
    else if c == NEWLINE then
      Follow(t.text + Blanks(RowEnd(|t.text|) - |t.text|), t.top)
    else
      Follow(t.text + [c], t.top)
  }

  function PutAll(t: Tape, cs: seq<Byte>): Tape
    decreases |cs|
  {
    if cs == [] then t else Put(PutAll(t, cs[..|cs| - 1]), cs[|cs| - 1])
  }

  lemma PutStaysInWindow(t: Tape, c: Byte)
    requires InWindow(t)
    ensures InWindow(Put(t, c)) && t.top <= Put(t, c).top <= t.top + 1
  {}

  /** What typing does to the tape. A newline fills the row up with blanks, one at least, and only it and a character in
    * the last column can move the window, from its last row. A backspace stops at the window's top left. */
  lemma PutMeans(t: Tape, c: Byte)
    requires InWindow(t)
    ensures var t', n := Put(t, c), |t.text|;
      if c == NEWLINE then
        && n < |t'.text| <= n + 80 && |t'.text| % 80 == 0 && t'.text[..n] == t.text
        && (forall i :: n <= i < |t'.text| ==> t'.text[i] == SPACE)
        && t'.top == t.top + if n >= 80 * (t.top + 24) then 1 else 0
      else if c == BACKSPACE then
        && t'.top == t.top && t'.text == if n == 80 * t.top then t.text else t.text[..n - 1]
      else
        && t'.text == t.text + [c] && t'.top == t.top + if n == 80 * (t.top + 25) - 1 then 1 else 0
  {}

  // ---------------------------------------------------------------- what is to be seen

  /** Cursor and glyphs. */
  datatype View = View(row: nat, column: nat, cells: seq<int>)

  function ViewOf(t: Tape): View
    requires InWindow(t)
  {
    View(|t.text| / 80 - t.top, |t.text| % 80, seq(2000, i requires 0 <= i < 2000 => Glyph(t, 80 * t.top + i)))
  }

  /** Every row moved up by one, the last one blank. */
  ghost predicate MovedUp(a: seq<int>, b: seq<int>) {
    && |a| == |b| == 2000
    && (forall i :: 0 <= i < 1920 ==> b[i] == a[i + 80])
    && (forall i :: 1920 <= i < 2000 ==> b[i] == SPACE)
  }

  /** The cursor goes to the start of the next row, and the screen scrolls if there is none. */
  ghost predicate NewRow(row: nat, cells: seq<int>, v': View) {
    && v'.column == 0
    && if row == 24 then v'.row == 24 && MovedUp(cells, v'.cells) else v'.row == row + 1 && v'.cells == cells
  }

  /** What one character does to the screen. */
  ghost predicate Shows(v: View, c: Byte, v': View) {
    && v.row < 25 && v.column < 80 && |v.cells| == 2000
    && if c == NEWLINE then NewRow(v.row, v.cells, v')
       else if c == BACKSPACE then
         && (if v.column > 0 then v'.row == v.row && v'.column == v.column - 1
             else if v.row > 0 then v'.row == v.row - 1 && v'.column == 79
             else v'.row == v'.column == 0)
         && v'.row < 25 && v'.column < 80 && v'.cells == v.cells[80 * v'.row + v'.column := SPACE]
       else if v.column == 79 then NewRow(v.row, v.cells[80 * v.row + 79 := c], v')
       else v' == View(v.row, v.column + 1, v.cells[80 * v.row + v.column := c])
  }

  /** The cells are the glyphs of the tape from base on. */
  ghost predicate Spells(cells: seq<int>, t: Tape, base: nat) {
    |cells| == 2000 && forall i :: 0 <= i < 2000 ==> cells[i] == Glyph(t, base + i)
  }

  lemma ViewSpells(t: Tape, base: nat)
    requires InWindow(t) && base == 80 * t.top
    ensures Spells(ViewOf(t).cells, t, base)
  {}

  lemma SpellsSame(a: seq<int>, b: seq<int>, t: Tape, base: nat)
    requires Spells(a, t, base) && Spells(b, t, base)
    ensures a == b
  {}

  /** On the screen: a newline, a backspace and a printed character each do their own, and no other cell changes. */
  lemma PutShows(t: Tape, c: Byte)
    requires InWindow(t)
    ensures InWindow(Put(t, c)) && Shows(ViewOf(t), c, ViewOf(Put(t, c)))
  {
    PutStaysInWindow(t, c);
    Place(t);
    ViewSpells(t, 80 * t.top);
    if c == NEWLINE {
      NewlineShows(t, ViewOf(t));
    } else if c == BACKSPACE {
      Place(Put(t, c));
      ViewSpells(Put(t, c), 80 * t.top);
      BackspaceShows(t, Put(t, c), 80 * t.top, ViewOf(t), ViewOf(Put(t, c)));
    } else {
      PrintShows(t, c, 80 * t.top, ViewOf(t));
    }
  }

  lemma NewlineShows(t: Tape, v: View)
    requires InWindow(t) && v == ViewOf(t) && v.row < 25 && |t.text| == 80 * (t.top + v.row) + v.column && v.column < 80
    requires Spells(v.cells, t, 80 * t.top)
    ensures InWindow(Put(t, NEWLINE)) && NewRow(v.row, v.cells, ViewOf(Put(t, NEWLINE)))
  {
    var text := t.text + Blanks(RowEnd(|t.text|) - |t.text|);
    NewRowShows(t.top, Tape(text, t.top), 80 * t.top, v.row, v.cells);
  }

  lemma BackspaceShows(t: Tape, t': Tape, base: nat, v: View, v': View)
    requires t' == Put(t, BACKSPACE) && base == 80 * t.top && Spells(v.cells, t, base) && Spells(v'.cells, t', base)
    requires v.row < 25 && v.column < 80 && |t.text| == base + 80 * v.row + v.column
    requires v'.row < 25 && v'.column < 80 && |t'.text| == base + 80 * v'.row + v'.column
    ensures Shows(v, BACKSPACE, v')
  {
    var at := 80 * v'.row + v'.column;
    Erased(t, t', base, at, v.cells);
    SpellsSame(v'.cells, v.cells[at := SPACE], t', base);
  }

  lemma Erased(t: Tape, t': Tape, base: nat, at: nat, cells: seq<int>)
    requires Spells(cells, t, base) && t' == Put(t, BACKSPACE) && base == 80 * t.top
    requires |t'.text| == base + at && at < 2000
    ensures Spells(cells[at := SPACE], t', base)
  {}

  lemma PrintShows(t: Tape, c: Byte, base: nat, v: View)
    requires InWindow(t) && c != NEWLINE && c != BACKSPACE && base == 80 * t.top && v == ViewOf(t)
    requires v.row < 25 && v.column < 80 && |t.text| == base + 80 * v.row + v.column && Spells(v.cells, t, base)
    ensures InWindow(Put(t, c)) && Shows(v, c, ViewOf(Put(t, c)))
  {
    var u, at := Tape(t.text + [c], t.top), 80 * v.row + v.column;
    Printed(t, u, c, base, at, v.cells);
    if v.column == 79 {
      NewRowShows(t.top, u, base, v.row, v.cells[at := c]);
    } else {
      Place(u);
      ViewSpells(u, base);
      SpellsSame(ViewOf(u).cells, v.cells[at := c], u, base);
    }
  }

  lemma Printed(t: Tape, u: Tape, c: Byte, base: nat, at: nat, cells: seq<int>)
    requires Spells(cells, t, base) && u == Tape(t.text + [c], t.top) && |t.text| == base + at && at < 2000
    ensures Spells(cells[at := c], u, base)
  {}

  /** At the end of a row: the same cells, or one row further down the tape. */
  lemma NewRowShows(top: nat, u: Tape, base: nat, row: nat, cells: seq<int>)
    requires row < 25 && u.top == top && |u.text| == base + 80 * (row + 1) && base == 80 * top && Spells(cells, u, base)
    ensures var t' := Follow(u.text, top); InWindow(t') && NewRow(row, cells, ViewOf(t'))
  {
    var t' := Follow(u.text, top);
    Place(t');
    ViewSpells(t', 80 * t'.top);
    if row != 24 {
      SpellsSame(ViewOf(t').cells, cells, t', base);
    } else {
      Lower(u, t', base, cells, ViewOf(t').cells);
    }
  }

  lemma Lower(u: Tape, t': Tape, base: nat, cells: seq<int>, cells': seq<int>)
    requires t'.text == u.text && |u.text| == base + 2000 && Spells(cells, u, base) && Spells(cells', t', base + 80)
    ensures MovedUp(cells, cells')
  {
    forall i | 0 <= i < 1920
      ensures cells'[i] == cells[i + 80]
    {
      assert base + 80 + i == base + (i + 80);
    }
  }

  /** The cursor's place on the tape. */
  lemma Place(t: Tape)
    requires InWindow(t)
    ensures var v := ViewOf(t); v.row < 25 && v.column < 80 && |t.text| == 80 * (t.top + v.row) + v.column
  {}

  /** Backspace undoes any printed character, across the end of a row and even after it scrolled the window. */
  lemma BackspaceUndoes(t: Tape, c: Byte)
    requires InWindow(t) && c != BACKSPACE && c != NEWLINE
    ensures Put(Put(t, c), BACKSPACE).text == t.text
  {
    assert (t.text + [c])[..|t.text|] == t.text;
  }

  lemma {:induction false} PutAllAppend(t: Tape, cs: seq<Byte>, ds: seq<Byte>)
    ensures PutAll(t, cs + ds) == PutAll(PutAll(t, cs), ds)
    decreases |ds|
  {
    if ds == [] {
      assert cs + ds == cs;
    } else {
      PutAllAppend(t, cs, ds[..|ds| - 1]);
      assert (cs + ds)[..|cs + ds| - 1] == cs + ds[..|ds| - 1];
    }
  }

  predicate Printable(cs: seq<Byte>) {
    BACKSPACE !in cs && NEWLINE !in cs
  }

  /** A run of printed characters is appended as it is, wherever it wraps and scrolls. */
  lemma {:induction false} PrintAppends(t: Tape, cs: seq<Byte>)
    requires InWindow(t) && Printable(cs)
    ensures PutAll(t, cs).text == t.text + cs && InWindow(PutAll(t, cs))
    decreases |cs|
  {
    if cs != [] {
      var ds := cs[..|cs| - 1];
      PrintAppends(t, ds);
      PutStaysInWindow(PutAll(t, ds), cs[|cs| - 1]);
      assert cs == ds + [cs[|cs| - 1]];
    }
  }

  // ---------------------------------------------------------------- the screen

  class Screen {
    var row: nat
    var column: nat
    var color: Byte
    /** One 16-bit cell a place: the glyph in the low byte, the colour in the high one. */
    const buffer: array<nat>
    ghost var tape: Tape

    /** The screen shows the tape from the window's top on. */
    ghost predicate Valid()
      reads this, buffer
    {
      && buffer.Length == 2000 && row < 25 && column < 80
      && |tape.text| == 80 * (tape.top + row) + column && Shown()
    }

    ghost function Now(): View
      reads this, buffer
      requires buffer.Length == 2000
    {
      View(row, column, seq(2000, i requires 0 <= i < 2000 reads this, buffer => buffer[i] % 256))
    }

    lemma NowIs()
      requires Valid()
      ensures InWindow(tape) && Now() == ViewOf(tape)
    {}

    ghost predicate Shown()
      reads this, buffer
      requires buffer.Length == 2000
    {
      forall i :: 0 <= i < 2000 ==> buffer[i] % 256 == Glyph(tape, 80 * tape.top + i)
    }

    constructor ()
      ensures Valid() && fresh(buffer) && tape == Tape([], 0)
    {
      row, column, color := 0, 0, 7;
      buffer := new nat[2000];
      tape := Tape([], 0);
      new;
      Clear();
    }

    /** terminal_initialize: a new tape. */
    method Initialize()
      requires buffer.Length == 2000
      modifies this, buffer
      ensures Valid() && tape == Tape([], 0)
    {
      row, column, color := 0, 0, 7;
      tape := Tape([], 0);
      Clear();
    }

    /** terminal_clear: every cell blank; the cursor stays where it is. */
    method Clear()
      requires buffer.Length == 2000
      modifies buffer
      ensures forall i :: 0 <= i < 2000 ==> buffer[i] % 256 == SPACE
    {
      for y := 0 to 25
        invariant forall i :: 0 <= i < 80 * y ==> buffer[i] % 256 == SPACE
      {
        for x := 0 to 80
          invariant forall i :: 0 <= i < 80 * y + x ==> buffer[i] % 256 == SPACE
        {
          buffer[y * 80 + x] := SPACE + 256 * color;
        }
      }
    }

    /** terminal_scroll: rows move up by one, the last one becomes blank. */
    method Scroll()
      requires buffer.Length == 2000
      modifies buffer
      ensures forall i :: 0 <= i < 1920 ==> buffer[i] == old(buffer[i + 80])
      ensures forall i :: 1920 <= i < 2000 ==> buffer[i] % 256 == SPACE
    {
      for y := 0 to 24
        invariant forall i :: 0 <= i < 80 * y ==> buffer[i] == old(buffer[i + 80])
        invariant forall i :: 80 * y <= i < 2000 ==> buffer[i] == old(buffer[i])
      {
        for x := 0 to 80
          invariant forall i :: 0 <= i < 80 * y + x ==> buffer[i] == old(buffer[i + 80])
          invariant forall i :: 80 * y + x <= i < 2000 ==> buffer[i] == old(buffer[i])
        {
          buffer[y * 80 + x] := buffer[(y + 1) * 80 + x];
        }
      }
      for x := 0 to 80
        invariant forall i :: 0 <= i < 1920 ==> buffer[i] == old(buffer[i + 80])
        invariant forall i :: 1920 <= i < 1920 + x ==> buffer[i] % 256 == SPACE
      {
        buffer[24 * 80 + x] := SPACE + 256 * color;
      }
    }

    method PutEntryAt(c: Byte, x: nat, y: nat)
      requires buffer.Length == 2000 && x < 80 && y < 25
      modifies buffer
      ensures forall i :: 0 <= i < 2000 ==> buffer[i] % 256 == if i == y * 80 + x then c else old(buffer[i]) % 256
    {
      buffer[y * 80 + x] := c + 256 * color;
    }

    /** terminal_putchar */
    method PutChar(c: Byte)
      requires Valid()
      modifies this`row, this`column, this`tape, buffer
      ensures Valid() && tape == Put(old(tape), c) && Shows(old(Now()), c, Now())
    {
      NowIs();
      PutShows(tape, c);
      PutOnScreen(c);
      NowIs();
    }

    method PutOnScreen(c: Byte)
      requires Valid()
      modifies this`row, this`column, this`tape, buffer
      ensures Valid() && tape == Put(old(tape), c)
    {
      if c == BACKSPACE {
        Erase();
        return;
      }
      if c == NEWLINE {
        column := 0;
        tape := tape.(text := tape.text + Blanks(RowEnd(|tape.text|) - |tape.text|));
        NextRow();
        return;
      }
      PutEntryAt(c, column, row);
      column := column + 1;
      tape := tape.(text := tape.text + [c]);
      if column == 80 {
        column := 0;
        NextRow();
      }
    }

    /** The cursor goes one place back, inside the window, and blanks the place it reaches. */
    method Erase()
      requires Valid()
      modifies this`row, this`column, this`tape, buffer
      ensures Valid() && tape == Put(old(tape), BACKSPACE)
    {
      tape := Put(tape, BACKSPACE);
      if column > 0 {
        column := column - 1;
      } else if row > 0 {
        row := row - 1;
        column := 79;
      }
      PutEntryAt(SPACE, column, row);
    }

    /** The cursor, at the end of a row, goes to the next one; below the last row the window scrolls. */
    method NextRow()
      requires buffer.Length == 2000 && row < 25 && column == 0 && Shown()
      requires |tape.text| == 80 * (tape.top + row + 1)
      modifies this`row, this`tape, buffer
      ensures Valid() && tape == Follow(old(tape.text), old(tape.top))
    {
      tape := Follow(tape.text, tape.top);
      row := row + 1;
      if row == 25 {
        Scroll();
        row := 24;
      }
    }

    /** terminal_write */
    method Write(data: seq<Byte>)
      requires Valid()
      modifies this`row, this`column, this`tape, buffer
      ensures Valid() && tape == PutAll(old(tape), data)
    {
      assert data[..0] == [];
      for i := 0 to |data|
        invariant Valid() && tape == PutAll(old(tape), data[..i])
      {
        PutChar(data[i]);
        assert data[..i + 1][..i] == data[..i];
      }
      assert data[..|data|] == data;
    }

    /** terminal_writestring: what comes before the terminator. */
    method WriteString(data: seq<Byte>)
      requires Valid() && 0 in data
      modifies this`row, this`column, this`tape, buffer
      ensures Valid() && tape == PutAll(old(tape), Str(data))
    {
      var size := StrLen(data);
      Write(data[..size]);
    }

    method SetColor(color: Byte)
      modifies this`color
      ensures this.color == color
    {
      this.color := color;
    }
  }
}
