/** The keyboard's ring buffer: the interrupt puts characters in, keyboard_getchar takes them out, a read or a write
  * at a time. */
module Keyboard {
  import opened CString
  import opened Terminal

  const SIZE: nat := 256

  // ---------------------------------------------------------------- scancodes

  /** Scan code set 1, US layout, up to the space bar; all other codes give 0. */
  const LOWER: seq<Byte> :=
    [0, 27, 49, 50, 51, 52, 53, 54, 55, 56, 57, 48, 45, 61, 8] +
    [9, 113, 119, 101, 114, 116, 121, 117, 105, 111, 112, 91, 93, 10, 0] +
    [97, 115, 100, 102, 103, 104, 106, 107, 108, 59, 39, 96, 0] +
    [92, 122, 120, 99, 118, 98, 110, 109, 44, 46, 47] +
    [0, 42, 0, 32]

  const UPPER: seq<Byte> :=
    [0, 27, 33, 64, 35, 36, 37, 94, 38, 42, 40, 41, 95, 43, 8] +
    [9, 81, 87, 69, 82, 84, 89, 85, 73, 79, 80, 123, 125, 10, 0] +
    [65, 83, 68, 70, 71, 72, 74, 75, 76, 58, 34, 126, 0] +
    [124, 90, 88, 67, 86, 66, 78, 77, 60, 62, 63] +
    [0, 42, 0, 32]

  function Lookup(table: seq<Byte>, code: Byte): Byte {
    if code < |table| then table[code] else 0
  }

  predicate IsShift(code: Byte) {
    code == 0x2A || code == 0x36 || code == 0xAA || code == 0xB6
  }

  /** The character a scancode stands for, 0 for none: shift keys and releases give none. */
  function Decode(shift: bool, code: Byte): Byte {
    if IsShift(code) || code >= 0x80 then 0 else Lookup(if shift then UPPER else LOWER, code)
  }

  function ShiftAfter(shift: bool, code: Byte): bool {
    if code == 0x2A || code == 0x36 then true else if code == 0xAA || code == 0xB6 then false else shift
  }

  /** The keys from scancode `first` on stand for these characters. */
  ghost predicate KeyRow(shift: bool, first: Byte, text: string) {
    forall i :: 0 <= i < |text| && first + i < 256 ==> Decode(shift, first + i) == text[i] as int
  }

  /** The keyboard, row by row, without and with shift. */
  lemma Keys()
    ensures KeyRow(false, 2, "1234567890-=") && KeyRow(true, 2, "!@#$%^&*()_+")
    ensures KeyRow(false, 16, "qwertyuiop[]") && KeyRow(true, 16, "QWERTYUIOP{}")
    ensures KeyRow(false, 30, "asdfghjkl;'`") && KeyRow(true, 30, "ASDFGHJKL:\"~")
    ensures KeyRow(false, 43, "\\zxcvbnm,./") && KeyRow(true, 43, "|ZXCVBNM<>?")
    ensures forall shift :: Decode(shift, 14) == BACKSPACE && Decode(shift, 28) == NEWLINE && Decode(shift, 57) == SPACE
    ensures forall shift :: Decode(shift, 1) == 27 && Decode(shift, 15) == 9 && Decode(shift, 55) == '*' as int
  {
    DigitKeys();
    TopKeys();
    HomeKeys();
    BottomKeys();
    OtherKeys();
  }

  lemma DigitKeys()
    ensures KeyRow(false, 2, "1234567890-=") && KeyRow(true, 2, "!@#$%^&*()_+")
  {
    forall i: nat | i < 12
      ensures LOWER[2 + i] == "1234567890-="[i] as int && UPPER[2 + i] == "!@#$%^&*()_+"[i] as int
    {
      DigitRow(i);
    }
  }

  lemma TopKeys()
    ensures KeyRow(false, 16, "qwertyuiop[]") && KeyRow(true, 16, "QWERTYUIOP{}")
  {
    forall i: nat | i < 12
      ensures LOWER[16 + i] == "qwertyuiop[]"[i] as int && UPPER[16 + i] == "QWERTYUIOP{}"[i] as int
    {
      TopRow(i);
    }
  }

  lemma HomeKeys()
    ensures KeyRow(false, 30, "asdfghjkl;'`") && KeyRow(true, 30, "ASDFGHJKL:\"~")
  {
    forall i: nat | i < 12
      ensures LOWER[30 + i] == "asdfghjkl;'`"[i] as int && UPPER[30 + i] == "ASDFGHJKL:\"~"[i] as int
    {
      HomeRow(i);
    }
  }

  lemma BottomKeys()
    ensures KeyRow(false, 43, "\\zxcvbnm,./") && KeyRow(true, 43, "|ZXCVBNM<>?")
  {
    forall i: nat | i < 11
      ensures LOWER[43 + i] == "\\zxcvbnm,./"[i] as int && UPPER[43 + i] == "|ZXCVBNM<>?"[i] as int
    {
      BottomRow(i);
    }
  }

  lemma OtherKeys()
    ensures LOWER[14] == UPPER[14] == 8 && LOWER[28] == UPPER[28] == 10 && LOWER[57] == UPPER[57] == 32
    ensures LOWER[1] == UPPER[1] == 27 && LOWER[15] == UPPER[15] == 9 && LOWER[55] == UPPER[55] == 42
    ensures LOWER[0] == UPPER[0] == LOWER[29] == UPPER[29] == LOWER[56] == UPPER[56] == 0
    ensures |LOWER| == |UPPER| == 58
  {}

  lemma DigitRow(i: nat)
    requires i < 12
    ensures LOWER[2 + i] == "1234567890-="[i] as int && UPPER[2 + i] == "!@#$%^&*()_+"[i] as int
  {}

  lemma TopRow(i: nat)
    requires i < 12
    ensures LOWER[16 + i] == "qwertyuiop[]"[i] as int && UPPER[16 + i] == "QWERTYUIOP{}"[i] as int
  {}

  lemma HomeRow(i: nat)
    requires i < 12
    ensures LOWER[30 + i] == "asdfghjkl;'`"[i] as int && UPPER[30 + i] == "ASDFGHJKL:\"~"[i] as int
  {}

  lemma BottomRow(i: nat)
    requires i < 11
    ensures LOWER[43 + i] == "\\zxcvbnm,./"[i] as int && UPPER[43 + i] == "|ZXCVBNM<>?"[i] as int
  {}

  /** Releases, codes behind the space bar, and control, shift and alt type nothing. */
  lemma ReleasesTypeNothing(shift: bool, code: Byte)
    requires code >= 0x80 || code > 57 || code in [0, 29, 0x2A, 0x36, 56]
    ensures Decode(shift, code) == 0
  {
    OtherKeys();
  }

  /** The keys of the letters, in the order of the alphabet. */
  const LETTERS: seq<Byte> :=
    [30, 48, 46, 32, 18, 33, 34, 35, 23, 36, 37, 38, 50, 49, 24, 25, 16, 19, 31, 20, 22, 47, 17, 45, 21, 44]

  /** Every letter has a key, and with shift the same key gives its capital. */
  lemma LetterKeys(i: nat)
    requires i < 26
    ensures Decode(false, LETTERS[i]) == 'a' as int + i && Decode(true, LETTERS[i]) == 'A' as int + i
  {
    if i < 13 { FirstLetters(i, LETTERS[i]); } else { LastLetters(i, LETTERS[i]); }
  }

  lemma FirstLetters(i: nat, code: Byte)
    requires i < 13 && code == LETTERS[i]
    ensures code < 58 && !IsShift(code) && LOWER[code] == 'a' as int + i && UPPER[code] == 'A' as int + i
  {}

  lemma LastLetters(i: nat, code: Byte)
    requires 13 <= i < 26 && code == LETTERS[i]
    ensures code < 58 && !IsShift(code) && LOWER[code] == 'a' as int + i && UPPER[code] == 'A' as int + i
  {}

  predicate IsLetterKey(code: Byte) {
    16 <= code <= 25 || 30 <= code <= 38 || 44 <= code <= 50
  }

  /** It has no other. */
  lemma LetterKeyIs(code: Byte)
    requires IsLetterKey(code)
    ensures var c := Decode(false, code); 'a' as int <= c <= 'z' as int && LETTERS[c - 'a' as int] == code
  {}

  lemma DigitKeyIs(code: Byte)
    requires 2 <= code <= 11
    ensures Decode(false, code) == if code == 11 then '0' as int else '1' as int + (code - 2)
  {
    DigitRow(code - 2);
  }

  /** No two of the letter and digit keys give the same character. */
  lemma KeysApart(a: Byte, b: Byte)
    requires (IsLetterKey(a) || 2 <= a <= 11) && (IsLetterKey(b) || 2 <= b <= 11) && a != b
    ensures Decode(false, a) != Decode(false, b)
  {
    if IsLetterKey(a) { LetterKeyIs(a); } else { DigitKeyIs(a); }
    if IsLetterKey(b) { LetterKeyIs(b); } else { DigitKeyIs(b); }
  }

  // ---------------------------------------------------------------- the ring

  datatype Ring = Ring(buf: seq<Byte>, head: nat, tail: nat, shift: bool)

  function Wrap(i: nat): nat {
    (i + 1) % 256
  }

  predicate Full(r: Ring) {
    Wrap(r.head) == r.tail
  }

  /** keyboard_callback: runs with interrupts off, so as one step. */
  function Interrupt(r: Ring, code: Byte): Ring
    requires |r.buf| == SIZE && r.head < SIZE
  {
    var c := Decode(r.shift, code);
    var r' := r.(shift := ShiftAfter(r.shift, code));
    if c != 0 && !Full(r) then r'.(buf := r.buf[r.head := c], head := Wrap(r.head)) else r'
  }

  // ---------------------------------------------------------------- the machine

  /** Where keyboard_getchar is: about to read the head; to compare it with the tail; to read the tail for the load;
    * to load the character; to read the tail for the increment; to store it and return. */
  datatype Pc = ReadHead | CompareTail(h: nat) | ReadTail | Load(t: nat) | Increment(c: Byte) | Store(c: Byte, t: nat)

  /** With the history of the characters put into the ring and of those returned. */
  datatype Machine = Machine(ring: Ring, pc: Pc, accepted: seq<Byte>, returned: seq<Byte>)

  datatype Event = Scan(code: Byte) | Step

  ghost predicate WellSized(m: Machine) {
    |m.ring.buf| == SIZE && m.ring.head < SIZE && m.ring.tail < SIZE && (m.pc.Load? ==> m.pc.t < SIZE)
  }

  function Next(m: Machine, e: Event): Machine
    requires WellSized(m)
  {
    match e
    case Scan(code) =>
      var c := Decode(m.ring.shift, code);
      m.(ring := Interrupt(m.ring, code), accepted := if c != 0 && !Full(m.ring) then m.accepted + [c] else m.accepted)
    case Step =>
      match m.pc
      case ReadHead => m.(pc := CompareTail(m.ring.head))
      case CompareTail(h) => m.(pc := if h != m.ring.tail then ReadTail else ReadHead)
      case ReadTail => m.(pc := Load(m.ring.tail))
      case Load(t) => m.(pc := Increment(m.ring.buf[t]))
      case Increment(c) => m.(pc := Store(c, Wrap(m.ring.tail)))
      case Store(c, t) => m.(ring := m.ring.(tail := t), pc := ReadHead, returned := m.returned + [c])
  }

  // ---------------------------------------------------------------- the invariant

  /** The place of the i-th unread character. */
  function Slot(tail: nat, i: nat): nat {
    if tail + i < 256 then tail + i else tail + i - 256
  }

  /** The ring holds the characters accepted and not yet returned, oldest first. */
  ghost predicate Holds(r: Ring, pending: seq<Byte>) {
    && |r.buf| == SIZE && r.tail < SIZE && |pending| <= 255 && r.head == Slot(r.tail, |pending|)
    && forall i :: 0 <= i < |pending| ==> r.buf[Slot(r.tail, i)] == pending[i]
  }

  ghost function Pending(m: Machine): seq<Byte>
    requires |m.returned| <= |m.accepted|
  {
    m.accepted[|m.returned|..]
  }

  ghost predicate Inv(m: Machine) {
    && |m.returned| <= |m.accepted| && m.returned == m.accepted[..|m.returned|]
    && Holds(m.ring, Pending(m))
    && match m.pc
       case ReadHead => true
       case CompareTail(h) => h != m.ring.tail ==> Pending(m) != []
       case ReadTail => Pending(m) != []
       case Load(t) => Pending(m) != [] && t == m.ring.tail
       case Increment(c) => Pending(m) != [] && c == Pending(m)[0]
       case Store(c, t) => Pending(m) != [] && c == Pending(m)[0] && t == Wrap(m.ring.tail)
  }

  /** The ring is full exactly when 255 characters are pending, and the slot at the head is nobody's: writing it
    * overwrites no unread character. */
  lemma FullMeans255(r: Ring, pending: seq<Byte>)
    requires Holds(r, pending)
    ensures Full(r) <==> |pending| == 255
    ensures forall i :: 0 <= i < |pending| ==> Slot(r.tail, i) != r.head
  {}

  lemma ScanKeeps(m: Machine, code: Byte)
    requires Inv(m)
    ensures Inv(Next(m, Scan(code)))
    ensures var c := Decode(m.ring.shift, code);
      Next(m, Scan(code)).accepted == if c != 0 && |Pending(m)| < 255 then m.accepted + [c] else m.accepted
  {
    FullMeans255(m.ring, Pending(m));
    var m' := Next(m, Scan(code));
    var c := Decode(m.ring.shift, code);
    if c != 0 && !Full(m.ring) {
      assert Pending(m') == Pending(m) + [c];
    }
  }

  lemma StepKeeps(m: Machine)
    requires Inv(m)
    ensures Inv(Next(m, Step)) && Next(m, Step).accepted == m.accepted
  {
    if m.pc.Store? {
      var m' := Next(m, Step);
      assert Pending(m') == Pending(m)[1..];
      forall i | 0 <= i < |Pending(m')|
        ensures m'.ring.buf[Slot(m'.ring.tail, i)] == Pending(m')[i]
      {
        assert Slot(m'.ring.tail, i) == Slot(m.ring.tail, i + 1);
      }
    }
  }

  lemma NextKeeps(m: Machine, e: Event)
    requires Inv(m)
    ensures WellSized(m) && Inv(Next(m, e)) && m.accepted <= Next(m, e).accepted
  {
    match e
    case Scan(code) => ScanKeeps(m, code);
    case Step => StepKeeps(m);
  }

  // ---------------------------------------------------------------- runs

  function Run(m: Machine, es: seq<Event>): Machine
    requires Inv(m)
    decreases |es|
  {
    if es == [] then m else
      NextKeeps(m, es[0]);
      Run(Next(m, es[0]), es[1..])
  }

  const START: Machine := Machine(Ring(seq(SIZE, _ => 0), 0, 0, false), ReadHead, [], [])

  /** In every interleaving: what was returned is a prefix of what was accepted, in order and without repetition, and
    * never more than 255 characters lie in between. */
  lemma {:induction false} RunInOrder(m: Machine, es: seq<Event>)
    requires Inv(m)
    ensures var m' := Run(m, es);
      && Inv(m') && m.accepted <= m'.accepted
      && m'.returned <= m'.accepted && |m'.accepted| - |m'.returned| <= 255
    decreases |es|
  {
    if es != [] {
      NextKeeps(m, es[0]);
      RunInOrder(Next(m, es[0]), es[1..]);
    }
  }

  lemma BootInOrder(es: seq<Event>)
    ensures Inv(START) && Run(START, es).returned <= Run(START, es).accepted
  {
    RunInOrder(START, es);
  }

  /** The character an event types, if any. */
  function Chars(shift: bool, e: Event): seq<Byte> {
    if e.Scan? && Decode(shift, e.code) != 0 then [Decode(shift, e.code)] else []
  }

  function ShiftBy(shift: bool, e: Event): bool {
    if e.Scan? then ShiftAfter(shift, e.code) else shift
  }

  predicate ShiftPress(e: Event) {
    e.Scan? && (e.code == 0x2A || e.code == 0x36)
  }

  predicate ShiftRelease(e: Event) {
    e.Scan? && (e.code == 0xAA || e.code == 0xB6)
  }

  /** From event i on no shift key is released. */
  ghost predicate NoRelease(es: seq<Event>, i: nat) {
    forall j :: i <= j < |es| ==> !ShiftRelease(es[j])
  }

  /** Shift is on exactly when a shift key went down and none has come up since: it lasts from a press to the next
    * release of either shift key. */
  lemma {:induction false} ShiftLasts(m: Machine, es: seq<Event>)
    requires Inv(m)
    ensures Run(m, es).ring.shift <==>
      (m.ring.shift && NoRelease(es, 0)) || exists i: nat :: i < |es| && ShiftPress(es[i]) && NoRelease(es, i)
    decreases |es|
  {
    if es != [] {
      NextKeeps(m, es[0]);
      Accepts(m, es[0]);
      var rest, m' := es[1..], Next(m, es[0]);
      ShiftLasts(m', rest);
      forall i: nat | i <= |rest|
        ensures NoRelease(es, i + 1) <==> NoRelease(rest, i)
      {
        ReleaseShifts(es, rest, i);
      }
      ShiftFirst(es, rest, m.ring.shift, m'.ring.shift);
    }
  }

  lemma ReleaseShifts(es: seq<Event>, rest: seq<Event>, i: nat)
    requires es != [] && rest == es[1..]
    ensures NoRelease(es, i + 1) <==> NoRelease(rest, i)
  {
    assert forall j :: i <= j < |rest| ==> rest[j] == es[j + 1];
    if NoRelease(rest, i) {
      forall j | i + 1 <= j < |es|
        ensures !ShiftRelease(es[j])
      {
        assert es[j] == rest[j - 1];
      }
    }
  }

  lemma ShiftFirst(es: seq<Event>, rest: seq<Event>, shift: bool, shift': bool)
    requires es != [] && rest == es[1..] && shift' == ShiftBy(shift, es[0])
    requires forall i: nat :: i <= |rest| ==> (NoRelease(es, i + 1) <==> NoRelease(rest, i))
    ensures ((shift && NoRelease(es, 0)) || exists i: nat :: i < |es| && ShiftPress(es[i]) && NoRelease(es, i))
       <==> ((shift' && NoRelease(rest, 0)) || exists i: nat :: i < |rest| && ShiftPress(rest[i]) && NoRelease(rest, i))
  {
    assert NoRelease(es, 0) <==> !ShiftRelease(es[0]) && NoRelease(es, 1);
    if i: nat :| i < |rest| && ShiftPress(rest[i]) && NoRelease(rest, i) {
      assert es[i + 1] == rest[i] && NoRelease(es, i + 1);
    }
    if i: nat :| i < |es| && ShiftPress(es[i]) && NoRelease(es, i) {
      if i > 0 {
        assert rest[i - 1] == es[i] && NoRelease(rest, i - 1);
      }
    }
    assert NoRelease(es, 1) <==> NoRelease(rest, 0);
  }

  /** The characters a stream of scancodes stands for. */
  function Typed(shift: bool, es: seq<Event>): seq<Byte>
    decreases |es|
  {
    if es == [] then [] else Chars(shift, es[0]) + Typed(ShiftBy(shift, es[0]), es[1..])
  }

  /** A character is typed while 255 are pending. */
  ghost predicate Drops(m: Machine, e: Event)
    requires Inv(m)
  {
    Chars(m.ring.shift, e) != [] && |Pending(m)| == 255
  }

  ghost predicate Roomy(m: Machine, es: seq<Event>)
    requires Inv(m)
    decreases |es|
  {
    es == [] || (NextKeeps(m, es[0]); !Drops(m, es[0]) && Roomy(Next(m, es[0]), es[1..]))
  }

  lemma Accepts(m: Machine, e: Event)
    requires Inv(m)
    ensures WellSized(m) && Next(m, e).ring.shift == ShiftBy(m.ring.shift, e)
    ensures Next(m, e).accepted == m.accepted + if Drops(m, e) then [] else Chars(m.ring.shift, e)
  {
    if e.Scan? {
      ScanKeeps(m, e.code);
    } else {
      StepKeeps(m);
    }
  }

  /** Every character typed is accepted if and only if none was typed while 255 were pending. */
  lemma {:induction false} NothingDropped(m: Machine, es: seq<Event>)
    requires Inv(m)
    ensures |Run(m, es).accepted| <= |m.accepted| + |Typed(m.ring.shift, es)|
    ensures Roomy(m, es) <==> Run(m, es).accepted == m.accepted + Typed(m.ring.shift, es)
    decreases |es|
  {
    if es != [] {
      NextKeeps(m, es[0]);
      Accepts(m, es[0]);
      var m' := Next(m, es[0]);
      NothingDropped(m', es[1..]);
      OneMore(m.accepted, Chars(m.ring.shift, es[0]), Drops(m, es[0]), m'.accepted, Typed(m'.ring.shift, es[1..]),
        Run(m', es[1..]).accepted);
    }
  }

  lemma OneMore(acc: seq<Byte>, here: seq<Byte>, dropped: bool, acc': seq<Byte>, rest: seq<Byte>, end: seq<Byte>)
    requires acc' == acc + (if dropped then [] else here) && (dropped ==> here != []) && |end| <= |acc'| + |rest|
    ensures |end| <= |acc| + |here + rest|
    ensures !dropped && end == acc' + rest <==> end == acc + (here + rest)
  {
    assert acc + (here + rest) == (acc + here) + rest;
    if dropped {
      assert |end| < |acc + (here + rest)|;
    }
  }

  function Steps(n: nat): (es: seq<Event>)
    ensures |es| == n
  {
    seq(n, _ => Step)
  }

  /** Left alone, the reader returns everything that is pending, six steps a character. */
  lemma {:induction false} ReaderDrains(m: Machine)
    requires Inv(m) && m.pc == ReadHead
    ensures var m' := Run(m, Steps(6 * |Pending(m)|)); m'.returned == m.accepted && m'.accepted == m.accepted
    decreases |Pending(m)|
  {
    if Pending(m) != [] {
      var m6 := SixSteps(m);
      ReaderDrains(m6);
    }
  }

  lemma SixSteps(m: Machine) returns (m6: Machine)
    requires Inv(m) && m.pc == ReadHead && Pending(m) != []
    ensures Inv(m6) && m6.pc == ReadHead && m6.accepted == m.accepted && Pending(m6) == Pending(m)[1..]
    ensures m6.ring == m.ring.(tail := Wrap(m.ring.tail)) && m6.returned == m.returned + [Pending(m)[0]]
    ensures forall n: nat :: Run(m, Steps(6 + n)) == Run(m6, Steps(n))
  {
    var m3 := Waiting(m);
    m6 := Taking(m3);
    forall n: nat ensures Run(m, Steps(6 + n)) == Run(m6, Steps(n)) {
      assert Run(m, Steps(3 + (3 + n))) == Run(m3, Steps(3 + n));
    }
  }

  /** The test of the loop, with a character there, and the tail read for the load. */
  lemma Waiting(m: Machine) returns (m3: Machine)
    requires Inv(m) && m.pc == ReadHead && Pending(m) != []
    ensures Inv(m3) && m3 == m.(pc := Load(m.ring.tail))
    ensures forall n: nat :: Run(m, Steps(3 + n)) == Run(m3, Steps(n))
  {
    FullMeans255(m.ring, Pending(m));
    var m1 := One(m);
    var m2 := One(m1);
    m3 := One(m2);
  }

  lemma Taking(m: Machine) returns (m3: Machine)
    requires Inv(m) && m.pc == Load(m.ring.tail) && Pending(m) != []
    ensures Inv(m3) && m3.pc == ReadHead && m3.accepted == m.accepted && Pending(m3) == Pending(m)[1..]
    ensures m3.ring == m.ring.(tail := Wrap(m.ring.tail)) && m3.returned == m.returned + [Pending(m)[0]]
    ensures forall n: nat :: Run(m, Steps(3 + n)) == Run(m3, Steps(n))
  {
    var m1 := One(m);
    var m2 := One(m1);
    m3 := One(m2);
  }

  lemma One(m: Machine) returns (m': Machine)
    requires Inv(m)
    ensures WellSized(m) && m' == Next(m, Step) && Inv(m') && m'.accepted == m.accepted
    ensures forall n: nat {:trigger Steps(n)} :: n > 0 ==> Run(m, Steps(n)) == Run(m', Steps(n - 1))
  {
    StepKeeps(m);
    m' := Next(m, Step);
    forall n: nat | n > 0 ensures Run(m, Steps(n)) == Run(m', Steps(n - 1)) {
      assert Steps(n)[1..] == Steps(n - 1);
    }
  }

  // ---------------------------------------------------------------- the driver

  class Driver {
    const buffer: array<Byte>
    var head: nat
    var tail: nat
    var shift: bool

    constructor ()
      ensures fresh(buffer) && buffer.Length == SIZE && Now() == START.ring
    {
      buffer := new Byte[SIZE](_ => 0);
      head, tail, shift := 0, 0, false;
    }

    ghost function Now(): Ring
      reads this, buffer
    {
      Ring(buffer[..], head, tail, shift)
    }

    ghost predicate Valid()
      reads this
    {
      buffer.Length == SIZE && head < SIZE && tail < SIZE
    }

    method Callback(scancode: Byte)
      requires Valid()
      modifies this, buffer
      ensures Valid() && Now() == Interrupt(old(Now()), scancode)
    {
      if scancode == 0x2A || scancode == 0x36 {
        shift := true;
        return;
      }
      if scancode == 0xAA || scancode == 0xB6 {
        shift := false;
        return;
      }
      if scancode >= 0x80 {
        return;
      }
      var c := Lookup(if shift then UPPER else LOWER, scancode);
      if c != 0 {
        var nextHead := (head + 1) % SIZE;
        if nextHead != tail {
          buffer[head] := c;
          head := nextHead;
        }
      }
    }

    /** keyboard_haskey: whether a character accepted has not been returned yet. */
    method HasKey(ghost m: Machine) returns (pending: bool)
      requires Valid() && Inv(m) && m.ring == Now()
      ensures pending <==> |m.returned| < |m.accepted|
    {
      pending := head != tail;
    }

    /** keyboard_getchar once a key is there, undisturbed: the reader's six steps. */
    method GetChar(ghost m: Machine) returns (c: Byte)
      requires Valid() && Inv(m) && m.ring == Now() && m.pc == ReadHead && head != tail
      modifies this`tail
      ensures Pending(m) != [] && c == Pending(m)[0]
      ensures Inv(Run(m, Steps(6))) && Run(m, Steps(6)).ring == Now() && Run(m, Steps(6)).returned == m.returned + [c]
    {
      ghost var m6 := SixSteps(m);
      assert Run(m, Steps(6 + 0)) == Run(m6, Steps(0));
      c := buffer[tail];
      tail := (tail + 1) % SIZE;
    }
  }
}
