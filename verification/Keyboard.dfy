/** The keyboard interrupt and the line it edits for each terminal (src/drivers/keyboard.c). */
module Keyboard {
  import opened Layout

  const MAX_BUFFER_SIZE := 128
  const SUPPORTED_KEYS := 93
  const RELEASED_MASK := 0x80

  const CTRL_A: byte := 1
  const CTRL_C: byte := 3
  const CTRL_L: byte := 12

  const ENTER_KEYCODE := 0x1C
  const L_SHIFT_PRESSED := 0x2A
  const R_SHIFT_PRESSED := 0x36
  const L_SHIFT_RELEASED := 0xAA
  const R_SHIFT_RELEASED := 0xB6
  const CAPS_PRESSED := 0x3A
  const ALT_PRESSED := 0x38
  const ALT_RELEASED := 0xB8
  const CTRL_PRESSED := 0x1D
  const CTRL_RELEASED := 0x9D
  const EXTENSION := 0xE0
  const SCAN_TAB := 0x0F
  const SCAN_L := 0x26
  const SCAN_A := 0x1E
  const SCAN_C := 0x2E
  const CURSOR_UP := 0x48
  const CURSOR_DOWN := 0x50
  const CURSOR_LEFT := 0x4B
  const CURSOR_RIGHT := 0x4D
  const FUNCTION_1 := 0x3B
  const FUNCTION_3 := 0x3D
  const BACKSPACE := 0x0E

  /** Rows of the scan code table, as characters, from scan code 2 on; the rest is 0. */
  const PLAIN_KEYS: string := "1234567890-=\U{08}\tqwertyuiop[]" + "\r\U{11}asdfghjkl;'`\U{10}\\zxcvbnm,./\U{10}"
  const SHIFTED_KEYS: string := "!@#$%^&*()_+\U{08}\tqwertyuiop{}" + "\r\U{11}asdfghjkl:\"~\U{10}|zxcvbnm<>?\U{10}"

  /** `scan_code_1[row][scan]`. */
  function ScanCode(shifted: bool, scan: nat): byte
    requires scan < SUPPORTED_KEYS
  {
    if scan == 0x39 then SPACE
    else if 2 <= scan < 2 + |PLAIN_KEYS| then
      (if shifted then SHIFTED_KEYS[scan - 2] else PLAIN_KEYS[scan - 2]) as int % 0x100
    else 0
  }

  datatype Flags = Flags(lShift: bool, rShift: bool, caps: bool, lCtrl: bool, rCtrl: bool, lAlt: bool, rAlt: bool) {
    predicate Shift() { lShift || rShift }

    predicate Ctrl() { lCtrl || rCtrl }

    predicate Alt() { lAlt || rAlt }
  }

  /** The modifier flags after a scan code, and whether the code was one of theirs. The tests
      are in the driver's order, so the two extended ones never get their turn. */
  function CheckModifierKeys(f: Flags, scan1: byte, scan2: byte): (Flags, bool) {
    if scan1 == CTRL_PRESSED then (f.(lCtrl := true), true)
    else if scan1 == CTRL_RELEASED then (f.(lCtrl := false), true)
    else if scan1 == CTRL_PRESSED && scan2 == EXTENSION then (f.(rCtrl := true), true)
    else if scan1 == CTRL_RELEASED && scan2 == EXTENSION then (f.(rCtrl := false), true)
    else if scan1 == ALT_PRESSED then (f.(lAlt := true), true)
    else if scan1 == ALT_RELEASED then (f.(lAlt := false), true)
    else if scan1 == ALT_PRESSED && scan2 == EXTENSION then (f.(rAlt := true), true)
    else if scan1 == ALT_RELEASED && scan2 == EXTENSION then (f.(rAlt := false), true)
    else if scan1 == L_SHIFT_PRESSED then (f.(lShift := true), true)
    else if scan1 == R_SHIFT_PRESSED then (f.(rShift := true), true)
    else if scan1 == L_SHIFT_RELEASED then (f.(lShift := false), true)
    else if scan1 == R_SHIFT_RELEASED then (f.(rShift := false), true)
    else if scan1 == CAPS_PRESSED then (f.(caps := !f.caps), true)
    else (f, false)
  }

  /** The two right-hand flags keep the value they start with. */
  lemma RightFlagsNeverChange(f: Flags, scan1: byte, scan2: byte)
    ensures
      var g := CheckModifierKeys(f, scan1, scan2).0;
      g.rCtrl == f.rCtrl && g.rAlt == f.rAlt
  {
    if scan1 in {CTRL_PRESSED, CTRL_RELEASED, ALT_PRESSED, ALT_RELEASED} {
    } else if scan1 in {L_SHIFT_PRESSED, L_SHIFT_RELEASED, R_SHIFT_PRESSED, R_SHIFT_RELEASED} {
    }
  }

  /** The input line of one terminal. */
  datatype Line = Line(buffer: seq<byte>, size: nat, ack: bool, readAck: bool) {
    predicate Ok() { |buffer| == MAX_BUFFER_SIZE && size <= MAX_BUFFER_SIZE }

    function Text(): seq<byte>
      requires Ok()
    {
      buffer[..size]
    }

    function Append(c: byte): Line
      requires Ok() && size < MAX_BUFFER_SIZE
    {
      this.(buffer := buffer[size := c], size := size + 1)
    }
  }

  function EmptyBuffer(): seq<byte> { seq(MAX_BUFFER_SIZE, _ => NUL) }

  /** What the interrupt does outside the line: it writes to the screen on display, or asks for
      another terminal. */
  datatype Effect = Putc(c: byte) | DoBackspace | SwitchTo(term: nat)

  predicate IsLower(c: byte) { 0x61 <= c <= 0x7A }

  predicate IsUpper(c: byte) { 0x41 <= c <= 0x5A }

  /** The character of a key under the modifier flags. */
  function OutputOf(f: Flags, scan: nat): byte
    requires scan < SUPPORTED_KEYS
  {
    var plain := ScanCode(false, scan);
    var cased := if f.caps != f.Shift() && IsLower(plain) then plain - 32 else plain;
    if f.Shift() && !IsLower(cased) && !IsUpper(cased) then ScanCode(true, scan) else cased
  }

  predicate IsCursorKey(scan: nat) {
    scan == CURSOR_UP || scan == CURSOR_RIGHT || scan == CURSOR_LEFT || scan == CURSOR_DOWN
  }

  /** A key as far as the line editor sees it. */
  datatype Key = Nothing | Control(code: byte) | Backspace | Enter | Tab | Char(c: byte) | Blank | Refused

  /** Reads a scan code that is neither a modifier nor a terminal switch, while a reader waits. */
  function KeyOf(f: Flags, scan: byte): Key
    requires scan >= RELEASED_MASK || scan < SUPPORTED_KEYS
  {
    if f.Ctrl() then
      if scan == SCAN_L then Control(CTRL_L)
      else if scan == SCAN_A then Control(CTRL_A)
      else if scan == SCAN_C then Control(CTRL_C)
      else Nothing
    else if scan >= RELEASED_MASK then Nothing
    else if scan == BACKSPACE then Backspace
    else if scan == ENTER_KEYCODE then Enter
    else if scan == SCAN_TAB then Tab
    else if OutputOf(f, scan) == 0 || IsCursorKey(scan) then Blank
    else Char(OutputOf(f, scan))
  }

  /** The line editor: text so far, and whether the line is complete. */
  datatype Editor = Editor(text: seq<byte>, done: bool)

  /** A line that has grown to 126 bytes is closed with a new line. */
  function CloseIfFull(text: seq<byte>): Editor {
    if |text| >= MAX_BUFFER_SIZE - 2 then Editor(text + [NL], true) else Editor(text, false)
  }

  function Edit(text: seq<byte>, key: Key): Editor {
    match key
    case Nothing => Editor(text, false)
    case Control(code) => Editor([code], true)
    case Backspace => Editor(if text == [] then [] else text[..|text| - 1], false)
    case Enter => Editor(text + [NL], true)
    case Tab => CloseIfFull(if |text| + 4 < MAX_BUFFER_SIZE - 2 then text + [SPACE, SPACE, SPACE, SPACE] else text)
    case Char(c) => CloseIfFull(text + [c])
    case Blank => CloseIfFull(text)
    case Refused => Editor(text, true)
  }

  /** Editing with keys up to the one that completes the line. */
  function EditAll(text: seq<byte>, keys: seq<Key>): Editor
    decreases |keys|
  {
    if keys == [] then Editor(text, false)
    else
      var e := Edit(text, keys[0]);
      if e.done then e else EditAll(e.text, keys[1..])
  }

  /** A line never holds more than 127 bytes, 126 and a closing new line. */
  lemma {:induction false} LineFits(text: seq<byte>, keys: seq<Key>)
    requires |text| < MAX_BUFFER_SIZE - 2
    ensures |EditAll(text, keys).text| < MAX_BUFFER_SIZE
    ensures !EditAll(text, keys).done ==> |EditAll(text, keys).text| < MAX_BUFFER_SIZE - 2
    decreases |keys|
  {
    if keys != [] && !Edit(text, keys[0]).done {
      LineFits(Edit(text, keys[0]).text, keys[1..]);
    }
  }

  // ---- The interrupt handler, as a function of the state ----

  datatype Kb = Kb(flags: Flags, lines: seq<Line>)

  function ControlCode(line: Line, code: byte): Line {
    line.(buffer := EmptyBuffer()[0 := code], size := 1, ack := true)
  }

  function CheckControlCodes(line: Line, scan: byte): Line {
    if scan == SCAN_L then ControlCode(line, CTRL_L)
    else if scan == SCAN_A then ControlCode(line, CTRL_A)
    else if scan == SCAN_C then ControlCode(line, CTRL_C)
    else line
  }

  function Store(line: Line, c: byte): Line
    requires line.Ok() && (line.readAck ==> line.size < MAX_BUFFER_SIZE)
  {
    if line.readAck then line.Append(c) else line
  }

  function PrintCharacter(f: Flags, line: Line, scan: nat): (r: (Line, seq<Effect>))
    requires scan < SUPPORTED_KEYS && line.Ok() && (line.readAck ==> line.size < MAX_BUFFER_SIZE)
    ensures r.0.Ok() && r.0.size <= (if line.size < MAX_BUFFER_SIZE - 6 then MAX_BUFFER_SIZE - 3 else line.size + 1)
  {
    var output := OutputOf(f, scan);
    if scan == SCAN_TAB then
      if line.size + 4 < MAX_BUFFER_SIZE - 2 then
        (Store(Store(Store(Store(line, SPACE), SPACE), SPACE), SPACE),
         [Putc(SPACE), Putc(SPACE), Putc(SPACE), Putc(SPACE)])
      else (line, [])
    else if output == 0 || IsCursorKey(scan) then (line, [])
    else (Store(line, output), [Putc(output)])
  }

  /** The check for a full line after a character was printed. */
  function CloseLine(line: Line, echo: seq<Effect>): (Line, seq<Effect>)
    requires line.Ok() && line.size < MAX_BUFFER_SIZE
  {
    if line.size >= MAX_BUFFER_SIZE - 2 then (line.Append(NL).(ack := true), echo + [Putc(NL)]) else (line, echo)
  }

  /** A pressed key that is no modifier, switch or control code. */
  function PressKey(f: Flags, line: Line, scan: nat): (Line, seq<Effect>)
    requires scan < SUPPORTED_KEYS && line.Ok() && line.size < MAX_BUFFER_SIZE - 1
  {
    if scan == BACKSPACE then
      if line.size == 0 || !line.readAck then (line, [])
      else (line.(size := line.size - 1, buffer := line.buffer[line.size - 1 := NUL]), [DoBackspace])
    else if scan == ENTER_KEYCODE then (Store(line, NL).(ack := true), [Putc(NL)])
    else
      var (line', echo) := PrintCharacter(f, line, scan);
      CloseLine(line', echo)
  }

  /** A key may arrive: its code is in the table, and unless it is a release the line it goes to
      has room left. */
  predicate Typable(kb: Kb, active: nat, scan: byte)
  {
    && active < |kb.lines| && kb.lines[active].Ok()
    && (scan >= RELEASED_MASK || (scan < SUPPORTED_KEYS && kb.lines[active].size < MAX_BUFFER_SIZE - 1))
  }

  function Handle(kb: Kb, active: nat, scan1: byte, scan2: byte): (Kb, seq<Effect>)
    requires Typable(kb, active, scan1)
  {
    var (flags, modifier) := CheckModifierKeys(kb.flags, scan1, scan2);
    var line := kb.lines[active];
    if modifier then (kb.(flags := flags), [])
    else if kb.flags.Alt() && FUNCTION_1 <= scan1 <= FUNCTION_3 then (kb, [SwitchTo(scan1 - FUNCTION_1)])
    else if line.readAck && kb.flags.Ctrl() then
      (kb.(lines := kb.lines[active := CheckControlCodes(line, scan1)]), [])
    else if scan1 >= RELEASED_MASK then (kb, [])
    else
      var (line', effects) := PressKey(kb.flags, line, scan1);
      (kb.(lines := kb.lines[active := line']), effects)
  }

  /** Keys typed while another terminal is on display leave a line alone. */
  lemma OtherLinesUntouched(kb: Kb, active: nat, scan1: byte, scan2: byte, t: nat)
    requires Typable(kb, active, scan1) && t < |kb.lines| && t != active
    ensures Handle(kb, active, scan1, scan2).0.lines[t] == kb.lines[t]
    ensures |Handle(kb, active, scan1, scan2).0.lines| == |kb.lines|
  {
  }

  // ---- Reading a line ----

  /** `Typed` is a keyboard interrupt while `active` is on display; `SwitchRefused` is a terminal
      switch turned down for want of a process slot, which acknowledges the line as it stands. */
  datatype Event = Typed(active: nat, scan1: byte, scan2: byte) | SwitchRefused(active: nat)

  predicate Possible(kb: Kb, e: Event) {
    match e
    case Typed(active, scan1, _) => Typable(kb, active, scan1)
    case SwitchRefused(active) => active < |kb.lines|
  }

  function After(kb: Kb, e: Event): Kb
    requires Possible(kb, e)
  {
    match e
    case Typed(active, scan1, scan2) => Handle(kb, active, scan1, scan2).0
    case SwitchRefused(active) => kb.(lines := kb.lines[active := kb.lines[active].(ack := true)])
  }

  /** What an event is to the line editor of terminal `t`. */
  function KeyFor(f: Flags, e: Event, t: nat): Key
    requires e.Typed? ==> e.scan1 >= RELEASED_MASK || e.scan1 < SUPPORTED_KEYS
  {
    if e.active != t then Nothing
    else if e.SwitchRefused? then Refused
    else if CheckModifierKeys(f, e.scan1, e.scan2).1 then Nothing
    else if f.Alt() && FUNCTION_1 <= e.scan1 <= FUNCTION_3 then Nothing
    else KeyOf(f, e.scan1)
  }

  function FlagsAfter(f: Flags, e: Event): Flags {
    if e.Typed? then CheckModifierKeys(f, e.scan1, e.scan2).0 else f
  }

  /** A waiting reader's line: it is not acknowledged and has room. */
  predicate Waiting(line: Line) {
    line.Ok() && line.readAck && !line.ack && line.size < MAX_BUFFER_SIZE - 2
  }

  lemma StoredText(line: Line, c: byte)
    requires line.Ok() && line.size < MAX_BUFFER_SIZE
    ensures line.Append(c).Ok() && line.Append(c).Text() == line.Text() + [c]
  {
  }

  /** `line'` is `line` after a key that turned the text into `e`. */
  ghost predicate Edited(line: Line, line': Line, e: Editor) {
    && line.Ok() && line'.Ok() && line'.readAck && e == Editor(line'.Text(), line'.ack)
    && (!line'.ack ==> Waiting(line'))
  }

  lemma CloseEdits(line: Line, echo: seq<Effect>)
    requires line.Ok() && line.readAck && !line.ack && line.size <= MAX_BUFFER_SIZE - 2
    ensures Edited(line, CloseLine(line, echo).0, CloseIfFull(line.Text()))
  {
  }

  lemma TabStores(line: Line) returns (line': Line)
    requires Waiting(line) && line.size + 4 < MAX_BUFFER_SIZE - 2
    ensures line' == Store(Store(Store(Store(line, SPACE), SPACE), SPACE), SPACE)
    ensures line'.Ok() && line'.readAck && !line'.ack && line'.size == line.size + 4
    ensures line'.Text() == line.Text() + [SPACE, SPACE, SPACE, SPACE]
  {
    var l1 := line.Append(SPACE);
    var l2 := l1.Append(SPACE);
    var l3 := l2.Append(SPACE);
    line' := l3.Append(SPACE);
    StoredText(line, SPACE);
    StoredText(l1, SPACE);
    StoredText(l2, SPACE);
    StoredText(l3, SPACE);
  }

  lemma PressKeyEdits(f: Flags, line: Line, scan: nat)
    requires Waiting(line) && scan < SUPPORTED_KEYS && !f.Ctrl()
    ensures Edited(line, PressKey(f, line, scan).0, Edit(line.Text(), KeyOf(f, scan)))
  {
    if scan == BACKSPACE {
      assert line.size > 0 ==> line.Text()[..line.size - 1] == line.buffer[..line.size - 1];
    } else if scan == ENTER_KEYCODE {
      StoredText(line, NL);
    } else {
      var (line', echo) := PrintCharacter(f, line, scan);
      if scan == SCAN_TAB {
        if line.size + 4 < MAX_BUFFER_SIZE - 2 {
          var l := TabStores(line);
        }
      } else {
        StoredText(line, OutputOf(f, scan));
      }
      CloseEdits(line', echo);
    }
  }

  /** One event, seen from a waiting line. */
  lemma EventEdits(kb: Kb, e: Event, t: nat)
    requires t < |kb.lines| && Waiting(kb.lines[t]) && Possible(kb, e)
    ensures
      var line, line' := kb.lines[t], After(kb, e).lines[t];
      && |After(kb, e).lines| == |kb.lines| && After(kb, e).flags == FlagsAfter(kb.flags, e)
      && Edited(line, line', Edit(line.Text(), KeyFor(kb.flags, e, t)))
  {
    if e.Typed? && e.active == t && !CheckModifierKeys(kb.flags, e.scan1, e.scan2).1 {
      if kb.flags.Ctrl() {
        var line := kb.lines[t];
        assert forall code: byte :: ControlCode(line, code).Text() == [code];
      } else if e.scan1 < RELEASED_MASK {
        PressKeyEdits(kb.flags, kb.lines[t], e.scan1);
      }
    }
  }

  /** Events while the reader of `t` waits, at most up to the first acknowledgement. */
  ghost predicate UpToAck(kb: Kb, es: seq<Event>, t: nat)
    requires t < |kb.lines|
    decreases |es|
  {
    es != [] ==>
      && Possible(kb, es[0]) && |After(kb, es[0]).lines| == |kb.lines|
      && (After(kb, es[0]).lines[t].ack ==> |es| == 1)
      && UpToAck(After(kb, es[0]), es[1..], t)
  }

  ghost function Run(kb: Kb, es: seq<Event>, t: nat): (r: Kb)
    requires t < |kb.lines| && UpToAck(kb, es, t)
    ensures |r.lines| == |kb.lines|
    decreases |es|
  {
    if es == [] then kb else Run(After(kb, es[0]), es[1..], t)
  }

  ghost function Keys(kb: Kb, es: seq<Event>, t: nat): seq<Key>
    requires t < |kb.lines| && UpToAck(kb, es, t)
    decreases |es|
  {
    if es == [] then [] else [KeyFor(kb.flags, es[0], t)] + Keys(After(kb, es[0]), es[1..], t)
  }

  /** Whatever is typed on whichever terminals, a waiting line is the fold of its own keys. */
  lemma {:induction false} LineRefinesEditor(kb: Kb, es: seq<Event>, t: nat)
    requires t < |kb.lines| && Waiting(kb.lines[t]) && UpToAck(kb, es, t)
    ensures
      var kb' := Run(kb, es, t);
      && t < |kb'.lines| && kb'.lines[t].Ok()
      && EditAll(kb.lines[t].Text(), Keys(kb, es, t)) == Editor(kb'.lines[t].Text(), kb'.lines[t].ack)
    decreases |es|
  {
    if es != [] {
      var kb' := After(kb, es[0]);
      EventEdits(kb, es[0], t);
      assert Keys(kb, es, t)[1..] == Keys(kb', es[1..], t);
      if !kb'.lines[t].ack {
        LineRefinesEditor(kb', es[1..], t);
      } else {
        assert es[1..] == [];
      }
    }
  }

  function BeginRead(line: Line): Line { line.(readAck := true, ack := false) }

  function FinishRead(line: Line, nbytes: int32): (seq<byte>, Line)
    requires line.Ok()
  {
    var n := Wrap32(nbytes);
    (line.buffer[..if line.size < n then line.size else n],
     line.(ack := false, readAck := false, buffer := EmptyBuffer(), size := 0))
  }

  /** No reader waits and nothing is stored. */
  predicate Idle(line: Line) { line.Ok() && !line.readAck && line.size == 0 }

  /** What is typed while nobody reads is not stored. */
  lemma IdleLinesStayEmpty(kb: Kb, e: Event, t: nat)
    requires t < |kb.lines| && Possible(kb, e) && Idle(kb.lines[t])
    ensures t < |After(kb, e).lines| && Idle(After(kb, e).lines[t])
  {
  }

  /** A whole read: from an idle line, through any events up to the acknowledgement, to the bytes
      `keyboard_read` returns. They are the edited line cut to the size asked for, or all of it for a
      negative size; at most 127 bytes were ever stored; and the line is idle again. */
  lemma ReadReturnsEditedLine(kb: Kb, es: seq<Event>, t: nat, nbytes: int32)
    requires t < |kb.lines| && Idle(kb.lines[t])
    requires
      var started := kb.(lines := kb.lines[t := BeginRead(kb.lines[t])]);
      UpToAck(started, es, t)
    ensures
      var started := kb.(lines := kb.lines[t := BeginRead(kb.lines[t])]);
      var line := Run(started, es, t).lines[t];
      var e := EditAll([], Keys(started, es, t));
      && line.ack == e.done && line.Ok() && |e.text| < MAX_BUFFER_SIZE
      && FinishRead(line, nbytes).0 == e.text[..if nbytes < 0 then |e.text| else Min(|e.text|, nbytes)]
      && Idle(FinishRead(line, nbytes).1)
  {
    var started := kb.(lines := kb.lines[t := BeginRead(kb.lines[t])]);
    assert started.lines[t].Text() == [];
    LineRefinesEditor(started, es, t);
    LineFits([], Keys(started, es, t));
  }
}
