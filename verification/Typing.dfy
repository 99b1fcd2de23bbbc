/** What is typed is what is read: the text a read returns, from the scan codes alone and the caps of
    the keys (src/drivers/keyboard.c). */
module Typing {
  import opened Layout
  import opened Keyboard

  // ---- The caps of the keys ----

  /** A key has a letter, two symbols, or neither. */
  datatype Cap = Letter(lower: byte, upper: byte) | Symbols(plain: byte, shifted: byte) | NoCap

  function Ascii(c: char): byte { c as int % 0x100 }

  function LetterIn(lower: string, upper: string, i: nat): Cap
    requires i < |lower| == |upper|
  {
    Letter(Ascii(lower[i]), Ascii(upper[i]))
  }

  function SymbolsIn(plain: string, shifted: string, i: nat): Cap
    requires i < |plain| == |shifted|
  {
    Symbols(Ascii(plain[i]), Ascii(shifted[i]))
  }

  /** The keyboard, row by row. */
  function CapOf(scan: nat): Cap {
    if 0x02 <= scan < 0x0E then SymbolsIn("1234567890-=", "!@#$%^&*()_+", scan - 0x02)
    else if 0x10 <= scan < 0x1A then LetterIn("qwertyuiop", "QWERTYUIOP", scan - 0x10)
    else if 0x1A <= scan < 0x1C then SymbolsIn("[]", "{}", scan - 0x1A)
    else if 0x1E <= scan < 0x27 then LetterIn("asdfghjkl", "ASDFGHJKL", scan - 0x1E)
    else if 0x27 <= scan < 0x2A then SymbolsIn(";'`", ":\"~", scan - 0x27)
    else if scan == 0x2B then SymbolsIn("\\", "|", 0)
    else if 0x2C <= scan < 0x33 then LetterIn("zxcvbnm", "ZXCVBNM", scan - 0x2C)
    else if 0x33 <= scan < 0x36 then SymbolsIn(",./", "<>?", scan - 0x33)
    else if scan == 0x39 then Symbols(SPACE, SPACE)
    else NoCap
  }

  /** What a key types: a letter is a capital exactly when one of Caps Lock and Shift holds, and not
      both; any other key gives its upper symbol exactly with Shift. */
  function CharOf(caps: bool, shift: bool, cap: Cap): Option<byte> {
    match cap
    case Letter(lower, upper) => Some(if caps != shift then upper else lower)
    case Symbols(plain, shifted) => Some(if shift then shifted else plain)
    case NoCap => None
  }

  predicate NoLetter(c: byte) { c != 0 && !IsLower(c) && !IsUpper(c) }

  lemma TopRow(scan: nat)
    requires 0x02 <= scan < 0x0E
    ensures CapOf(scan) == Symbols(ScanCode(false, scan), ScanCode(true, scan))
    ensures NoLetter(ScanCode(false, scan)) && NoLetter(ScanCode(true, scan))
  {
  }

  lemma CapitalsOne(i: nat)
    requires i < 10
    ensures IsLower(Ascii("qwertyuiop"[i])) && Ascii("QWERTYUIOP"[i]) == Ascii("qwertyuiop"[i]) - 32
  {
  }

  lemma LettersOne(scan: nat)
    requires 0x10 <= scan < 0x1A
    ensures CapOf(scan) == Letter(ScanCode(false, scan), ScanCode(false, scan) - 32) && IsLower(ScanCode(false, scan))
  {
    CapitalsOne(scan - 0x10);
  }

  lemma CapitalsTwo(i: nat)
    requires i < 9
    ensures IsLower(Ascii("asdfghjkl"[i])) && Ascii("ASDFGHJKL"[i]) == Ascii("asdfghjkl"[i]) - 32
  {
  }

  lemma SecondRow(i: nat)
    requires i < 9
    ensures ScanCode(false, 0x1E + i) == Ascii("asdfghjkl"[i])
  {
  }

  lemma LettersTwo(scan: nat)
    requires 0x1E <= scan < 0x27
    ensures CapOf(scan) == Letter(ScanCode(false, scan), ScanCode(false, scan) - 32) && IsLower(ScanCode(false, scan))
  {
    SecondRow(scan - 0x1E);
    CapitalsTwo(scan - 0x1E);
  }

  lemma CapitalsThree(i: nat)
    requires i < 7
    ensures IsLower(Ascii("zxcvbnm"[i])) && Ascii("ZXCVBNM"[i]) == Ascii("zxcvbnm"[i]) - 32
  {
  }

  lemma LettersThree(scan: nat)
    requires 0x2C <= scan < 0x33
    ensures CapOf(scan) == Letter(ScanCode(false, scan), ScanCode(false, scan) - 32) && IsLower(ScanCode(false, scan))
  {
    CapitalsThree(scan - 0x2C);
  }

  lemma Brackets(scan: nat)
    requires 0x1A <= scan < 0x1C
    ensures CapOf(scan) == Symbols(ScanCode(false, scan), ScanCode(true, scan))
    ensures NoLetter(ScanCode(false, scan)) && NoLetter(ScanCode(true, scan))
  {
  }

  lemma Quotes(scan: nat)
    requires 0x27 <= scan < 0x2A || scan == 0x2B
    ensures CapOf(scan) == Symbols(ScanCode(false, scan), ScanCode(true, scan))
    ensures NoLetter(ScanCode(false, scan)) && NoLetter(ScanCode(true, scan))
  {
  }

  lemma Points(scan: nat)
    requires 0x33 <= scan < 0x36
    ensures CapOf(scan) == Symbols(ScanCode(false, scan), ScanCode(true, scan))
    ensures NoLetter(ScanCode(false, scan)) && NoLetter(ScanCode(true, scan))
  {
  }

  /** The driver's tables are these caps. */
  lemma TableHasCaps(f: Flags, scan: nat)
    requires scan < SUPPORTED_KEYS && !IsModifier(scan)
    requires scan != BACKSPACE && scan != ENTER_KEYCODE && scan != SCAN_TAB
    ensures
      match CharOf(f.caps, f.Shift(), CapOf(scan))
      case Some(c) => OutputOf(f, scan) == c && c != 0 && !IsCursorKey(scan)
      case None => OutputOf(f, scan) == 0 || IsCursorKey(scan)
  {
    match CapOf(scan)
    case Letter(_, _) =>
      if scan < 0x1A {
        LettersOne(scan);
      } else if scan < 0x27 {
        LettersTwo(scan);
      } else {
        LettersThree(scan);
      }
    case Symbols(_, _) =>
      if scan < 0x0E {
        TopRow(scan);
      } else if scan < 0x1C {
        Brackets(scan);
      } else if scan < 0x2C {
        Quotes(scan);
      } else if scan < 0x36 {
        Points(scan);
      }
    case NoCap =>
  }

  // ---- Which keys are held ----

  predicate IsModifier(scan: nat) {
    scan in {CTRL_PRESSED, CTRL_RELEASED, ALT_PRESSED, ALT_RELEASED, CAPS_PRESSED,
             L_SHIFT_PRESSED, L_SHIFT_RELEASED, R_SHIFT_PRESSED, R_SHIFT_RELEASED}
  }

  /** The key was pressed and not released since. */
  ghost predicate Held(h: seq<byte>, press: byte, release: byte) {
    exists i :: HeldFrom(h, i, press, release)
  }

  function Presses(h: seq<byte>, code: byte): nat {
    if h == [] then 0 else Presses(h[..|h| - 1], code) + (if h[|h| - 1] == code then 1 else 0)
  }

  ghost predicate ShiftHeld(h: seq<byte>) {
    Held(h, L_SHIFT_PRESSED, L_SHIFT_RELEASED) || Held(h, R_SHIFT_PRESSED, R_SHIFT_RELEASED)
  }

  ghost predicate CtrlHeld(h: seq<byte>) { Held(h, CTRL_PRESSED, CTRL_RELEASED) }

  ghost predicate AltHeld(h: seq<byte>) { Held(h, ALT_PRESSED, ALT_RELEASED) }

  predicate CapsOn(h: seq<byte>) { Presses(h, CAPS_PRESSED) % 2 == 1 }

  /** The flags after the scan codes `h`, from the state without any. */
  ghost predicate FlagsAre(f: Flags, h: seq<byte>) {
    && (f.lShift <==> Held(h, L_SHIFT_PRESSED, L_SHIFT_RELEASED))
    && (f.rShift <==> Held(h, R_SHIFT_PRESSED, R_SHIFT_RELEASED))
    && (f.lCtrl <==> CtrlHeld(h)) && !f.rCtrl && (f.lAlt <==> AltHeld(h)) && !f.rAlt && (f.caps <==> CapsOn(h))
  }

  ghost predicate HeldFrom(h: seq<byte>, i: nat, press: byte, release: byte) {
    i < |h| && h[i] == press && forall j :: i < j < |h| ==> h[j] != release
  }

  lemma HeldAfter(h: seq<byte>, c: byte, press: byte, release: byte)
    requires press != release
    ensures Held(h + [c], press, release) <==> c == press || (c != release && Held(h, press, release))
  {
    var h' := h + [c];
    assert forall i :: 0 <= i < |h| ==> h'[i] == h[i];
    assert h'[|h|] == c;
    assert HeldFrom(h', |h|, press, release) <==> c == press;
    assert forall i :: 0 <= i < |h| ==>
             (HeldFrom(h', i, press, release) <==> HeldFrom(h, i, press, release) && c != release);
  }

  /** One more scan code: the flags go on telling which keys are held. */
  lemma FlagsFollow(f: Flags, h: seq<byte>, scan1: byte, scan2: byte)
    requires FlagsAre(f, h)
    ensures FlagsAre(CheckModifierKeys(f, scan1, scan2).0, h + [scan1])
    ensures CheckModifierKeys(f, scan1, scan2).1 <==> IsModifier(scan1)
  {
    HeldAfter(h, scan1, L_SHIFT_PRESSED, L_SHIFT_RELEASED);
    HeldAfter(h, scan1, R_SHIFT_PRESSED, R_SHIFT_RELEASED);
    HeldAfter(h, scan1, CTRL_PRESSED, CTRL_RELEASED);
    HeldAfter(h, scan1, ALT_PRESSED, ALT_RELEASED);
    assert (h + [scan1])[..|h|] == h;
  }

  /** The scan codes of a run. */
  function Scans(es: seq<Event>): seq<byte> {
    if es == [] then [] else (if es[0].Typed? then [es[0].scan1] else []) + Scans(es[1..])
  }

  predicate Happens(kb: Kb, es: seq<Event>)
    decreases |es|
  {
    es != [] ==> Possible(kb, es[0]) && Happens(After(kb, es[0]), es[1..])
  }

  function AfterAll(kb: Kb, es: seq<Event>): Kb
    requires Happens(kb, es)
    decreases |es|
  {
    if es == [] then kb else AfterAll(After(kb, es[0]), es[1..])
  }

  lemma HistoryGrows(h: seq<byte>, es: seq<Event>)
    requires es != []
    ensures h + Scans(es) == (if es[0].Typed? then h + [es[0].scan1] else h) + Scans(es[1..])
  {
  }

  /** After any run of scan codes each flag is the last press or release of its key, and Caps Lock
      the parity of its presses. */
  lemma {:induction false} FlagsAreHistory(kb: Kb, h: seq<byte>, es: seq<Event>)
    requires FlagsAre(kb.flags, h) && Happens(kb, es)
    ensures FlagsAre(AfterAll(kb, es).flags, h + Scans(es))
    decreases |es|
  {
    if es == [] {
      assert h + [] == h;
    } else {
      HistoryGrows(h, es);
      var h' := if es[0].Typed? then h + [es[0].scan1] else h;
      if es[0].Typed? {
        FlagsFollow(kb.flags, h, es[0].scan1, es[0].scan2);
      }
      FlagsAreHistory(After(kb, es[0]), h', es[1..]);
    }
  }

  // ---- What is read ----

  /** What a scan code is to the line editor after the scan codes `h`. */
  ghost function KeyPressed(h: seq<byte>, scan: byte): Key {
    if IsModifier(scan) || (AltHeld(h) && FUNCTION_1 <= scan <= FUNCTION_3) then Nothing
    else if CtrlHeld(h) then
      match scan
      case 0x26 => Control(CTRL_L)
      case 0x1E => Control(CTRL_A)
      case 0x2E => Control(CTRL_C)
      case _ => Nothing
    else if scan >= RELEASED_MASK then Nothing
    else
      match scan
      case 0x0E => Backspace
      case 0x1C => Enter
      case 0x0F => Tab
      case _ =>
        match CharOf(CapsOn(h), ShiftHeld(h), CapOf(scan))
        case Some(c) => Char(c)
        case None => Blank
  }

  lemma KeyIsPressed(f: Flags, h: seq<byte>, t: nat, scan1: byte, scan2: byte)
    requires FlagsAre(f, h) && (scan1 >= RELEASED_MASK || scan1 < SUPPORTED_KEYS)
    ensures KeyFor(f, Typed(t, scan1, scan2), t) == KeyPressed(h, scan1)
  {
    FlagsFollow(f, h, scan1, scan2);
    if !IsModifier(scan1) && scan1 < RELEASED_MASK && scan1 !in {BACKSPACE, ENTER_KEYCODE, SCAN_TAB} {
      TableHasCaps(f, scan1);
    }
  }

  /** The keys of terminal `t` in a run, from the scan codes alone. */
  ghost function KeysPressed(h: seq<byte>, es: seq<Event>, t: nat): seq<Key>
    decreases |es|
  {
    if es == [] then []
    else if es[0].Typed? then
      [if es[0].active == t then KeyPressed(h, es[0].scan1) else Nothing]
      + KeysPressed(h + [es[0].scan1], es[1..], t)
    else [if es[0].active == t then Refused else Nothing] + KeysPressed(h, es[1..], t)
  }

  lemma {:induction false} KeysArePressed(kb: Kb, h: seq<byte>, es: seq<Event>, t: nat)
    requires t < |kb.lines| && UpToAck(kb, es, t) && FlagsAre(kb.flags, h)
    ensures Keys(kb, es, t) == KeysPressed(h, es, t)
    decreases |es|
  {
    if es != [] {
      var e := es[0];
      if e.Typed? {
        FlagsFollow(kb.flags, h, e.scan1, e.scan2);
        KeyIsPressed(kb.flags, h, t, e.scan1, e.scan2);
        KeysArePressed(After(kb, e), h + [e.scan1], es[1..], t);
      } else {
        KeysArePressed(After(kb, e), h, es[1..], t);
      }
    }
  }

  /** A whole read after the scan codes `h`: the bytes `keyboard_read` returns are those of the keys
      pressed on `t`, as their caps, Shift and Caps Lock say, edited, and cut to the size. */
  lemma ReadReturnsWhatIsTyped(kb: Kb, h: seq<byte>, started: Kb, es: seq<Event>, t: nat, nbytes: int32)
    requires t < |kb.lines| && Idle(kb.lines[t]) && FlagsAre(kb.flags, h)
    requires started == kb.(lines := kb.lines[t := BeginRead(kb.lines[t])]) && UpToAck(started, es, t)
    ensures
      var line := Run(started, es, t).lines[t];
      var e := EditAll([], KeysPressed(h, es, t));
      && line.ack == e.done && line.Ok()
      && FinishRead(line, nbytes).0 == e.text[..if nbytes < 0 then |e.text| else Min(|e.text|, nbytes)]
  {
    KeysArePressed(started, h, es, t);
    ReadReturnsEditedLine(kb, es, t, nbytes);
  }

  // ---- Editing ----

  function Chars(text: seq<byte>): seq<Key> {
    if text == [] then [] else [Char(text[0])] + Chars(text[1..])
  }

  lemma EditFirst(text: seq<byte>, key: Key, rest: seq<Key>)
    ensures
      var e := Edit(text, key);
      EditAll(text, [key] + rest) == if e.done then e else EditAll(e.text, rest)
  {
    assert ([key] + rest)[1..] == rest;
  }

  /** A line typed and ended with Enter is the line, with its new line. */
  lemma LineTyped(text: seq<byte>, rest: seq<Key>)
    requires |text| < 126
    ensures EditAll([], Chars(text) + [Enter] + rest) == Editor(text + [NL], true)
  {
    assert Chars(text) + [Enter] + rest == Chars(text) + ([Enter] + rest);
    CharsType([], text, [Enter] + rest);
    assert [] + text == text;
    EditFirst(text, Enter, rest);
  }

  /** A character and a backspace cancel, wherever they are typed in a line that is not full. */
  lemma BackspaceCancels(text: seq<byte>, c: byte, rest: seq<Key>)
    requires |text| < MAX_BUFFER_SIZE - 3
    ensures EditAll(text, [Char(c), Backspace] + rest) == EditAll(text, rest)
  {
    assert [Char(c), Backspace] + rest == [Char(c)] + ([Backspace] + rest);
    EditFirst(text, Char(c), [Backspace] + rest);
    EditFirst(text + [c], Backspace, rest);
    assert (text + [c])[..|text|] == text;
  }

  /** A tab is four spaces where they fit, and nothing otherwise. */
  lemma TabIsFourSpaces(text: seq<byte>, rest: seq<Key>)
    requires |text| < MAX_BUFFER_SIZE - 2
    ensures
      EditAll(text, [Tab] + rest)
      == if |text| < 122 then EditAll(text, Chars([SPACE, SPACE, SPACE, SPACE]) + rest) else EditAll(text, rest)
  {
    EditFirst(text, Tab, rest);
    if |text| < 122 {
      CharsType(text, [SPACE, SPACE, SPACE, SPACE], rest);
    }
  }

  /** Characters typed into a line that stays below 126 bytes. */
  lemma {:induction false} CharsType(before: seq<byte>, text: seq<byte>, rest: seq<Key>)
    requires |before| + |text| < 126
    ensures EditAll(before, Chars(text) + rest) == EditAll(before + text, rest)
    decreases |text|
  {
    if text == [] {
      assert Chars(text) + rest == rest && before + text == before;
    } else {
      assert Chars(text) + rest == [Char(text[0])] + (Chars(text[1..]) + rest);
      EditFirst(before, Char(text[0]), Chars(text[1..]) + rest);
      CharsType(before + [text[0]], text[1..], rest);
      assert before + [text[0]] + text[1..] == before + text;
    }
  }

  /** The 126th byte closes the line with a new line, which Enter was not pressed for. */
  lemma FullLineCloses(before: seq<byte>, text: seq<byte>, c: byte, rest: seq<Key>)
    requires |before| + |text| == 125
    ensures EditAll(before, Chars(text) + [Char(c)] + rest) == Editor(before + text + [c, NL], true)
  {
    assert Chars(text) + [Char(c)] + rest == Chars(text) + ([Char(c)] + rest);
    CharsType(before, text, [Char(c)] + rest);
    EditFirst(before + text, Char(c), rest);
    assert before + text + [c] + [NL] == before + text + [c, NL];
  }

  /** A control code is the whole line, whatever was typed before. */
  lemma ControlReplaces(before: seq<byte>, text: seq<byte>, code: byte, rest: seq<Key>)
    requires |before| + |text| < 126
    ensures EditAll(before, Chars(text) + [Control(code)] + rest) == Editor([code], true)
  {
    assert Chars(text) + [Control(code)] + rest == Chars(text) + ([Control(code)] + rest);
    CharsType(before, text, [Control(code)] + rest);
    EditFirst(before + text, Control(code), rest);
  }

  // ---- While nobody reads ----

  /** A key asks for terminal `n` exactly when it is its function key and Alt is held. */
  lemma FunctionKeysSwitch(kb: Kb, h: seq<byte>, active: nat, scan1: byte, scan2: byte, n: nat)
    requires Typable(kb, active, scan1) && FlagsAre(kb.flags, h)
    ensures SwitchTo(n) in Handle(kb, active, scan1, scan2).1 <==> AltHeld(h) && scan1 == 0x3B + n && n < 3
  {
    FlagsFollow(kb.flags, h, scan1, scan2);
  }

  /** A character key pressed while nobody reads is shown all the same, and not stored. */
  lemma IdleKeysAreShown(kb: Kb, h: seq<byte>, active: nat, scan1: byte, scan2: byte)
    requires Typable(kb, active, scan1) && FlagsAre(kb.flags, h) && Idle(kb.lines[active]) && CapOf(scan1) != NoCap
    requires scan1 < RELEASED_MASK
    ensures
      var (kb', fs) := Handle(kb, active, scan1, scan2);
      && CharOf(CapsOn(h), ShiftHeld(h), CapOf(scan1)).Some?
      && fs == [Putc(CharOf(CapsOn(h), ShiftHeld(h), CapOf(scan1)).value)] && kb'.lines == kb.lines
  {
    FlagsFollow(kb.flags, h, scan1, scan2);
    TableHasCaps(kb.flags, scan1);
  }
}
