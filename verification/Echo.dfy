/** What a reader gets is what the screen shows: the keyboard's echo, the screens and the line
    editor together (src/drivers/keyboard.c, src/lib.c, src/drivers/terminal.c). */
module Echo {
  import opened Layout
  import opened Processes
  import opened Invariant
  import opened Screens
  import opened Terminals
  import opened TerminalRuns
  import Steps
  import Keyboard

  /** Cells in reading order. */
  function Cell(s: Screen): nat { NUM_COLS * s.y + s.x }

  predicate Plain(text: seq<byte>) { forall i :: 0 <= i < |text| ==> !IsNewLine(text[i]) }

  /** The cursor behind a text that starts in cell `start`; a closing new line leads to the next row. */
  function CellBehind(start: nat, text: seq<byte>): nat {
    if text != [] && text[|text| - 1] == NL then NUM_COLS * ((start + |text| - 1) / NUM_COLS + 1) else start + |text|
  }

  /** The screen shows the text from cell `start` on, with the cursor behind it. */
  predicate LineShown(s: Screen, start: nat, text: seq<byte>) {
    && s.Ok() && Cell(s) == CellBehind(start, text)
    && forall i :: 0 <= i < |text| && text[i] != NL ==>
         start + i < NUM_COLS * NUM_ROWS && s.page[2 * (start + i)] == text[i]
  }

  /** A line moves up with the screen by whole rows. */
  predicate MovedUp(start: nat, start': nat) { start' <= start && start' % NUM_COLS == start % NUM_COLS }

  // ---- One effect on one screen ----

  /** Scrolling moves every cell up by a row. */
  lemma ScrolledCell(p: Page, attrib: byte, cell: nat)
    requires NUM_COLS <= cell < NUM_COLS * NUM_ROWS
    ensures ShiftDisplay(p, attrib)[2 * (cell - NUM_COLS)] == p[2 * cell]
  {
  }

  lemma WrittenShows(s: Screen, attrib: byte, start: nat, text: seq<byte>, c: byte)
    requires Plain(text) && LineShown(s, start, text) && !IsNewLine(c)
    ensures start + |text| < NUM_COLS * NUM_ROWS
    ensures forall i :: 0 <= i <= |text| ==> WriteCell(s.page, s.x, s.y, attrib, c)[2 * (start + i)] == (text + [c])[i]
  {
  }

  lemma PutShows(s: Screen, attrib: byte, start: nat, text: seq<byte>, c: byte) returns (start': nat)
    requires Plain(text) && |text| < Keyboard.MAX_BUFFER_SIZE && LineShown(s, start, text) && !IsNewLine(c)
    ensures MovedUp(start, start') && LineShown(Putc(s, attrib, c), start', text + [c])
  {
    WrittenShows(s, attrib, start, text, c);
    if start + |text| < NUM_COLS * NUM_ROWS - 1 {
      start' := start;
    } else {
      start' := start - NUM_COLS;
      var written := WriteCell(s.page, s.x, s.y, attrib, c);
      forall i | 0 <= i <= |text|
        ensures ShiftDisplay(written, attrib)[2 * (start' + i)] == (text + [c])[i]
      {
        ScrolledCell(written, attrib, start + i);
      }
    }
  }

  lemma NewLineShows(s: Screen, attrib: byte, start: nat, text: seq<byte>) returns (start': nat)
    requires Plain(text) && |text| < Keyboard.MAX_BUFFER_SIZE && LineShown(s, start, text)
    ensures MovedUp(start, start') && LineShown(Putc(s, attrib, NL), start', text + [NL])
  {
    start' := if s.y == NUM_ROWS - 1 then start - NUM_COLS else start;
  }

  lemma RubShows(s: Screen, attrib: byte, start: nat, text: seq<byte>)
    requires text != [] && Plain(text) && LineShown(s, start, text)
    ensures LineShown(DoBackspace(s, attrib), start, text[..|text| - 1])
  {
  }

  // ---- What one key echoes ----

  /** The screen after some of the interrupt's effects; a switch is no output. */
  function Applied(s: Screen, attrib: byte, fs: seq<Keyboard.Effect>): (r: Screen)
    requires s.Ok()
    ensures r.Ok()
    decreases |fs|
  {
    if fs == [] then s else Applied(AppliedOne(s, attrib, fs[0]), attrib, fs[1..])
  }

  function AppliedOne(s: Screen, attrib: byte, f: Keyboard.Effect): (r: Screen)
    requires s.Ok()
    ensures r.Ok()
  {
    match f
    case Putc(c) => Screens.Putc(s, attrib, c)
    case DoBackspace => Screens.DoBackspace(s, attrib)
    case SwitchTo(_) => s
  }

  lemma {:induction false} AppliedLast(s: Screen, attrib: byte, fs: seq<Keyboard.Effect>, f: Keyboard.Effect)
    requires s.Ok()
    ensures Applied(s, attrib, fs + [f]) == AppliedOne(Applied(s, attrib, fs), attrib, f)
    decreases |fs|
  {
    if fs == [] {
      assert (fs + [f])[1..] == [];
    } else {
      assert (fs + [f])[1..] == fs[1..] + [f];
      AppliedLast(AppliedOne(s, attrib, fs[0]), attrib, fs[1..], f);
    }
  }

  lemma PlainRow(i: nat)
    requires i < |Keyboard.PLAIN_KEYS| && i != Keyboard.ENTER_KEYCODE - 2
    ensures !IsNewLine(Keyboard.PLAIN_KEYS[i] as int % 0x100)
  {
  }

  lemma ShiftedRow(i: nat)
    requires i < |Keyboard.SHIFTED_KEYS| && i != Keyboard.ENTER_KEYCODE - 2
    ensures !IsNewLine(Keyboard.SHIFTED_KEYS[i] as int % 0x100)
  {
  }

  /** No key but Enter prints a new line. */
  lemma KeysArePlain(f: Keyboard.Flags, scan: nat)
    requires scan < Keyboard.SUPPORTED_KEYS && scan != Keyboard.ENTER_KEYCODE
    ensures !IsNewLine(Keyboard.OutputOf(f, scan))
  {
    if 2 <= scan < 2 + |Keyboard.PLAIN_KEYS| {
      PlainRow(scan - 2);
      ShiftedRow(scan - 2);
    }
  }

  lemma {:induction false} SpacesShow(s: Screen, attrib: byte, start: nat, text: seq<byte>, n: nat)
    returns (start': nat)
    requires Plain(text) && |text| + n < Keyboard.MAX_BUFFER_SIZE && LineShown(s, start, text)
    ensures MovedUp(start, start')
    ensures
      var spaces := seq(n, _ => SPACE);
      && Plain(text + spaces)
      && LineShown(Applied(s, attrib, seq(n, _ => Keyboard.Putc(SPACE))), start', text + spaces)
  {
    if n == 0 {
      start' := start;
      assert text + [] == text;
    } else {
      var middle := SpacesShow(s, attrib, start, text, n - 1);
      var fs := seq(n - 1, _ => Keyboard.Putc(SPACE));
      var shown := text + seq(n - 1, _ => SPACE);
      start' := PutShows(Applied(s, attrib, fs), attrib, middle, shown, SPACE);
      AppliedLast(s, attrib, fs, Keyboard.Putc(SPACE));
      assert fs + [Keyboard.Putc(SPACE)] == seq(n, _ => Keyboard.Putc(SPACE));
      assert shown + [SPACE] == text + seq(n, _ => SPACE);
    }
  }

  lemma PrintShows(f: Keyboard.Flags, line: Keyboard.Line, scan: nat, s: Screen, attrib: byte, start: nat)
    returns (start': nat)
    requires Keyboard.Waiting(line) && scan < Keyboard.SUPPORTED_KEYS && scan != Keyboard.ENTER_KEYCODE
    requires Plain(line.Text()) && LineShown(s, start, line.Text())
    ensures
      var (line', fs) := Keyboard.PrintCharacter(f, line, scan);
      && MovedUp(start, start') && Plain(line'.Text()) && LineShown(Applied(s, attrib, fs), start', line'.Text())
  {
    var (line', fs) := Keyboard.PrintCharacter(f, line, scan);
    if fs == [] {
      start' := start;
    } else if scan == Keyboard.SCAN_TAB {
      start' := SpacesShow(s, attrib, start, line.Text(), 4);
      var l := Keyboard.TabStores(line);
      assert fs == seq(4, _ => Keyboard.Putc(SPACE)) && [SPACE, SPACE, SPACE, SPACE] == seq(4, _ => SPACE);
    } else {
      var c := Keyboard.OutputOf(f, scan);
      KeysArePlain(f, scan);
      Keyboard.StoredText(line, c);
      start' := PutShows(s, attrib, start, line.Text(), c);
      AppliedLast(s, attrib, [], Keyboard.Putc(c));
    }
  }

  lemma BackspaceShows(f: Keyboard.Flags, line: Keyboard.Line, s: Screen, attrib: byte, start: nat)
    requires Keyboard.Waiting(line) && Plain(line.Text()) && LineShown(s, start, line.Text())
    ensures
      var (line', fs) := Keyboard.PressKey(f, line, Keyboard.BACKSPACE);
      line'.Ok() && LineShown(Applied(s, attrib, fs), start, line'.Text()) && Plain(line'.Text())
  {
    if line.size > 0 {
      RubShows(s, attrib, start, line.Text());
      AppliedLast(s, attrib, [], Keyboard.DoBackspace);
      assert line.Text()[..line.size - 1] == line.buffer[..line.size - 1];
    }
  }

  /** A key that is no control code: the screen shows the line it leaves. */
  lemma PressShows(f: Keyboard.Flags, line: Keyboard.Line, scan: nat, s: Screen, attrib: byte, start: nat)
    returns (start': nat)
    requires Keyboard.Waiting(line) && scan < Keyboard.SUPPORTED_KEYS
    requires Plain(line.Text()) && LineShown(s, start, line.Text())
    ensures
      var (line', fs) := Keyboard.PressKey(f, line, scan);
      && line'.Ok() && MovedUp(start, start') && LineShown(Applied(s, attrib, fs), start', line'.Text())
      && (!line'.ack ==> Plain(line'.Text()))
  {
    var text := line.Text();
    if scan == Keyboard.BACKSPACE {
      start' := start;
      BackspaceShows(f, line, s, attrib, start);
    } else if scan == Keyboard.ENTER_KEYCODE {
      start' := NewLineShows(s, attrib, start, text);
      Keyboard.StoredText(line, NL);
      AppliedLast(s, attrib, [], Keyboard.Putc(NL));
    } else {
      start' := PrintShows(f, line, scan, s, attrib, start);
      var (line', fs) := Keyboard.PrintCharacter(f, line, scan);
      if line'.size >= Keyboard.MAX_BUFFER_SIZE - 2 {
        start' := NewLineShows(Applied(s, attrib, fs), attrib, start', line'.Text());
        Keyboard.StoredText(line', NL);
        AppliedLast(s, attrib, fs, Keyboard.Putc(NL));
      }
    }
  }

  // ---- Keyboard, terminals and processes together ----

  /** The machine with its keyboard. */
  datatype System = System(m: Machine, kb: Keyboard.Kb) {
    ghost predicate Valid() { Ok(m) && |kb.lines| == |m.k.stacks| }

    /** Terminal `t` has a reader whose line is not finished. */
    ghost predicate Reading(t: nat) {
      Valid() && t < |kb.lines| && Keyboard.Waiting(kb.lines[t]) && Plain(kb.lines[t].Text())
    }
  }

  /** A keyboard interrupt, taken on the kernel stack at `esp`, or something a process does. */
  datatype SystemEvent = Key(esp: uint32, scan1: byte, scan2: byte) | Other(e: MachineEvent)

  ghost predicate Possible(s: System, e: SystemEvent) {
    && s.Valid()
    && match e
       case Key(esp, scan1, _) =>
         && Keyboard.Typable(s.kb, s.m.k.curr, scan1) && OnStack(s.m.k, esp)
         && (Keyboard.FUNCTION_1 <= scan1 <= Keyboard.FUNCTION_3 ==> scan1 - Keyboard.FUNCTION_1 < |s.m.k.stacks|)
       case Other(e) => CanHappen(s.m, e) && (e.WriteByte? || (e.KernelEvent? && !e.e.SwitchKey?))
  }

  /** What the interrupt's effects are to the machine. */
  function ToEvent(esp: uint32, f: Keyboard.Effect): MachineEvent {
    match f
    case Putc(c) => EchoByte(c)
    case DoBackspace => RubOut
    case SwitchTo(term) => KernelEvent(Steps.SwitchKey(esp, term))
  }

  function ToEvents(esp: uint32, fs: seq<Keyboard.Effect>): (es: seq<MachineEvent>)
    ensures |es| == |fs|
  {
    if fs == [] then [] else [ToEvent(esp, fs[0])] + ToEvents(esp, fs[1..])
  }

  predicate NoSwitch(fs: seq<Keyboard.Effect>) { forall i :: 0 <= i < |fs| ==> !fs[i].SwitchTo? }

  /** Output of the keyboard. */
  predicate KeyboardOnly(es: seq<MachineEvent>) { forall i :: 0 <= i < |es| ==> es[i].EchoByte? || es[i].RubOut? }

  function KeyboardOutput(e: MachineEvent, t: nat): Output { if e.EchoByte? then Print(t, [e.c]) else Rub(t) }

  /** What it prints on the displayed terminal `t`. */
  function Printed(es: seq<MachineEvent>, t: nat): seq<Output>
    requires KeyboardOnly(es)
  {
    if es == [] then [] else [KeyboardOutput(es[0], t)] + Printed(es[1..], t)
  }

  lemma KeyboardOwn(k: Kernel, e: MachineEvent, t: nat)
    requires e.EchoByte? || e.RubOut?
    ensures Own(OutputOf(k, e), t) == if t == k.curr then [KeyboardOutput(e, t)] else []
  {
  }

  lemma {:induction false} KeyboardRuns(m: Machine, es: seq<MachineEvent>, t: nat)
    requires Ok(m) && KeyboardOnly(es)
    ensures Feasible(m, es) && Run(m, es).k == m.k
    ensures Outputs(m, es, t) == if t == m.k.curr then Printed(es, t) else []
    decreases |es|
  {
    if es != [] {
      KeyboardOwn(m.k, es[0], t);
      KeyboardRuns(MachineStep(m, es[0]), es[1..], t);
    }
  }

  lemma {:induction false} EchoesReplay(s: Screen, attrib: byte, esp: uint32, fs: seq<Keyboard.Effect>, t: nat)
    requires s.Ok() && NoSwitch(fs)
    ensures KeyboardOnly(ToEvents(esp, fs))
    ensures Replay(s, attrib, Printed(ToEvents(esp, fs), t)) == Applied(s, attrib, fs)
    decreases |fs|
  {
    if fs != [] {
      var es := ToEvents(esp, fs);
      EchoesReplay(AppliedOne(s, attrib, fs[0]), attrib, esp, fs[1..], t);
      EchoApplied(s, attrib, esp, fs[0], t);
      assert es[1..] == ToEvents(esp, fs[1..]);
      assert Printed(es, t)[1..] == Printed(es[1..], t);
    }
  }

  lemma EchoApplied(s: Screen, attrib: byte, esp: uint32, f: Keyboard.Effect, t: nat)
    requires s.Ok() && !f.SwitchTo?
    ensures Apply(s, attrib, KeyboardOutput(ToEvent(esp, f), t)) == AppliedOne(s, attrib, f)
  {
    if f.Putc? {
      assert [f.c][1..] == [];
      assert PutAll(s, attrib, [f.c]) == PutAll(Putc(s, attrib, f.c), attrib, []);
    }
  }

  /** Echo changes the displayed screen as the effects say, and no other. */
  lemma EchoesShow(m: Machine, esp: uint32, fs: seq<Keyboard.Effect>, t: nat)
    requires Ok(m) && NoSwitch(fs) && t < |m.k.stacks| && Feasible(m, ToEvents(esp, fs))
    ensures
      ScreenOf(Run(m, ToEvents(esp, fs)), t)
      == if t == m.k.curr then Applied(ScreenOf(m, t), m.d.attribs[t], fs) else ScreenOf(m, t)
  {
    EchoesReplay(ScreenOf(m, t), m.d.attribs[t], esp, fs, t);
    ScreensAreIndependent(m, ToEvents(esp, fs), t);
    KeyboardRuns(m, ToEvents(esp, fs), t);
  }

  ghost function Effects(s: System, e: SystemEvent): seq<Keyboard.Effect>
    requires Possible(s, e) && e.Key?
  {
    Keyboard.Handle(s.kb, s.m.k.curr, e.scan1, e.scan2).1
  }

  /** The effects are echo, or one terminal switch. */
  lemma EffectsFeasible(s: System, e: SystemEvent)
    requires Possible(s, e) && e.Key?
    ensures
      var fs := Effects(s, e);
      NoSwitch(fs) || fs == [Keyboard.SwitchTo(e.scan1 - Keyboard.FUNCTION_1)]
    ensures Feasible(s.m, ToEvents(e.esp, Effects(s, e)))
  {
    var fs := Effects(s, e);
    if NoSwitch(fs) {
      EchoesReplay(Screen(seq(KB4, _ => 0), 0, 0), 0, e.esp, fs, 0);
      KeyboardRuns(s.m, ToEvents(e.esp, fs), 0);
    } else {
      assert ToEvents(e.esp, fs)[1..] == [];
    }
  }

  /** A key that asks for a terminal there is no process slot for. */
  ghost predicate Refusal(s: System, e: SystemEvent)
    requires Possible(s, e)
  {
    && e.Key? && |Effects(s, e)| == 1 && Effects(s, e)[0].SwitchTo?
    && var term := Effects(s, e)[0].term; term != s.m.k.curr && term < |s.m.k.stacks| && Refuses(s.m.k, term)
  }

  /** The interrupt's effects reach the machine; a refused switch acknowledges the line on display. */
  ghost function SystemStep(s: System, e: SystemEvent): (s': System)
    requires Possible(s, e)
    ensures s'.Valid() && |s'.kb.lines| == |s.kb.lines|
  {
    match e
    case Key(esp, scan1, scan2) =>
      EffectsFeasible(s, e);
      var kb := Keyboard.Handle(s.kb, s.m.k.curr, scan1, scan2).0;
      System(Run(s.m, ToEvents(esp, Effects(s, e))),
             if Refusal(s, e) then Keyboard.After(kb, Keyboard.SwitchRefused(s.m.k.curr)) else kb)
    case Other(e) => System(MachineStep(s.m, e), s.kb)
  }

  /** What the event is to the line editor of terminal `t`. */
  ghost function KeyFor(s: System, e: SystemEvent, t: nat): Keyboard.Key
    requires Possible(s, e)
  {
    if e.Other? then Keyboard.Nothing
    else if Refusal(s, e) then (if s.m.k.curr == t then Keyboard.Refused else Keyboard.Nothing)
    else Keyboard.KeyFor(s.kb.flags, Keyboard.Typed(s.m.k.curr, e.scan1, e.scan2), t)
  }

  /** Apart from the keyboard nothing prints on `t`, and the key is one the editor echoes. */
  ghost predicate Echoed(s: System, e: SystemEvent, t: nat)
    requires Possible(s, e)
  {
    && (e.Other? ==> Own(OutputOf(s.m.k, e.e), t) == [])
    && !KeyFor(s, e, t).Control? && !KeyFor(s, e, t).Refused?
  }

  /** A switch that is not refused leaves every screen alone, and a refused one all but the displayed. */
  lemma SwitchShows(m: Machine, esp: uint32, term: nat, t: nat)
    requires Ok(m) && t < |m.k.stacks| && Feasible(m, ToEvents(esp, [Keyboard.SwitchTo(term)]))
    requires term != m.k.curr && term < |m.k.stacks| && Refuses(m.k, term) ==> m.k.curr != t
    ensures ScreenOf(Run(m, ToEvents(esp, [Keyboard.SwitchTo(term)])), t) == ScreenOf(m, t)
  {
    var e := KernelEvent(Steps.SwitchKey(esp, term));
    assert ToEvents(esp, [Keyboard.SwitchTo(term)]) == [e] && [e][1..] == [];
    StepRefinesScreen(m, e, t);
    ReplayOwn(ScreenOf(m, t), m.d.attribs[t], OutputOf(m.k, e), t);
  }

  /** What a key's effects run as. */
  lemma KeyRuns(s: System, e: SystemEvent) returns (es: seq<MachineEvent>)
    requires Possible(s, e) && e.Key?
    ensures es == ToEvents(e.esp, Effects(s, e)) && Feasible(s.m, es) && SystemStep(s, e).m == Run(s.m, es)
  {
    EffectsFeasible(s, e);
    es := ToEvents(e.esp, Effects(s, e));
  }

  lemma RefusalIs(s: System, e: SystemEvent, term: nat)
    requires Possible(s, e) && e.Key? && Effects(s, e) == [Keyboard.SwitchTo(term)]
    ensures Refusal(s, e) <==> term != s.m.k.curr && term < |s.m.k.stacks| && Refuses(s.m.k, term)
  {
  }

  /** The interrupt on the screen of terminal `t`. */
  lemma KeyOnScreen(s: System, e: SystemEvent, t: nat)
    requires Possible(s, e) && e.Key? && t < |s.kb.lines| && !(Refusal(s, e) && s.m.k.curr == t)
    ensures
      ScreenOf(SystemStep(s, e).m, t)
      == if t == s.m.k.curr then Applied(ScreenOf(s.m, t), s.m.d.attribs[t], Effects(s, e)) else ScreenOf(s.m, t)
  {
    EffectsFeasible(s, e);
    var es := KeyRuns(s, e);
    if NoSwitch(Effects(s, e)) {
      EchoesShow(s.m, e.esp, Effects(s, e), t);
    } else {
      var term: nat := e.scan1 - Keyboard.FUNCTION_1;
      RefusalIs(s, e, term);
      SwitchShows(s.m, e.esp, term, t);
      AppliedLast(ScreenOf(s.m, t), s.m.d.attribs[t], [], Keyboard.SwitchTo(term));
    }
  }

  /** The interrupt on the line of terminal `t`. */
  lemma KeyOnLine(s: System, e: SystemEvent, t: nat)
    requires Possible(s, e) && e.Key? && s.Reading(t) && Echoed(s, e, t)
    ensures
      var line, line' := s.kb.lines[t], SystemStep(s, e).kb.lines[t];
      && Keyboard.Edited(line, line', Keyboard.Edit(line.Text(), KeyFor(s, e, t)))
  {
    Keyboard.EventEdits(s.kb, Keyboard.Typed(s.m.k.curr, e.scan1, e.scan2), t);
  }

  /** The effects of the interrupt show what it does to the line. */
  lemma HandleShows(kb: Keyboard.Kb, t: nat, scan1: byte, scan2: byte, s: Screen, attrib: byte, start: nat)
    returns (start': nat)
    requires Keyboard.Typable(kb, t, scan1) && Keyboard.Waiting(kb.lines[t]) && Plain(kb.lines[t].Text())
    requires !Keyboard.KeyFor(kb.flags, Keyboard.Typed(t, scan1, scan2), t).Control?
    requires LineShown(s, start, kb.lines[t].Text())
    ensures
      var (kb', fs) := Keyboard.Handle(kb, t, scan1, scan2);
      && kb'.lines[t].Ok() && MovedUp(start, start') && LineShown(Applied(s, attrib, fs), start', kb'.lines[t].Text())
      && (!kb'.lines[t].ack ==> Plain(kb'.lines[t].Text()))
  {
    start' := start;
    var (kb', fs) := Keyboard.Handle(kb, t, scan1, scan2);
    var modifier := Keyboard.CheckModifierKeys(kb.flags, scan1, scan2).1;
    if modifier {
    } else if kb.flags.Alt() && Keyboard.FUNCTION_1 <= scan1 <= Keyboard.FUNCTION_3 {
      AppliedLast(s, attrib, [], fs[0]);
    } else if kb.flags.Ctrl() {
    } else if scan1 < Keyboard.RELEASED_MASK {
      start' := PressShows(kb.flags, kb.lines[t], scan1, s, attrib, start);
    }
  }

  /** One event: the screen of a reading terminal goes on showing its line. */
  lemma StepShows(s: System, e: SystemEvent, t: nat, start: nat) returns (start': nat)
    requires Possible(s, e) && s.Reading(t) && Echoed(s, e, t)
    requires LineShown(ScreenOf(s.m, t), start, s.kb.lines[t].Text())
    ensures
      var s' := SystemStep(s, e);
      var line := s'.kb.lines[t];
      && line.Ok() && MovedUp(start, start') && LineShown(ScreenOf(s'.m, t), start', line.Text())
      && Keyboard.Edit(s.kb.lines[t].Text(), KeyFor(s, e, t)) == Keyboard.Editor(line.Text(), line.ack)
      && (line.ack || s'.Reading(t))
  {
    if e.Other? {
      StepRefinesScreen(s.m, e.e, t);
      start' := start;
    } else {
      KeyOnScreen(s, e, t);
      KeyOnLine(s, e, t);
      start' := start;
      if s.m.k.curr == t {
        start' := HandleShows(s.kb, t, e.scan1, e.scan2, ScreenOf(s.m, t), s.m.d.attribs[t], start);
      } else {
        Keyboard.OtherLinesUntouched(s.kb, s.m.k.curr, e.scan1, e.scan2, t);
      }
    }
  }

  // ---- Whole reads ----

  /** Events while terminal `t` reads and only its own echo goes to its screen, at most up to the
      acknowledgement. */
  ghost predicate UpToAck(s: System, es: seq<SystemEvent>, t: nat)
    requires s.Valid() && t < |s.kb.lines|
    decreases |es|
  {
    es != [] ==>
      && Possible(s, es[0]) && Echoed(s, es[0], t)
      && (SystemStep(s, es[0]).kb.lines[t].ack ==> |es| == 1)
      && UpToAck(SystemStep(s, es[0]), es[1..], t)
  }

  ghost function RunSystem(s: System, es: seq<SystemEvent>, t: nat): (s': System)
    requires s.Valid() && t < |s.kb.lines| && UpToAck(s, es, t)
    ensures s'.Valid() && |s'.kb.lines| == |s.kb.lines|
    decreases |es|
  {
    if es == [] then s else RunSystem(SystemStep(s, es[0]), es[1..], t)
  }

  /** The keys of terminal `t`, in order. */
  ghost function Keys(s: System, es: seq<SystemEvent>, t: nat): seq<Keyboard.Key>
    requires s.Valid() && t < |s.kb.lines| && UpToAck(s, es, t)
    decreases |es|
  {
    if es == [] then [] else [KeyFor(s, es[0], t)] + Keys(SystemStep(s, es[0]), es[1..], t)
  }

  lemma EditOne(text: seq<byte>, key: Keyboard.Key, rest: seq<Keyboard.Key>)
    ensures
      var e := Keyboard.Edit(text, key);
      Keyboard.EditAll(text, [key] + rest) == if e.done then e else Keyboard.EditAll(e.text, rest)
  {
    assert ([key] + rest)[1..] == rest;
  }

  /** Whatever is typed, on whichever terminal is on display, and whatever processes do on other
      screens: the screen of a reading terminal shows the line edited so far, which may have moved
      up by whole rows. */
  lemma {:induction false} ScreenShowsLine(s: System, es: seq<SystemEvent>, t: nat, start: nat) returns (start': nat)
    requires s.Reading(t) && UpToAck(s, es, t) && LineShown(ScreenOf(s.m, t), start, s.kb.lines[t].Text())
    ensures
      var s' := RunSystem(s, es, t);
      var line := s'.kb.lines[t];
      && line.Ok() && MovedUp(start, start') && LineShown(ScreenOf(s'.m, t), start', line.Text())
      && Keyboard.EditAll(s.kb.lines[t].Text(), Keys(s, es, t)) == Keyboard.Editor(line.Text(), line.ack)
    decreases |es|
  {
    start' := start;
    if es != [] {
      var s' := SystemStep(s, es[0]);
      start' := StepShows(s, es[0], t, start);
      EditOne(s.kb.lines[t].Text(), KeyFor(s, es[0], t), Keys(s', es[1..], t));
      if s'.Reading(t) {
        start' := ScreenShowsLine(s', es[1..], t, start');
      } else {
        assert es[1..] == [];
      }
    }
  }

  /** `keyboard_read` begins. */
  ghost function Started(s: System, t: nat): (s': System)
    requires s.Valid() && t < |s.kb.lines|
    ensures s'.Valid() && s'.m == s.m && |s'.kb.lines| == |s.kb.lines|
  {
    s.(kb := s.kb.(lines := s.kb.lines[t := Keyboard.BeginRead(s.kb.lines[t])]))
  }

  lemma StartedShows(s: System, t: nat)
    requires s.Valid() && t < |s.kb.lines| && Keyboard.Idle(s.kb.lines[t])
    ensures Started(s, t).Reading(t) && Started(s, t).kb.lines[t].Text() == []
    ensures LineShown(ScreenOf(s.m, t), Cell(ScreenOf(s.m, t)), [])
  {
  }

  /** A read of any size, negative ones included, delivers the line cut to it. */
  lemma FinishCuts(line: Keyboard.Line, nbytes: int32)
    requires line.Ok()
    ensures
      Keyboard.FinishRead(line, nbytes).0 == line.Text()[..if nbytes < 0 then line.size else Min(line.size, nbytes)]
  {
  }

  /** The screen of `t` shows its line from cell `start` on, and a read delivers that line, cut. */
  ghost predicate ShowsAndDelivers(s: System, t: nat, start: nat, nbytes: int32) {
    && s.Valid() && t < |s.kb.lines| && s.kb.lines[t].Ok()
    && var text := s.kb.lines[t].Text();
      && LineShown(ScreenOf(s.m, t), start, text)
      && Keyboard.FinishRead(s.kb.lines[t], nbytes).0 == text[..if nbytes < 0 then |text| else Min(|text|, nbytes)]
  }

  /** What a reader gets is what its screen shows, from where the cursor stood when it began: a read
      delivers that text, cut to the size asked for. */
  lemma ReaderGetsWhatScreenShows(s: System, started: System, es: seq<SystemEvent>, t: nat, nbytes: int32)
    returns (s': System, start: nat)
    requires s.Valid() && t < |s.kb.lines| && Keyboard.Idle(s.kb.lines[t]) && started == Started(s, t)
    requires UpToAck(started, es, t)
    ensures s' == RunSystem(started, es, t) && ShowsAndDelivers(s', t, start, nbytes)
    ensures MovedUp(Cell(ScreenOf(s.m, t)), start)
    ensures Keyboard.EditAll([], Keys(started, es, t)) == Keyboard.Editor(s'.kb.lines[t].Text(), s'.kb.lines[t].ack)
  {
    StartedShows(s, t);
    s' := RunSystem(started, es, t);
    start := ScreenShowsLine(started, es, t, Cell(ScreenOf(s.m, t)));
    FinishCuts(s'.kb.lines[t], nbytes);
  }

  lemma ControlHasNoEffects(kb: Keyboard.Kb, t: nat, scan1: byte, scan2: byte)
    requires Keyboard.Typable(kb, t, scan1) && Keyboard.Waiting(kb.lines[t])
    requires Keyboard.KeyFor(kb.flags, Keyboard.Typed(t, scan1, scan2), t).Control?
    ensures Keyboard.Handle(kb, t, scan1, scan2).1 == []
  {
  }

  lemma ControlIs(s: System, e: SystemEvent)
    requires Possible(s, e) && s.Reading(s.m.k.curr) && KeyFor(s, e, s.m.k.curr).Control?
    ensures e.Key? && Effects(s, e) == [] && !Refusal(s, e)
  {
    ControlHasNoEffects(s.kb, s.m.k.curr, e.scan1, e.scan2);
  }

  lemma ControlOnLine(s: System, e: SystemEvent)
    requires Possible(s, e) && s.Reading(s.m.k.curr) && KeyFor(s, e, s.m.k.curr).Control?
    ensures
      var line := SystemStep(s, e).kb.lines[s.m.k.curr];
      line.Ok() && line.ack && line.Text() == [KeyFor(s, e, s.m.k.curr).code]
  {
    ControlIs(s, e);
    Keyboard.EventEdits(s.kb, Keyboard.Typed(s.m.k.curr, e.scan1, e.scan2), s.m.k.curr);
  }

  /** A control code is not echoed: it becomes the whole line, and the screen
      stays as it was. */
  lemma ControlIsNotEchoed(s: System, e: SystemEvent)
    requires Possible(s, e) && s.Reading(s.m.k.curr) && KeyFor(s, e, s.m.k.curr).Control?
    ensures
      var s', t := SystemStep(s, e), s.m.k.curr;
      && ScreenOf(s'.m, t) == ScreenOf(s.m, t)
      && s'.kb.lines[t].Ok() && s'.kb.lines[t].ack && s'.kb.lines[t].Text() == [KeyFor(s, e, t).code]
  {
    ControlIs(s, e);
    ControlOnLine(s, e);
    KeyOnScreen(s, e, s.m.k.curr);
  }
}
