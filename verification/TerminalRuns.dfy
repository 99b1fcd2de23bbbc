/** The refinement: any interleaving of output, echo, switches, launches and halts behaves like
    independent screens. */
module TerminalRuns {
  import opened Layout
  import opened Paging
  import opened Pids
  import opened Processes
  import opened Invariant
  import opened Screens
  import opened Transcripts
  import opened Terminals

  /** A switch moves pages so that every terminal finds its old screen in its new frame. */
  lemma SwitchMovesPages(k: Kernel, ram: map<nat, Page>, term: nat, t: nat)
    requires Inv(k) && FramesPresent(ram, |k.stacks|) && term < |k.stacks| && term != k.curr && t < |k.stacks|
    ensures
      var ram' := SwitchPages(k, ram, term);
      FramesPresent(ram', |k.stacks|) && ram'[ScreenFrame(t, term)] == ram[ScreenFrame(t, k.curr)]
  {
    SwitchPagesMove(k, ram, term);
    BackupIndex(k.curr);
    BackupIndex(term);
    BackupIndex(t);
  }

  /** An output applied to the screen on one frame. */
  function Emitted(d: Display, o: Output, frame: nat): Display
    requires !o.Nothing? && o.term < |d.cursors| == |d.attribs| && frame in d.ram
    requires d.cursors[o.term].x < NUM_COLS && d.cursors[o.term].y < NUM_ROWS
  {
    var t := o.term;
    var s := Apply(Screen(d.ram[frame], d.cursors[t].x, d.cursors[t].y), d.attribs[t], o);
    d.(ram := d.ram[frame := s.page], cursors := d.cursors[t := Cursor(s.x, s.y)])
  }

  /** Every output reaches the frame of the terminal it is for. */
  lemma OutputReaches(m: Machine, e: MachineEvent)
    requires Ok(m) && CanHappen(m, e) && !Switches(m.k, e) && !OutputOf(m.k, e).Nothing?
    ensures
      var o := OutputOf(m.k, e);
      var frame := ScreenFrame(o.term, m.k.curr);
      && 0 <= OutputAddress(m.k, e) < 0x1_0000_0000 && Walk(m.k.tables, OutputAddress(m.k, e), false).Some?
      && FrameOf(m.k.tables, OutputAddress(m.k, e)) == frame
      && o.term < |m.k.stacks| && IsScreenFrame(frame, |m.k.stacks|) && frame in m.d.ram
      && DisplayAfter(m, e) == Emitted(m.d, o, frame)
  {
    ScreenFrames(m.k.tables, |m.k.stacks|, m.k.curr, m.k.exec);
  }

  /** Printing through an address that translates to terminal `o.term`'s frame changes that screen
      and no other. */
  lemma OutputStays(m: Machine, e: MachineEvent, t: nat)
    requires Ok(m) && CanHappen(m, e) && !Switches(m.k, e) && !OutputOf(m.k, e).Nothing? && t < |m.k.stacks|
    ensures
      var d', o := DisplayAfter(m, e), OutputOf(m.k, e);
      && DisplayOk(d', |m.k.stacks|) && d'.attribs == m.d.attribs && o.term < |m.k.stacks|
      && ScreenFrame(t, m.k.curr) in d'.ram
      && Screen(d'.ram[ScreenFrame(t, m.k.curr)], d'.cursors[t].x, d'.cursors[t].y)
         == if t == o.term then Apply(ScreenOf(m, t), m.d.attribs[t], o) else ScreenOf(m, t)
  {
    OutputReaches(m, e);
    ScreenFramesDistinct(t, OutputOf(m.k, e).term, m.k.curr);
  }

  /** An output as terminal `t` sees it: one, if it is for `t`. */
  function Own(o: Output, t: nat): (os: seq<Output>)
    ensures |os| <= 1
  {
    if !o.Nothing? && o.term == t then [o] else []
  }

  function Replay(s: Screen, attrib: byte, os: seq<Output>): (r: Screen)
    requires s.Ok()
    ensures r.Ok()
    decreases |os|
  {
    if os == [] then s else Replay(Apply(s, attrib, os[0]), attrib, os[1..])
  }

  lemma StepKeepsOk(m: Machine, e: MachineEvent)
    requires Ok(m) && CanHappen(m, e)
    ensures Ok(Machine(KernelAfter(m, e), DisplayAfter(m, e))) && DisplayAfter(m, e).attribs == m.d.attribs
  {
    if Switches(m.k, e) {
      SwitchMovesPages(m.k, m.d.ram, e.e.term, 0);
    } else if !OutputOf(m.k, e).Nothing? {
      OutputStays(m, e, 0);
    }
  }

  /** The screen of terminal `t`, when its page is `page` in a machine that is all right. */
  lemma ScreenIs(m: Machine, t: nat, page: Page)
    requires Ok(m) && t < |m.k.stacks| && ScreenFrame(t, m.k.curr) in m.d.ram
    requires m.d.ram[ScreenFrame(t, m.k.curr)] == page
    ensures ScreenOf(m, t) == Screen(page, m.d.cursors[t].x, m.d.cursors[t].y)
  {
  }

  lemma SwitchRefines(m: Machine, e: MachineEvent, t: nat)
    requires Ok(m) && CanHappen(m, e) && t < |m.k.stacks| && Switches(m.k, e)
    requires Ok(Machine(KernelAfter(m, e), DisplayAfter(m, e)))
    ensures ScreenOf(Machine(KernelAfter(m, e), DisplayAfter(m, e)), t) == ScreenOf(m, t)
  {
    SwitchMovesPages(m.k, m.d.ram, e.e.term, t);
    ScreenIs(Machine(KernelAfter(m, e), DisplayAfter(m, e)), t, m.d.ram[ScreenFrame(t, m.k.curr)]);
  }

  lemma OutputRefines(m: Machine, e: MachineEvent, t: nat)
    requires Ok(m) && CanHappen(m, e) && t < |m.k.stacks| && !Switches(m.k, e) && !OutputOf(m.k, e).Nothing?
    requires Ok(Machine(KernelAfter(m, e), DisplayAfter(m, e)))
    ensures
      var o := OutputOf(m.k, e);
      ScreenOf(Machine(KernelAfter(m, e), DisplayAfter(m, e)), t)
      == if t == o.term then Apply(ScreenOf(m, t), m.d.attribs[t], o) else ScreenOf(m, t)
  {
    OutputStays(m, e, t);
    var d' := DisplayAfter(m, e);
    ScreenIs(Machine(KernelAfter(m, e), d'), t, d'.ram[ScreenFrame(t, m.k.curr)]);
  }

  lemma ReplayOwn(s: Screen, attrib: byte, o: Output, t: nat)
    requires s.Ok()
    ensures Replay(s, attrib, Own(o, t)) == if !o.Nothing? && o.term == t then Apply(s, attrib, o) else s
  {
    assert [o][1..] == [];
  }

  /** One event, seen from terminal `t`: its screen changes exactly by the event's output, if that
      is for `t`; a switch, whatever it remaps and copies, changes no screen. */
  lemma StepRefinesScreen(m: Machine, e: MachineEvent, t: nat)
    requires Ok(m) && CanHappen(m, e) && t < |m.k.stacks|
    ensures
      var m' := Machine(KernelAfter(m, e), DisplayAfter(m, e));
      && Ok(m') && m'.d.attribs == m.d.attribs
      && ScreenOf(m', t) == Replay(ScreenOf(m, t), m.d.attribs[t], Own(OutputOf(m.k, e), t))
  {
    StepKeepsOk(m, e);
    ReplayOwn(ScreenOf(m, t), m.d.attribs[t], OutputOf(m.k, e), t);
    if Switches(m.k, e) {
      SwitchRefines(m, e, t);
    } else if !OutputOf(m.k, e).Nothing? {
      OutputRefines(m, e, t);
    }
  }

  ghost function MachineStep(m: Machine, e: MachineEvent): (m': Machine)
    requires Ok(m) && CanHappen(m, e)
    ensures Ok(m') && |m'.k.stacks| == |m.k.stacks| && m'.d.attribs == m.d.attribs
  {
    StepKeepsOk(m, e);
    Machine(KernelAfter(m, e), DisplayAfter(m, e))
  }

  // ---- What each event puts on a screen ----

  /** The text an event puts on terminal `t`: the byte a process writes to its own terminal, the byte
      the keyboard echoes on the one on display, the message of an `execute` without a PID left, and
      that of a switch to a terminal for whose shell there is none. */
  function TextOn(k: Kernel, e: MachineEvent, t: nat): seq<byte> {
    match e
    case WriteByte(c) => if t == k.exec then [c] else []
    case EchoByte(c) => if t == k.curr then [c] else []
    case KernelEvent(ExecuteCall(_, found)) =>
      if t == k.exec && found && AllUsed(k.pids) then Bytes("Max processes reached\n") else []
    case KernelEvent(SwitchKey(_, term)) =>
      if t == k.curr && term < |k.stacks| && term != k.curr && k.stacks[term] == [] && AllUsed(k.pids)
      then Bytes("\nTerminal not available - max processes reached!\n")
      else []
    case _ => []
  }

  predicate RubsOut(k: Kernel, e: MachineEvent, t: nat) { e.RubOut? && t == k.curr }

  /** The first process of its terminal halts or faults, and `t` is on display. */
  predicate Clears(k: Kernel, e: MachineEvent, t: nat) {
    e.KernelEvent? && (e.e.HaltCall? || e.e.Exception?) && k.exec < |k.stacks| && |k.stacks[k.exec]| == 1 && t == k.curr
  }

  /** The event's output, seen from terminal `t`. */
  lemma OwnOutput(k: Kernel, e: MachineEvent, t: nat)
    ensures
      Own(OutputOf(k, e), t)
      == if RubsOut(k, e, t) then [Rub(t)]
         else if Clears(k, e, t) then [Wipe(t)]
         else if TextOn(k, e, t) == [] then []
         else [Print(t, TextOn(k, e, t))]
  {
    AllocationTakesLeastFree(k.pids);
  }

  /** Every event on every screen. */
  lemma StepOnScreen(m: Machine, e: MachineEvent, t: nat)
    requires Ok(m) && CanHappen(m, e) && t < |m.k.stacks|
    ensures
      var s, attrib := ScreenOf(m, t), m.d.attribs[t];
      ScreenOf(MachineStep(m, e), t)
      == if RubsOut(m.k, e, t) then DoBackspace(s, attrib)
         else if Clears(m.k, e, t) then Clear(s, attrib)
         else PutAll(s, attrib, TextOn(m.k, e, t))
  {
    StepRefinesScreen(m, e, t);
    OwnOutput(m.k, e, t);
    ReplayOwn(ScreenOf(m, t), m.d.attribs[t], OutputOf(m.k, e), t);
  }

  ghost predicate Feasible(m: Machine, es: seq<MachineEvent>)
    requires Ok(m)
    decreases |es|
  {
    es != [] ==> CanHappen(m, es[0]) && Feasible(MachineStep(m, es[0]), es[1..])
  }

  ghost function Run(m: Machine, es: seq<MachineEvent>): (m': Machine)
    requires Ok(m) && Feasible(m, es)
    ensures Ok(m') && |m'.k.stacks| == |m.k.stacks| && m'.d.attribs == m.d.attribs
    decreases |es|
  {
    if es == [] then m else Run(MachineStep(m, es[0]), es[1..])
  }

  /** The outputs of a run that go to terminal `t`, in order. */
  ghost function Outputs(m: Machine, es: seq<MachineEvent>, t: nat): seq<Output>
    requires Ok(m) && Feasible(m, es)
    decreases |es|
  {
    if es == [] then [] else Own(OutputOf(m.k, es[0]), t) + Outputs(MachineStep(m, es[0]), es[1..], t)
  }

  lemma ReplayAppend(s: Screen, attrib: byte, own: seq<Output>, rest: seq<Output>)
    requires s.Ok() && |own| <= 1
    ensures Replay(s, attrib, own + rest) == Replay(Replay(s, attrib, own), attrib, rest)
  {
    if own == [] {
      assert own + rest == rest;
    } else {
      assert (own + rest)[1..] == rest && own[1..] == [];
    }
  }

  /** Virtual terminals are independent: after any run a terminal's screen is its old screen with
      its own outputs replayed on it. Neither switching, nor what other terminals print, nor on
      which frame the screen lay at the time makes any difference. */
  lemma {:induction false} ScreensAreIndependent(m: Machine, es: seq<MachineEvent>, t: nat)
    requires Ok(m) && Feasible(m, es) && t < |m.k.stacks|
    ensures ScreenOf(Run(m, es), t) == Replay(ScreenOf(m, t), m.d.attribs[t], Outputs(m, es, t))
    decreases |es|
  {
    if es != [] {
      var m' := MachineStep(m, es[0]);
      StepRefinesScreen(m, es[0], t);
      ScreensAreIndependent(m', es[1..], t);
      ReplayAppend(ScreenOf(m, t), m.d.attribs[t], Own(OutputOf(m.k, es[0]), t), Outputs(m', es[1..], t));
    }
  }

  lemma {:induction false} PutAllAppend(s: Screen, attrib: byte, a: seq<byte>, b: seq<byte>)
    requires s.Ok()
    ensures PutAll(s, attrib, a + b) == PutAll(PutAll(s, attrib, a), attrib, b)
    decreases |a|
  {
    if a == [] {
      assert a + b == b;
    } else {
      assert (a + b)[1..] == a[1..] + b;
      PutAllAppend(Putc(s, attrib, a[0]), attrib, a[1..], b);
    }
  }

  /** Nothing is rubbed out or cleared on terminal `t`. */
  ghost predicate OnlyText(m: Machine, es: seq<MachineEvent>, t: nat)
    requires Ok(m) && Feasible(m, es)
    decreases |es|
  {
    es != [] ==> !RubsOut(m.k, es[0], t) && !Clears(m.k, es[0], t) && OnlyText(MachineStep(m, es[0]), es[1..], t)
  }

  /** Everything a run writes to terminal `t`, in order: the bytes its processes write while it is
      executing, the echo while it is on display, and the messages. */
  ghost function TextOfRun(m: Machine, es: seq<MachineEvent>, t: nat): seq<byte>
    requires Ok(m) && Feasible(m, es)
    decreases |es|
  {
    if es == [] then [] else TextOn(m.k, es[0], t) + TextOfRun(MachineStep(m, es[0]), es[1..], t)
  }

  lemma {:induction false} TextIsPrinted(m: Machine, es: seq<MachineEvent>, t: nat)
    requires Ok(m) && Feasible(m, es) && t < |m.k.stacks| && OnlyText(m, es, t)
    ensures ScreenOf(Run(m, es), t) == PutAll(ScreenOf(m, t), m.d.attribs[t], TextOfRun(m, es, t))
    decreases |es|
  {
    if es != [] {
      var m' := MachineStep(m, es[0]);
      StepOnScreen(m, es[0], t);
      TextIsPrinted(m', es[1..], t);
      PutAllAppend(ScreenOf(m, t), m.d.attribs[t], TextOn(m.k, es[0], t), TextOfRun(m', es[1..], t));
    }
  }

  /** So as long as a terminal is only written to, in the foreground or in the background, its screen
      is the last 25 rows of its transcript, continued by exactly the bytes written to it. */
  lemma TerminalShowsItsTranscript(m: Machine, es: seq<MachineEvent>, t: nat, doc: Transcript)
    requires Ok(m) && Feasible(m, es) && t < |m.k.stacks| && OnlyText(m, es, t) && Shows(ScreenOf(m, t), doc)
    ensures Shows(ScreenOf(Run(m, es), t), TypeAll(doc, m.d.attribs[t], TextOfRun(m, es, t)))
  {
    TextIsPrinted(m, es, t);
    PrintingRefinesTranscript(ScreenOf(m, t), doc, m.d.attribs[t], TextOfRun(m, es, t));
  }

  /** When the first process of a terminal halts or faults, the screen on display is cleared, and no
      other. */
  lemma RestartClearsDisplayedScreen(m: Machine, e: MachineEvent, t: nat)
    requires Ok(m) && CanHappen(m, e) && IsRoot(m.k) && t < |m.k.stacks|
    requires e.KernelEvent? && (e.e.HaltCall? || e.e.Exception?)
    ensures
      ScreenOf(MachineStep(m, e), t)
      == if t == m.k.curr then Clear(ScreenOf(m, t), m.d.attribs[t]) else ScreenOf(m, t)
  {
    StepRefinesScreen(m, e, t);
    assert OutputOf(m.k, e) == Wipe(m.k.curr);
    ReplayOwn(ScreenOf(m, t), m.d.attribs[t], Wipe(m.k.curr), t);
  }

  /** So the new shell starts on a clear screen exactly when its terminal is on display, or the
      screen was clear already. */
  lemma RestartedTerminalIsClear(m: Machine, e: MachineEvent)
    requires Ok(m) && CanHappen(m, e) && IsRoot(m.k)
    requires e.KernelEvent? && (e.e.HaltCall? || e.e.Exception?)
    ensures
      var s, attrib := ScreenOf(m, m.k.exec), m.d.attribs[m.k.exec];
      ScreenOf(MachineStep(m, e), m.k.exec) == Clear(s, attrib) <==> m.k.exec == m.k.curr || s == Clear(s, attrib)
  {
    RestartClearsDisplayedScreen(m, e, m.k.exec);
  }
}
