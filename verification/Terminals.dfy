/** Virtual terminals: every terminal's screen is the page its backup address translates to, the
    one on display sharing the video page (src/drivers/terminal.c, src/lib.c). */
module Terminals {
  import opened Layout
  import opened Paging
  import opened Pids
  import opened Processes
  import opened Invariant
  import opened Steps
  import opened Screens

  datatype Cursor = Cursor(x: nat, y: nat)

  /** The physical pages that hold screens, by frame, and each terminal's cursor and colour. */
  datatype Display = Display(ram: map<nat, Page>, cursors: seq<Cursor>, attribs: seq<byte>)

  datatype Machine = Machine(k: Kernel, d: Display)

  /** Every screen frame is there. */
  ghost predicate FramesPresent(ram: map<nat, Page>, terms: nat) {
    VIDEO_MEM_INDEX in ram && forall t: nat :: t < terms ==> PhysBackup(t) / KB4 in ram
  }

  /** The frames are there and every cursor is on its screen. */
  ghost predicate DisplayOk(d: Display, terms: nat) {
    && |d.cursors| == |d.attribs| == terms
    && (forall t :: 0 <= t < terms ==> d.cursors[t].x < NUM_COLS && d.cursors[t].y < NUM_ROWS)
    && FramesPresent(d.ram, terms)
  }

  ghost predicate Ok(m: Machine) { Inv(m.k) && DisplayOk(m.d, |m.k.stacks|) }

  /** Frame behind a kernel address. */
  function FrameOf(t: Tables, va: uint32): nat
    requires t.Shape() && Walk(t, va, false).Some?
  {
    Walk(t, va, false).value / KB4
  }

  /** Where the kernel finds the screens, and that each terminal has a frame of its own. */
  lemma ScreenFrames(t: Tables, terms: nat, curr: nat, term: nat)
    requires KernelMapped(t, terms, curr) && term < terms
    ensures Walk(t, VIDEO_MEM_START, false).Some? && FrameOf(t, VIDEO_MEM_START) == VIDEO_MEM_INDEX
    ensures VirtBackup(term) < 0x1_0000_0000
    ensures Walk(t, VirtBackup(term), false).Some? && FrameOf(t, VirtBackup(term)) == ScreenFrame(term, curr)
  {
    KernelReach(t, terms, curr, VIDEO_MEM_START, term);
    KernelReach(t, terms, curr, VirtBackup(term), term);
  }

  /** A terminal's screen: the page at its backup address, and its cursor. */
  ghost function ScreenOf(m: Machine, t: nat): (s: Screen)
    requires Ok(m) && t < |m.k.stacks|
    ensures s.Ok()
    ensures s == Screen(m.d.ram[ScreenFrame(t, m.k.curr)], m.d.cursors[t].x, m.d.cursors[t].y)
  {
    ScreenFrames(m.k.tables, |m.k.stacks|, m.k.curr, t);
    Screen(m.d.ram[FrameOf(m.k.tables, VirtBackup(t))], m.d.cursors[t].x, m.d.cursors[t].y)
  }

  // ---- What the code does to the pages ----

  /** The page at address `va` and terminal `t`'s cursor, as the screen the code works on. */
  function Load(d: Display, tables: Tables, va: uint32, t: nat): Screen
    requires tables.Shape() && Walk(tables, va, false).Some? && FrameOf(tables, va) in d.ram && t < |d.cursors|
  {
    Screen(d.ram[FrameOf(tables, va)], d.cursors[t].x, d.cursors[t].y)
  }

  function Store(d: Display, tables: Tables, va: uint32, t: nat, s: Screen): Display
    requires tables.Shape() && Walk(tables, va, false).Some? && t < |d.cursors|
  {
    d.(ram := d.ram[FrameOf(tables, va) := s.page], cursors := d.cursors[t := Cursor(s.x, s.y)])
  }

  /** `memcpy` of a page, both addresses translated. */
  function CopyPage(ram: map<nat, Page>, tables: Tables, dst: uint32, src: uint32): map<nat, Page>
    requires tables.Shape() && Walk(tables, dst, false).Some? && Walk(tables, src, false).Some?
    requires FrameOf(tables, src) in ram
  {
    ram[FrameOf(tables, dst) := ram[FrameOf(tables, src)]]
  }

  /** The two copies of a switch, each under the tables in force at that moment: the video page
      goes to the hidden terminal's own frame, then the new terminal's frame to the video page. */
  ghost function SwitchPages(k: Kernel, ram: map<nat, Page>, term: nat): map<nat, Page>
    requires Inv(k) && FramesPresent(ram, |k.stacks|) && term < |k.stacks| && term != k.curr
  {
    var pid := Runner(k).pid;
    var t1 := MapBackupVidmem(k.tables, VirtBackup(k.curr), PhysBackup(k.curr));
    HideKeeps(k.tables, |k.stacks|, k.curr, pid);
    ScreenFrames(t1, |k.stacks|, |k.stacks|, k.curr);
    var ram1 := CopyPage(ram, t1, VirtBackup(k.curr), VIDEO_MEM_START);
    HideOk(k, pid);
    var t2 := Hide(k).tables;
    ScreenFrames(t2, |k.stacks|, |k.stacks|, term);
    CopyPage(ram1, t2, VIDEO_MEM_START, VirtBackup(term))
  }

  /** The pages move between the video frame and the two terminals' own frames. */
  lemma SwitchPagesMove(k: Kernel, ram: map<nat, Page>, term: nat)
    requires Inv(k) && FramesPresent(ram, |k.stacks|) && term < |k.stacks| && term != k.curr
    ensures
      SwitchPages(k, ram, term)
      == ram[PhysBackup(k.curr) / KB4 := ram[VIDEO_MEM_INDEX]][VIDEO_MEM_INDEX := ram[PhysBackup(term) / KB4]]
  {
    var pid := Runner(k).pid;
    var t1 := MapBackupVidmem(k.tables, VirtBackup(k.curr), PhysBackup(k.curr));
    HideKeeps(k.tables, |k.stacks|, k.curr, pid);
    ScreenFrames(t1, |k.stacks|, |k.stacks|, k.curr);
    HideOk(k, pid);
    ScreenFrames(Hide(k).tables, |k.stacks|, |k.stacks|, term);
    BackupIndex(k.curr);
    BackupIndex(term);
  }

  /** A machine event: a kernel step, a byte written by the running process, a byte or a backspace
      echoed by the keyboard. */
  datatype MachineEvent = KernelEvent(e: Event) | WriteByte(c: byte) | EchoByte(c: byte) | RubOut

  /** What an event prints, on which terminal. */
  datatype Output = Nothing | Print(term: nat, text: seq<byte>) | Rub(term: nat) | Wipe(term: nat)

  function Bytes(s: string): seq<byte> { seq(|s|, i requires 0 <= i < |s| => s[i] as int % 0x100) }

  const MAX_PROCESSES_MESSAGE: seq<byte> := Bytes("Max processes reached\n")
  const NOT_AVAILABLE_MESSAGE: seq<byte> := Bytes("\nTerminal not available - max processes reached!\n")

  /** The running process is the first of its terminal. */
  predicate IsRoot(k: Kernel) { k.exec < |k.stacks| && |k.stacks[k.exec]| == 1 }

  function OutputOf(k: Kernel, e: MachineEvent): Output {
    match e
    case WriteByte(c) => Print(k.exec, [c])
    case EchoByte(c) => Print(k.curr, [c])
    case RubOut => Rub(k.curr)
    case KernelEvent(ExecuteCall(_, found)) =>
      if found && AllocPid(k.pids).1 < 1 then Print(k.exec, MAX_PROCESSES_MESSAGE) else Nothing
    case KernelEvent(HaltCall(_, _)) => if IsRoot(k) then Wipe(k.curr) else Nothing
    case KernelEvent(Exception(_)) => if IsRoot(k) then Wipe(k.curr) else Nothing
    case KernelEvent(SwitchKey(_, term)) =>
      if term < |k.stacks| && k.curr != term && Refuses(k, term) then Print(k.curr, NOT_AVAILABLE_MESSAGE) else Nothing
    case KernelEvent(_) => Nothing
  }

  /** The address through which an event reaches the screen it prints on: process output goes
      through the backup address, everything else straight to the video page. */
  function OutputAddress(k: Kernel, e: MachineEvent): int {
    if e.WriteByte? || (e.KernelEvent? && e.e.ExecuteCall?) then VirtBackup(k.exec) else VIDEO_MEM_START
  }

  /** An output applied to one screen. */
  function Apply(s: Screen, attrib: byte, o: Output): (r: Screen)
    requires s.Ok()
    ensures r.Ok()
  {
    match o
    case Nothing => s
    case Print(_, text) => PutAll(s, attrib, text)
    case Rub(_) => DoBackspace(s, attrib)
    case Wipe(_) => Clear(s, attrib)
  }

  ghost predicate CanHappen(m: Machine, e: MachineEvent) { e.KernelEvent? ==> Steps.Enabled(m.k, e.e) }

  /** Does the event remap and copy? */
  ghost predicate Switches(k: Kernel, e: MachineEvent) {
    e.KernelEvent? && e.e.SwitchKey? && e.e.term < |k.stacks| && k.curr != e.e.term && !Refuses(k, e.e.term)
  }

  /** The display after an event: the copies of a switch, or the output through its address. */
  ghost function DisplayAfter(m: Machine, e: MachineEvent): Display
    requires Ok(m) && CanHappen(m, e)
  {
    var o := OutputOf(m.k, e);
    if Switches(m.k, e) then m.d.(ram := SwitchPages(m.k, m.d.ram, e.e.term))
    else if o.Nothing? then m.d
    else
      ScreenFrames(m.k.tables, |m.k.stacks|, m.k.curr, m.k.exec);
      var va, t := OutputAddress(m.k, e), o.term;
      Store(m.d, m.k.tables, va, t, Apply(Load(m.d, m.k.tables, va, t), m.d.attribs[t], o))
  }

  /** The kernel state after an event, and which terminal is then on display. */
  ghost function KernelAfter(m: Machine, e: MachineEvent): (k': Kernel)
    requires Ok(m) && CanHappen(m, e)
    ensures Inv(k') && |k'.stacks| == |m.k.stacks|
    ensures k'.curr == if Switches(m.k, e) then e.e.term else m.k.curr
  {
    if e.KernelEvent? then Step(m.k, e.e).0 else m.k
  }
}
