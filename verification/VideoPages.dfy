/** The page at 132 MB that `vidmap` gives to user code, step by step (src/syscalls/syscalls.c,
    src/drivers/terminal.c, src/paging.c). */
module VideoPages {
  import opened Layout
  import opened Paging
  import opened Pids
  import opened Processes
  import opened Invariant
  import opened Steps
  import opened WellNested

  /** What user code finds at 132 MB: a page on the given frame, or nothing. */
  ghost predicate UserSees(t: Tables, page: Option<nat>) {
    && t.Shape()
    && forall va: uint32 {:trigger Walk(t, va, true)} :: USER_VIDEO_MEM_ADDR <= va < USER_VIDEO_MEM_ADDR + KB4 ==>
         Walk(t, va, true) == match page case None => None case Some(frame) => Some(frame * KB4 + va % KB4)
  }

  /** The tables' entries for that page. */
  function UserPage(t: Tables): Option<nat>
    requires t.Shape()
  {
    if t.dir[33].present && t.user[0].present then Some(t.user[0].base) else None
  }

  lemma UserSeesPage(t: Tables, terms: nat, curr: nat)
    requires KernelMapped(t, terms, curr)
    ensures UserSees(t, UserPage(t))
  {
    forall va: uint32 | USER_VIDEO_MEM_ADDR <= va < USER_VIDEO_MEM_ADDR + KB4
      ensures va / MB4 == 33 && va / KB4 % PAGE_COUNT == 0
    {
    }
  }

  /** The process has the page: it called `vidmap`. */
  predicate Marked(k: Kernel, a: nat) { a in k.pcbs && k.pcbs[a].vidmemVirtAddr != 0 }

  /** `vidmap` returns -1 and changes nothing for a pointer outside the user window. For one inside it
      returns 0, and user code then sees the video page at 132 MB. */
  lemma VidmapMaps(k: Kernel, esp: uint32, screenStart: uint32)
    requires Inv(k) && OnStack(k, esp)
    ensures
      var (k', outcome) := AfterVidmap(k, esp, screenStart);
      if MB128 <= screenStart < MB128 + MB4 then
        && outcome == Returned(0) && UserSees(k'.tables, Some(VIDEO_MEM_INDEX)) && Marked(k', k'.Top(k.exec))
      else k' == k && outcome == Returned(-1)
  {
    RunningIsTop(k, esp);
    MappedIsSeen(k.tables, |k.stacks|, k.curr, k.pcbs[k.Top(k.exec)].pid);
  }

  lemma VidmapMarks(k: Kernel, esp: uint32, screenStart: uint32)
    requires Inv(k) && OnStack(k, esp) && MB128 <= screenStart < MB128 + MB4
    ensures
      var k' := AfterVidmap(k, esp, screenStart).0;
      k'.stacks[k'.exec] != [] && Marked(k', k'.Top(k'.exec))
  {
    RunningIsTop(k, esp);
  }

  lemma MappedIsSeen(t: Tables, terms: nat, curr: nat, pid: Pid)
    requires Consistent(t, terms, curr, pid)
    ensures
      UserSees(MapUserVideoMem(t, USER_VIDEO_MEM_ADDR, ScreenPte(true, VIDEO_MEM_START)), Some(VIDEO_MEM_INDEX))
  {
    MapUserVideoKeeps(t, terms, curr, pid, VIDEO_MEM_INDEX);
    UserSeesPage(MapUserVideoMem(t, USER_VIDEO_MEM_ADDR, ScreenPte(true, VIDEO_MEM_START)), terms, curr);
  }

  /** A new process has no page. */
  lemma NewProcessHasNoPage(k: Kernel, esp: uint32, found: bool)
    requires Inv(k) && OnStack(k, esp) && AfterExecute(k, esp, found).1.Entered?
    ensures
      var k' := AfterExecute(k, esp, found).0;
      !Marked(k', k'.Top(k'.exec)) && UserPage(k'.tables) == UserPage(k.tables)
  {
  }

  /** What a switch that is not refused does to the page: it leads to the screen of the terminal now
      on display if that terminal's newest process has the page; if only that of the hidden terminal
      has it, it goes with the hidden screen. */
  function PageAfterSwitch(k: Kernel, term: nat): Option<nat>
    requires k.Shape() && term < |k.stacks| && k.stacks[k.curr] != []
  {
    if k.stacks[term] != [] && Marked(k, k.Top(term)) then Some(VIDEO_MEM_INDEX)
    else if Marked(k, k.Top(k.curr)) then Some(PhysBackup(k.curr) / KB4)
    else UserPage(k.tables)
  }

  /** The page after each event. */
  function PageAfter(k: Kernel, e: Event): Option<nat>
    requires k.Shape() && k.stacks[k.curr] != [] && k.stacks[k.exec] != []
  {
    match e
    case VidmapCall(_, screenStart) =>
      if MB128 <= screenStart < MB128 + MB4 then Some(VIDEO_MEM_INDEX) else UserPage(k.tables)
    case HaltCall(_, _) => if Marked(k, k.Top(k.exec)) then None else UserPage(k.tables)
    case Exception(_) => if Marked(k, k.Top(k.exec)) then None else UserPage(k.tables)
    case SwitchKey(_, term) =>
      if term < |k.stacks| && term != k.curr && (k.stacks[term] != [] || !AllUsed(k.pids)) then PageAfterSwitch(k, term)
      else UserPage(k.tables)
    case _ => UserPage(k.tables)
  }

  lemma ExecutePage(k: Kernel, esp: uint32, found: bool)
    requires k.Shape() && (k.stacks[k.exec] != [] ==> GetPcb(esp) in k.pcbs)
    ensures UserPage(Execute(k, esp, found).0.tables) == UserPage(k.tables)
  {
  }

  /** The running process's own entries, and its parent's window. */
  predicate HaltMapped(k: Kernel, a: nat) {
    && k.Shape() && k.stacks[k.exec] != [] && a in k.pcbs
    && (k.pcbs[a].vidmemVirtAddr == 0 || k.pcbs[a].vidmemVirtAddr == USER_VIDEO_MEM_ADDR)
    && (k.pcbs[a].parent == NULL || (k.pcbs[a].parent in k.pcbs && k.pcbs[k.pcbs[a].parent].pdeVirtAddr == MB128))
  }

  lemma HaltTables(k: Kernel, esp: uint32, status: byte)
    requires HaltMapped(k, GetPcb(esp))
    ensures UserPage(Halt(k, esp, status).0.tables) == if Marked(k, GetPcb(esp)) then None else UserPage(k.tables)
  {
    if k.pcbs[GetPcb(esp)].parent == NULL {
      ExecutePage(Pop(k, GetPcb(esp)), esp, true);
    }
  }

  lemma RunningHaltMapped(k: Kernel, esp: uint32)
    requires Inv(k) && OnStack(k, esp)
    ensures GetPcb(esp) == k.Top(k.exec) && HaltMapped(k, GetPcb(esp))
  {
    var p := RunningPcb(k, esp);
  }

  lemma HaltPage(k: Kernel, esp: uint32, status: byte)
    requires Inv(k) && OnStack(k, esp)
    ensures UserPage(AfterHalt(k, esp, status).0.tables) == PageAfter(k, HaltCall(esp, status))
  {
    RunningHaltMapped(k, esp);
    HaltTables(k, esp, status);
  }

  lemma FaultPage(k: Kernel, esp: uint32)
    requires Inv(k) && OnStack(k, esp)
    ensures UserPage(AfterFault(k, esp).0.tables) == PageAfter(k, Exception(esp))
  {
    RunningHaltMapped(k, esp);
    FaultTables(k, esp);
  }

  lemma FaultTables(k: Kernel, esp: uint32)
    requires HaltMapped(k, GetPcb(esp))
    ensures UserPage(Fault(k, esp).0.tables) == if Marked(k, GetPcb(esp)) then None else UserPage(k.tables)
  {
    var a := GetPcb(esp);
    HaltTables(k.(pcbs := k.pcbs[a := k.pcbs[a].(retval := RETURN_EXCEPTION)]), esp, 0);
  }

  lemma TickPage(k: Kernel, esp: uint32)
    requires Inv(k) && OnStack(k, esp)
    ensures UserPage(AfterTick(k, esp).0.tables) == UserPage(k.tables)
  {
    RunningIsTop(k, esp);
    var n := NextTerm(k.stacks, k.exec, 1);
    assert n != k.exec ==> Slot(k, n, |k.stacks[n]| - 1) && Resident(k, k.Top(n));
  }

  lemma RemapPage(k: Kernel, phys: nat)
    requires k.Shape() && k.stacks[k.curr] != [] && Resident(k, k.Top(k.curr))
    ensures
      UserPage(RemapUserVideo(k, phys)) == if Marked(k, k.Top(k.curr)) then Some(phys / KB4) else UserPage(k.tables)
  {
  }

  lemma HidePage(k: Kernel, term: nat)
    requires k.Shape() && k.stacks[k.curr] != [] && Resident(k, k.Top(k.curr)) && k.curr != term < |k.stacks|
    ensures
      UserPage(Show(Hide(k), term).tables)
      == if Marked(k, k.Top(k.curr)) then Some(PhysBackup(k.curr) / KB4) else UserPage(k.tables)
  {
    BackupIndex(k.curr);
    BackupIndex(term);
    RemapPage(k.(tables := MapBackupVidmem(k.tables, VirtBackup(k.curr), PhysBackup(k.curr))), PhysBackup(k.curr));
  }

  lemma AttendPage(k: Kernel, esp: uint32)
    requires k.Shape() && k.stacks[k.exec] != [] && k.TopsPresent()
    requires k.stacks[k.curr] != [] ==> Resident(k, k.Top(k.curr))
    ensures
      UserPage(Attend(k, esp).0.tables)
      == if k.stacks[k.curr] != [] && Marked(k, k.Top(k.curr)) then Some(VIDEO_MEM_INDEX) else UserPage(k.tables)
  {
    if k.stacks[k.curr] != [] {
      RemapPage(k, VIDEO_MEM_START);
    } else {
      var a := k.Top(k.exec);
      var k1 := k.(pcbs := k.pcbs[a := k.pcbs[a].(context := Context(esp, InTerminalSwitch))], exec := k.curr);
      ExecutePage(k1, esp, true);
    }
  }

  /** A switch that is not refused, on the tables alone. */
  lemma ShownPage(k: Kernel, esp: uint32, term: nat, shown: Kernel)
    requires k.Shape() && k.stacks[k.curr] != [] && Resident(k, k.Top(k.curr)) && k.curr != term < |k.stacks|
    requires k.stacks[term] != [] ==> Resident(k, k.Top(term))
    requires shown == Show(Hide(k), term) == k.(tables := shown.tables, curr := term)
    requires k.stacks[k.exec] != [] && k.TopsPresent()
    ensures UserPage(Attend(shown, esp).0.tables) == PageAfterSwitch(k, term)
  {
    HidePage(k, term);
    AttendPage(shown, esp);
  }

  lemma SwitchPage(k: Kernel, esp: uint32, term: nat)
    requires Inv(k) && OnStack(k, esp) && term < |k.stacks|
    ensures UserPage(AfterSwitch(k, esp, term).0.tables) == PageAfter(k, SwitchKey(esp, term))
  {
    AllocationTakesLeastFree(k.pids);
    if k.curr != term && !Refuses(k, term) {
      AcceptedPage(k, esp, term);
    }
  }

  lemma AcceptedPage(k: Kernel, esp: uint32, term: nat)
    requires Inv(k) && OnStack(k, esp) && term < |k.stacks| && k.curr != term && !Refuses(k, term)
    ensures UserPage(AfterSwitch(k, esp, term).0.tables) == PageAfterSwitch(k, term)
  {
    RunningIsTop(k, esp);
    var shown := ShownOk(k, esp, term);
    SwitchAttends(k, esp, term, shown);
    TopResident(k, k.curr);
    if k.stacks[term] != [] {
      TopResident(k, term);
    }
    ShownPage(k, esp, term, shown);
  }

  lemma TopResident(k: Kernel, t: nat)
    requires StacksOk(k) && t < |k.stacks| && k.stacks[t] != []
    ensures Resident(k, k.Top(t))
  {
    assert Slot(k, t, |k.stacks[t]| - 1);
  }

  /** After every event user code finds at 132 MB what `PageAfter` says: `vidmap` shows it the video
      page, the end of a process that has the page takes it away, a switch moves it with the screens,
      and nothing else touches it. */
  lemma StepOnPage(k: Kernel, e: Event)
    requires Inv(k) && Enabled(k, e)
    ensures k.stacks[k.exec] != [] && UserSees(Step(k, e).0.tables, PageAfter(k, e))
  {
    PageEntries(k, e);
    var k' := Step(k, e).0;
    UserSeesPage(k'.tables, |k'.stacks|, k'.curr);
  }

  lemma ExecuteCallPage(k: Kernel, esp: uint32, found: bool)
    requires Inv(k) && OnStack(k, esp)
    ensures UserPage(AfterExecute(k, esp, found).0.tables) == UserPage(k.tables)
  {
    RunningIsTop(k, esp);
    ExecutePage(k, esp, found);
  }

  lemma VidmapPage(k: Kernel, esp: uint32, screenStart: uint32)
    requires Inv(k) && OnStack(k, esp)
    ensures UserPage(AfterVidmap(k, esp, screenStart).0.tables) == PageAfter(k, VidmapCall(esp, screenStart))
  {
    RunningIsTop(k, esp);
  }

  lemma PageEntries(k: Kernel, e: Event)
    requires Inv(k) && Enabled(k, e)
    ensures k.stacks[k.exec] != [] && UserPage(Step(k, e).0.tables) == PageAfter(k, e)
  {
    match e
    case ExecuteCall(esp, found) => ExecuteCallPage(k, esp, found);
    case HaltCall(esp, status) => HaltPage(k, esp, status);
    case Exception(esp) => FaultPage(k, esp);
    case Timer(esp) => TickPage(k, esp);
    case SwitchKey(esp, term) => SwitchPage(k, esp, term);
    case VidmapCall(esp, screenStart) => VidmapPage(k, esp, screenStart);
  }

  /** A process keeps its claim to the page as long as it lives. */
  lemma MarkLasts(k: Kernel, k': Kernel)
    requires Inv(k) && Inv(k') && Evolves(k, k') && Runner(k').serial == Runner(k).serial && Marked(k, k.Top(k.exec))
    ensures Marked(k', k'.Top(k'.exec))
  {
    var t, i := k'.exec, |k'.stacks[k'.exec]| - 1;
    var u, j := k.exec, |k.stacks[k.exec]| - 1;
    assert Slot(k, u, j) && Resident(k, k.stacks[u][j]);
    assert Slot(k', t, i) && Kept(k, k', t, i);
    assert Slot(k, t, i);
  }

  /** When a process that called `vidmap` ends, after whatever run, the page is gone for whoever runs
      next. */
  lemma EndTakesPageAway(k: Kernel, esp: uint32, screenStart: uint32, k1: Kernel, es: seq<Event>, k2: Kernel, e: Event)
    requires Inv(k) && OnStack(k, esp) && MB128 <= screenStart < MB128 + MB4
    requires k1 == AfterVidmap(k, esp, screenStart).0 && Feasible(k1, es) && k2 == Run(k1, es)
    requires Runner(k2).serial == Runner(k1).serial && Enabled(k2, e) && (e.HaltCall? || e.Exception?)
    ensures UserSees(Step(k2, e).0.tables, None)
  {
    VidmapMarks(k, esp, screenStart);
    RunEvolves(k1, es);
    MarkLasts(k1, k2);
    StepOnPage(k2, e);
  }
}
