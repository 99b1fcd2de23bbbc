/** The kernel's steps from reachable states: each keeps the invariant, and what it does next is
    pinned down. */
module Steps {
  import opened Layout
  import opened Paging
  import opened Pids
  import opened Processes
  import opened Invariant

  /** A kernel entry of the running process, or an interrupt taken on its kernel stack at `esp`. */
  datatype Event =
    | ExecuteCall(esp: uint32, found: bool)
    | HaltCall(esp: uint32, status: byte)
    | Exception(esp: uint32)
    | Timer(esp: uint32)
    | SwitchKey(esp: uint32, term: nat)
    | VidmapCall(esp: uint32, screenStart: uint32)

  predicate Enabled(k: Kernel, e: Event) {
    OnStack(k, e.esp) && (e.SwitchKey? ==> e.term < |k.stacks|)
  }

  predicate SameSizes(k: Kernel, k': Kernel) { |k'.stacks| == |k.stacks| && |k'.pids| == |k.pids| }

  /** `execute` fails with -1 exactly when there is no program, returns 0 exactly when there is one
      but every PID is used, and enters a new process otherwise. */
  lemma ExecuteKeepsInv(k: Kernel, esp: uint32, found: bool)
    requires Inv(k) && OnStack(k, esp)
    ensures GetPcb(esp) in k.pcbs
    ensures
      var (k', outcome) := Execute(k, esp, found);
      && Inv(k') && SameSizes(k, k')
      && (outcome == Returned(-1) <==> !found)
      && (outcome == Returned(0) <==> found && AllUsed(k.pids))
      && (outcome == Entered(k.next) <==> found && !AllUsed(k.pids))
      && (outcome.Entered? || k' == k)
  {
    RunningIsTop(k, esp);
    AllocationTakesLeastFree(k.pids);
    var pid := AllocPid(k.pids).1;
    if found && pid >= 1 {
      SpawnKeepsInv(k, esp, pid);
    }
  }

  /** What the PCB of the running process says about its place. */
  lemma RunningPcb(k: Kernel, esp: uint32) returns (p: Pcb)
    requires Inv(k) && OnStack(k, esp)
    ensures GetPcb(esp) == k.Top(k.exec) && Resident(k, k.Top(k.exec)) && p == k.pcbs[k.Top(k.exec)]
    ensures k.TopsPresent()
    ensures
      var n := |k.stacks[k.exec]|;
      if n == 1 then p.parent == NULL
      else
        && p.parent == k.stacks[k.exec][n - 2] != NULL && Resident(k, p.parent)
        && Slot(k, k.exec, n - 2) && Suspended(k, k.exec, n - 2)
        && k.pcbs[p.parent].context.point == InExecute(p.serial)
        && InKernelStack(k.pcbs[p.parent].context.esp, k.pcbs[p.parent].pid)
  {
    RunningIsTop(k, esp);
    p := k.pcbs[k.Top(k.exec)];
    var n := |k.stacks[k.exec]|;
    assert Slot(k, k.exec, n - 1);
    if n > 1 {
      assert Slot(k, k.exec, n - 2);
      assert Resident(k, k.stacks[k.exec][n - 2]) && Suspended(k, k.exec, n - 2);
      assert k.stacks[k.exec][n - 2] == PcbAddr(k.pcbs[k.stacks[k.exec][n - 2]].pid);
    }
  }

  /** The state between the pop and the shell restart or the return to the parent. */
  lemma PoppedOk(k: Kernel, esp: uint32) returns (k': Kernel)
    requires Inv(k) && OnStack(k, esp)
    ensures GetPcb(esp) == k.Top(k.exec) && k.Top(k.exec) in k.pcbs
    ensures k' == Pop(k, GetPcb(esp)) && Popped(k, k') && StacksOk(k')
    ensures Consistent(k'.tables, |k'.stacks|, k'.curr, k.pcbs[k.Top(k.exec)].pid)
    ensures !k'.pids[k.pcbs[k.Top(k.exec)].pid - 1]
    ensures k'.curr != k'.exec ==> k'.stacks[k'.curr] != []
  {
    RunningIsTop(k, esp);
    PopSlots(k);
    k' := Pop(k, GetPcb(esp));
    PopResident(k, k');
    PopParents(k, k');
    PopSuspended(k, k');
    PopUsed(k, k');
    assert |k'.stacks[k'.curr]| == |k.stacks[k.curr]| || k'.curr == k'.exec;
  }

  /** A child's `halt` resumes the `execute` that created it, on the parent's own stack, with the
      child's status; a root process's `halt` always gets a new shell started. */
  lemma HaltKeepsInv(k: Kernel, esp: uint32, status: byte)
    requires Inv(k) && OnStack(k, esp)
    ensures GetPcb(esp) in k.pcbs && k.stacks[k.exec] != []
    ensures k.pcbs[GetPcb(esp)].parent == NULL || k.pcbs[GetPcb(esp)].parent in k.pcbs
    ensures
      var (k', outcome) := Halt(k, esp, status);
      var p := k.pcbs[GetPcb(esp)];
      && Inv(k') && SameSizes(k, k')
      && if |k.stacks[k.exec]| == 1 then outcome == Entered(k.next) && |k'.stacks[k.exec]| == 1
         else
           && p.parent != NULL && outcome == Resumed(k.pcbs[p.parent].context, ReturnValue(p, status))
           && outcome.context.point == InExecute(p.serial) && OnStack(k', outcome.context.esp)
  {
    var p := RunningPcb(k, esp);
    var popped := PoppedOk(k, esp);
    if |k.stacks[k.exec]| == 1 {
      AllocationTakesLeastFree(popped.pids);
      var pid := AllocPid(popped.pids).1;
      assert pid >= 1;
      SpawnKeepsInv(popped, esp, pid);
    } else {
      var parent := k.pcbs[p.parent];
      HaltToParent(k, popped, p, parent);
      StackPointerFindsPcb(parent.context.esp, parent.pid);
      StackPointerFindsPcb(parent.esp0, parent.pid);
    }
  }

  lemma HaltToParent(k: Kernel, popped: Kernel, p: Pcb, parent: Pcb)
    requires StacksOk(k) && Slot(k, k.exec, |k.stacks[k.exec]| - 2) && k.Top(k.exec) in k.pcbs
    requires Popped(k, popped) && StacksOk(popped) && Consistent(popped.tables, |k.stacks|, k.curr, p.pid)
    requires Resident(k, k.stacks[k.exec][|k.stacks[k.exec]| - 2])
    requires parent == k.pcbs[k.stacks[k.exec][|k.stacks[k.exec]| - 2]]
    requires popped.curr != popped.exec ==> popped.stacks[popped.curr] != []
    ensures Inv(popped.(tables := MapPage4MB(popped.tables, parent.pdeVirtAddr, parent.pde), tssEsp0 := parent.esp0))
  {
    MapProcessKeeps(popped.tables, |k.stacks|, k.curr, parent.pid);
    var k' := popped.(tables := MapPage4MB(popped.tables, parent.pdeVirtAddr, parent.pde), tssEsp0 := parent.esp0);
    assert Slot(popped, k.exec, |k.stacks[k.exec]| - 2);
    OnlyTables(popped, k');
  }

  /** The stacks do not depend on the TSS and the page tables. */
  lemma OnlyTables(k: Kernel, k': Kernel)
    requires StacksOk(k) && k'.tables.Shape() && k' == k.(tables := k'.tables, tssEsp0 := k'.tssEsp0, curr := k'.curr)
    requires k'.curr < |k'.stacks|
    ensures StacksOk(k')
  {
    assert forall t, i :: Slot(k', t, i) <==> Slot(k, t, i);
    forall t, i | Slot(k', t, i)
      ensures Resident(k', k'.stacks[t][i])
    {
      assert Slot(k, t, i);
    }
    forall p: Pid | p <= |k'.pids| && k'.pids[p - 1]
      ensures Live(k', PcbAddr(p))
    {
      assert Live(k, PcbAddr(p));
    }
    forall t, i | Slot(k', t, i) && (t == k'.exec ==> i + 1 < |k'.stacks[t]|)
      ensures Suspended(k', t, i)
    {
      assert Slot(k, t, i) && Suspended(k, t, i);
    }
  }

  lemma FaultKeepsInv(k: Kernel, esp: uint32)
    requires Inv(k) && OnStack(k, esp)
    ensures GetPcb(esp) in k.pcbs && k.stacks[k.exec] != []
    ensures k.pcbs[GetPcb(esp)].parent == NULL || k.pcbs[GetPcb(esp)].parent in k.pcbs
    ensures
      var (k', outcome) := Fault(k, esp);
      var p := k.pcbs[GetPcb(esp)];
      && Inv(k') && SameSizes(k, k')
      && if |k.stacks[k.exec]| == 1 then outcome == Entered(k.next) && |k'.stacks[k.exec]| == 1
         else
           && p.parent != NULL && outcome == Resumed(k.pcbs[p.parent].context, RETURN_EXCEPTION)
           && outcome.context.point == InExecute(p.serial) && OnStack(k', outcome.context.esp)
  {
    var p := RunningPcb(k, esp);
    var a := GetPcb(esp);
    var k1 := k.(pcbs := k.pcbs[a := p.(retval := RETURN_EXCEPTION)]);
    PatchKeeps(k, k1);
    HaltKeepsInv(k1, esp, 0);
    if |k.stacks[k.exec]| > 1 {
      OthersDiffer(k, k.exec, |k.stacks[k.exec]| - 2);
    }
  }

  /** A context switch resumes the newest process of the next terminal where it was suspended,
      on its own stack. */
  lemma TickKeepsInv(k: Kernel, esp: uint32)
    requires Inv(k) && OnStack(k, esp)
    ensures GetPcb(esp) in k.pcbs && k.TopsPresent()
    ensures
      var n := NextTerm(k.stacks, k.exec, 1);
      var (k', outcome) := Tick(k, esp);
      && Inv(k') && SameSizes(k, k') && k'.exec == n && k'.stacks == k.stacks
      && if n == k.exec then k' == k && outcome == Continued
         else
           && k.stacks[n] != [] && k.Top(n) in k.pcbs && outcome == Resumed(k.pcbs[k.Top(n)].context, 0)
           && OnStack(k', outcome.context.esp)
  {
    var p := RunningPcb(k, esp);
    var n := NextTerm(k.stacks, k.exec, 1);
    if n != k.exec {
      var i := |k.stacks[n]| - 1;
      assert Slot(k, n, i);
      OthersDiffer(k, n, i);
      assert Suspended(k, n, i) && Resident(k, k.Top(n));
      var k' := Tick(k, esp).0;
      var q := k.pcbs[k.Top(n)];
      RunningIsTop(k, esp);
      PatchKeeps(k, k');
      MapProcessKeeps(k.tables, |k.stacks|, k.curr, q.pid);
      assert Slot(k', n, i);
      StackPointerFindsPcb(q.context.esp, q.pid);
      StackPointerFindsPcb(q.esp0, q.pid);
    }
  }

  lemma VidmapKeepsInv(k: Kernel, esp: uint32, screenStart: uint32)
    requires Inv(k) && OnStack(k, esp)
    ensures GetPcb(esp) in k.pcbs && Inv(Vidmap(k, esp, screenStart).0) && SameSizes(k, Vidmap(k, esp, screenStart).0)
  {
    var p := RunningPcb(k, esp);
    if InUserWindow(screenStart) {
      var k' := Vidmap(k, esp, screenStart).0;
      MapUserVideoKeeps(k.tables, |k.stacks|, k.curr, p.pid, VIDEO_MEM_INDEX);
      PatchKeeps(k, k');
      assert Slot(k', k.exec, |k.stacks[k.exec]| - 1);
    }
  }

  /** Remapping the user's screen page for the terminal on display. */
  lemma RemapKeeps(k: Kernel, phys: nat, curr: nat, pid: Pid)
    requires StacksOk(k) && k.stacks[k.curr] != [] && IsScreenFrame(phys / KB4, |k.stacks|)
    requires Consistent(k.tables, |k.stacks|, curr, pid)
    ensures k.Top(k.curr) in k.pcbs && Consistent(RemapUserVideo(k, phys), |k.stacks|, curr, pid)
  {
    assert Slot(k, k.curr, |k.stacks[k.curr]| - 1);
    assert Resident(k, k.Top(k.curr));
    MapUserVideoKeeps(k.tables, |k.stacks|, curr, pid, phys / KB4);
  }

  /** Hiding the displayed terminal changes page tables only. */
  lemma HideOk(k: Kernel, pid: Pid)
    requires StacksOk(k) && k.stacks[k.curr] != [] && Consistent(k.tables, |k.stacks|, k.curr, pid)
    ensures k.Top(k.curr) in k.pcbs
    ensures Hide(k) == k.(tables := Hide(k).tables)
    ensures Consistent(Hide(k).tables, |k.stacks|, |k.stacks|, pid)
  {
    assert Slot(k, k.curr, |k.stacks[k.curr]| - 1);
    HideKeeps(k.tables, |k.stacks|, k.curr, pid);
    var k1 := k.(tables := MapBackupVidmem(k.tables, VirtBackup(k.curr), PhysBackup(k.curr)));
    OnlyTables(k, k1);
    BackupIndex(k.curr);
    RemapKeeps(k1, PhysBackup(k.curr), |k.stacks|, pid);
  }

  /** The state after the remapping of a switch that is not refused. */
  lemma ShownOk(k: Kernel, esp: uint32, term: nat) returns (shown: Kernel)
    requires Inv(k) && OnStack(k, esp) && term < |k.stacks| && term != k.curr
    ensures k.TopsPresent() && k.Top(k.curr) in k.pcbs && k.Top(k.exec) in k.pcbs
    ensures Peek(k) == k && shown == Show(Hide(k), term) == k.(tables := shown.tables, curr := term)
    ensures StacksOk(shown) && Consistent(shown.tables, |k.stacks|, term, k.pcbs[k.Top(k.exec)].pid)
  {
    RunningIsTop(k, esp);
    var pid := k.pcbs[k.Top(k.exec)].pid;
    HideOk(k, pid);
    PeekLeavesTable(k.pids);
    var hidden := Hide(k);
    ShowKeeps(hidden.tables, |k.stacks|, pid, term);
    shown := Show(hidden, term);
    OnlyTables(k, shown);
  }

  /** A launch from a state in which the terminal on display has no process. */
  lemma LaunchOk(k: Kernel, esp: uint32, pid0: Pid)
    requires StacksOk(k) && k.stacks[k.curr] == [] && k.stacks[k.exec] != [] && GetPcb(esp) == k.Top(k.exec)
    requires Consistent(k.tables, |k.stacks|, k.curr, pid0) && AllocPid(k.pids).1 >= 1
    ensures k.Top(k.exec) in k.pcbs
    ensures
      var (k', outcome) := Launch(k, esp);
      && Inv(k') && outcome == Entered(k.next) && k'.exec == k.curr == k'.curr && |k'.stacks[k.curr]| == 1
  {
    assert Slot(k, k.exec, |k.stacks[k.exec]| - 1);
    var a := k.Top(k.exec);
    assert Resident(k, a);
    StackPointerFindsPcb(esp, k.pcbs[a].pid);
    var k1 := k.(pcbs := k.pcbs[a := k.pcbs[a].(context := Context(esp, InTerminalSwitch))], exec := k.curr);
    PatchKeeps(k, k1);
    AllocationTakesLeastFree(k1.pids);
    SpawnKeepsInv(k1, esp, AllocPid(k1.pids).1);
  }

  lemma SwitchExistingOk(k: Kernel, shown: Kernel)
    requires Inv(k) && shown == k.(tables := shown.tables, curr := shown.curr) && StacksOk(shown)
    requires Consistent(shown.tables, |k.stacks|, shown.curr, k.pcbs[k.Top(k.exec)].pid)
    requires k.stacks[shown.curr] != []
    ensures shown.Top(shown.curr) in k.pcbs
    ensures Inv(shown.(tables := RemapUserVideo(shown, VIDEO_MEM_START)))
  {
    RemapKeeps(shown, VIDEO_MEM_START, shown.curr, k.pcbs[k.Top(k.exec)].pid);
    var k' := shown.(tables := RemapUserVideo(shown, VIDEO_MEM_START));
    OnlyTables(shown, k');
    assert Slot(k', k.exec, |k.stacks[k.exec]| - 1);
  }

  /** Behind its checks a switch attends to the state after the remapping. */
  lemma SwitchAttends(k: Kernel, esp: uint32, term: nat, shown: Kernel)
    requires Inv(k) && OnStack(k, esp) && term < |k.stacks| && k.curr != term && !Refuses(k, term)
    requires k.Top(k.curr) in k.pcbs && Peek(k) == k
    requires shown == Show(Hide(k), term) == k.(tables := shown.tables, curr := term)
    requires k.TopsPresent() && k.stacks[k.exec] != []
    ensures shown.TopsPresent() && Switch(k, esp, term) == Attend(shown, esp)
  {
  }

  /** Attending to the new terminal. */
  lemma AttendKeepsInv(k: Kernel, esp: uint32, shown: Kernel)
    requires Inv(k) && OnStack(k, esp) && shown.curr < |k.stacks| && shown.TopsPresent() && !Refuses(k, shown.curr)
    requires shown == k.(tables := shown.tables, curr := shown.curr) && StacksOk(shown)
    requires GetPcb(esp) == k.Top(k.exec) && k.Top(k.exec) in k.pcbs
    requires Consistent(shown.tables, |k.stacks|, shown.curr, k.pcbs[k.Top(k.exec)].pid)
    ensures
      var (k', outcome) := Attend(shown, esp);
      && Inv(k') && SameSizes(k, k') && k'.curr == shown.curr
      && if k.stacks[shown.curr] != [] then k'.exec == k.exec && outcome == Continued
         else k'.exec == shown.curr && |k'.stacks[shown.curr]| == 1 && outcome == Entered(k.next)
  {
    if k.stacks[shown.curr] == [] {
      LaunchOk(shown, esp, k.pcbs[k.Top(k.exec)].pid);
    } else {
      SwitchExistingOk(k, shown);
    }
  }

  /** A switch to an empty terminal that is not refused always gets its shell. */
  lemma SwitchKeepsInv(k: Kernel, esp: uint32, term: nat)
    requires Inv(k) && OnStack(k, esp) && term < |k.stacks|
    ensures k.TopsPresent() && k.stacks[k.exec] != []
    ensures
      var (k', outcome) := Switch(k, esp, term);
      && Inv(k') && SameSizes(k, k')
      && if k.curr == term || (k.stacks[term] == [] && AllUsed(k.pids)) then k' == k && outcome == Continued
         else if k.stacks[term] != [] then k'.curr == term && k'.exec == k.exec && outcome == Continued
         else k'.curr == k'.exec == term && |k'.stacks[term]| == 1 && outcome == Entered(k.next)
  {
    RunningIsTop(k, esp);
    AllocationTakesLeastFree(k.pids);
    if k.curr != term && !Refuses(k, term) {
      var shown := ShownOk(k, esp, term);
      SwitchAttends(k, esp, term, shown);
      AttendKeepsInv(k, esp, shown);
    }
  }

  /** A key for terminal `term` brings it on display, if it is not there already, exactly when it has a
      process or a PID is left for its shell; otherwise nothing happens to the kernel. */
  lemma SwitchDecides(k: Kernel, esp: uint32, term: nat)
    requires Inv(k) && OnStack(k, esp) && term < |k.stacks|
    ensures
      var k' := AfterSwitch(k, esp, term).0;
      && (k'.curr == term <==> term == k.curr || k.stacks[term] != [] || !AllUsed(k.pids))
      && (k'.curr != term ==> AfterSwitch(k, esp, term) == (k, Continued))
  {
    SwitchKeepsInv(k, esp, term);
  }

  /** The PCB of the running process. */
  ghost function Runner(k: Kernel): Pcb
    requires Inv(k)
  {
    k.pcbs[k.Top(k.exec)]
  }

  // Each step from a reachable state, with the invariant in its contract.

  ghost function AfterExecute(k: Kernel, esp: uint32, found: bool): (r: (Kernel, Outcome))
    requires Inv(k) && OnStack(k, esp)
    ensures Inv(r.0) && SameSizes(k, r.0) && r.0.curr == k.curr
    ensures r.1 == if !found then Returned(-1) else if AllUsed(k.pids) then Returned(0) else Entered(k.next)
  {
    ExecuteKeepsInv(k, esp, found);
    Execute(k, esp, found)
  }

  ghost function AfterHalt(k: Kernel, esp: uint32, status: byte): (r: (Kernel, Outcome))
    requires Inv(k) && OnStack(k, esp)
    ensures Inv(r.0) && SameSizes(k, r.0) && r.0.curr == k.curr
  {
    HaltKeepsInv(k, esp, status);
    Halt(k, esp, status)
  }

  ghost function AfterFault(k: Kernel, esp: uint32): (r: (Kernel, Outcome))
    requires Inv(k) && OnStack(k, esp)
    ensures Inv(r.0) && SameSizes(k, r.0) && r.0.curr == k.curr
  {
    FaultKeepsInv(k, esp);
    Fault(k, esp)
  }

  ghost function AfterTick(k: Kernel, esp: uint32): (r: (Kernel, Outcome))
    requires Inv(k) && OnStack(k, esp)
    ensures Inv(r.0) && SameSizes(k, r.0) && r.0.curr == k.curr
  {
    TickKeepsInv(k, esp);
    Tick(k, esp)
  }

  ghost function AfterSwitch(k: Kernel, esp: uint32, term: nat): (r: (Kernel, Outcome))
    requires Inv(k) && OnStack(k, esp) && term < |k.stacks|
    ensures Inv(r.0) && SameSizes(k, r.0) && r.0.curr == if k.curr != term && Refuses(k, term) then k.curr else term
  {
    SwitchKeepsInv(k, esp, term);
    Switch(k, esp, term)
  }

  ghost function AfterVidmap(k: Kernel, esp: uint32, screenStart: uint32): (r: (Kernel, Outcome))
    requires Inv(k) && OnStack(k, esp)
    ensures Inv(r.0) && SameSizes(k, r.0) && r.0.curr == k.curr
  {
    VidmapKeepsInv(k, esp, screenStart);
    Vidmap(k, esp, screenStart)
  }

  /** One step. Only a switch that is not refused changes the terminal on display. */
  ghost function Step(k: Kernel, e: Event): (r: (Kernel, Outcome))
    requires Inv(k) && Enabled(k, e)
    ensures Inv(r.0) && SameSizes(k, r.0)
    ensures r.0.curr == if e.SwitchKey? && !(k.curr != e.term && Refuses(k, e.term)) then e.term else k.curr
  {
    match e
    case ExecuteCall(esp, found) => AfterExecute(k, esp, found)
    case HaltCall(esp, status) => AfterHalt(k, esp, status)
    case Exception(esp) => AfterFault(k, esp)
    case Timer(esp) => AfterTick(k, esp)
    case SwitchKey(esp, term) => AfterSwitch(k, esp, term)
    case VidmapCall(esp, screenStart) => AfterVidmap(k, esp, screenStart)
  }

  /** A run of events, each enabled where it happens. */
  ghost predicate Feasible(k: Kernel, es: seq<Event>)
    requires Inv(k)
    decreases |es|
  {
    es != [] ==> Enabled(k, es[0]) && Feasible(Step(k, es[0]).0, es[1..])
  }

  /** The state after a run; the invariant holds in every reachable state. */
  ghost function Run(k: Kernel, es: seq<Event>): (k': Kernel)
    requires Inv(k) && Feasible(k, es)
    ensures Inv(k') && SameSizes(k, k')
    decreases |es|
  {
    if es == [] then k else Run(Step(k, es[0]).0, es[1..])
  }
}
