/** The state the kernel boots into (src/kernel.c, src/paging.c, src/drivers/terminal.c), that it
    satisfies the invariant, and what therefore holds in every reachable state. */
module Boot {
  import opened Layout
  import opened Paging
  import opened Pids
  import opened Processes
  import opened Invariant
  import opened Steps
  import opened Scheduling
  import opened Fairness
  import opened Screens
  import opened Terminals
  import opened Conservation
  import opened WellNested
  import TerminalRuns

  /** The state just before the first `execute("shell")`. */
  function BootKernel(pids: nat, terms: nat, tables: Tables): Kernel {
    Kernel(seq(pids, _ => false), 0, 0, seq(terms, _ => []), map[], MB8, tables, 0)
  }

  predicate Sizes(pids: nat, terms: nat) { 1 <= pids <= PID_LIMIT && 1 <= terms <= TERM_LIMIT }

  /** The state in which the first shell runs. */
  function Booted(pids: nat, terms: nat, tables: Tables): Kernel
    requires Sizes(pids, terms) && tables.Shape()
  {
    Execute(BootKernel(pids, terms, tables), 0, true).0
  }

  /** Exactly the first `n` terminals have a process, one each. */
  predicate OneEach(k: Kernel, n: nat) {
    && n <= |k.stacks| && (forall t :: 0 <= t < n ==> |k.stacks[t]| == 1)
    && (forall t :: n <= t < |k.stacks| ==> k.stacks[t] == [])
  }

  /** Booting establishes the invariant, for any table sizes the memory map has room for. */
  lemma BootEstablishesInv(pids: nat, terms: nat, tables: Tables)
    requires Sizes(pids, terms) && KernelMapped(tables, terms, 0)
    ensures
      var k := Booted(pids, terms, tables);
      && Inv(k) && |k.pids| == pids && |k.stacks| == terms && k.exec == 0 && k.curr == 0
      && OneEach(k, 1) && Unmarked(k, false)
  {
    var k0 := BootKernel(pids, terms, tables);
    assert forall t, i :: !Slot(k0, t, i);
    AllocationTakesLeastFree(k0.pids);
    var pid := AllocPid(k0.pids).1;
    assert !k0.pids[0];
    SpawnKeepsInv(k0, 0, pid);
  }

  /** Address spaces in every reachable state: user code reaches exactly its own 4 MB frame, plus
      at most one page at 132 MB that is a screen frame; no address leads it to the kernel page
      or to the frame of another process. */
  lemma AddressSpacesAreIsolated(k0: Kernel, es: seq<Event>, va: uint32, t: nat, i: nat)
    requires Inv(k0) && Feasible(k0, es)
    ensures
      var k := Run(k0, es);
      var pid := Runner(k).pid;
      var pa := Walk(k.tables, va, true);
      && (InUserWindow(va) ==> pa == Some(UserFrame(pid) + (va - MB128)))
      && (pa.Some? && !InUserWindow(va) ==>
            USER_VIDEO_MEM_ADDR <= va < USER_VIDEO_MEM_ADDR + KB4 && IsScreenFrame(pa.value / KB4, |k.stacks|))
      && (pa.Some? ==> !(KERNEL_MEM_START <= pa.value < KERNEL_MEM_START + MB4))
      && (pa.Some? && Slot(k, t, i) && !(t == k.exec && i == |k.stacks[t]| - 1) ==>
            var q := k.pcbs[k.stacks[t][i]].pid;
            !(UserFrame(q) <= pa.value < UserFrame(q) + MB4))
  {
    var k := Run(k0, es);
    UserReach(k.tables, |k.stacks|, k.curr, Runner(k).pid, va);
    FramesApart(k, va, t, i);
  }

  /** No user address leads to the frame of a process that is not running. */
  lemma FramesApart(k: Kernel, va: uint32, t: nat, i: nat)
    requires Inv(k)
    ensures
      var pa := Walk(k.tables, va, true);
      pa.Some? && Slot(k, t, i) && !(t == k.exec && i == |k.stacks[t]| - 1) ==>
        && k.stacks[t][i] in k.pcbs
        && var q := k.pcbs[k.stacks[t][i]].pid;
          !(UserFrame(q) <= pa.value < UserFrame(q) + MB4)
  {
    var pid := Runner(k).pid;
    UserReach(k.tables, |k.stacks|, k.curr, pid, va);
    if Slot(k, t, i) && !(t == k.exec && i == |k.stacks[t]| - 1) {
      OthersDiffer(k, t, i);
      NoOverlap(pid, k.pcbs[k.stacks[t][i]].pid, Walk(k.tables, va, true), |k.stacks|);
    }
  }

  lemma NoOverlap(p: Pid, q: Pid, pa: Option<nat>, terms: nat)
    requires p != q && terms <= TERM_LIMIT
    requires pa.Some? ==> UserFrame(p) <= pa.value < UserFrame(p) + MB4 || IsScreenFrame(pa.value / KB4, terms)
    ensures pa.Some? ==> !(UserFrame(q) <= pa.value < UserFrame(q) + MB4)
  {
  }

  // ---- The clear of a restarting terminal ----

  /** With one process on terminal 0 alone and room for another, Alt-F2 starts terminal 1. */
  lemma SecondTerminalStarts(k: Kernel, e: Event)
    requires Inv(k) && OneEach(k, 1) && k.curr == 0 && k.exec == 0 && |k.stacks| >= 2 && |k.pids| >= 2
    requires e == SwitchKey(k.tssEsp0, 1)
    ensures
      var k' := Step(k, e).0;
      OneEach(k', 2) && k'.exec == 1 && k'.curr == 1
  {
    RoomForAnother(k);
    assert Launches(k, e);
    LaunchSchedules(k, k.tssEsp0, 1);
    SwitchKeepsInv(k, k.tssEsp0, 1);
    assert Step(k, e).0 == AfterSwitch(k, k.tssEsp0, 1).0;
  }

  lemma RoomForAnother(k: Kernel)
    requires StacksOk(k) && OneEach(k, 1) && |k.pids| >= 2
    ensures AllocPid(k.pids).1 >= 1
  {
    PidsConserved(k, 1);
    CountFirst(k.stacks, |k.stacks|);
    AllocationTakesLeastFree(k.pids);
    if forall p :: 0 <= p < |k.pids| ==> k.pids[p] {
      AllUsedCount(k.pids);
    }
  }

  /** The next tick executes terminal 0 in the background. */
  lemma TickRunsBackground(k: Kernel, e: Event)
    requires Inv(k) && OneEach(k, 2) && k.exec == 1 && k.curr == 1 && e == Timer(k.tssEsp0)
    ensures
      var k' := Step(k, e).0;
      k'.exec == 0 && k'.curr == 1 && IsRoot(k')
  {
    NearestIsNext(k.stacks, 1, 1, 0);
    TickKeepsInv(k, k.tssEsp0);
    assert Step(k, e).0 == AfterTick(k, k.tssEsp0).0;
  }

  lemma TwoSteps(k: Kernel, e1: Event, e2: Event)
    requires Inv(k) && Steps.Enabled(k, e1) && Steps.Enabled(Step(k, e1).0, e2)
    ensures Feasible(k, [e1, e2]) && Run(k, [e1, e2]) == Step(Step(k, e1).0, e2).0
  {
    assert [e1, e2][1..] == [e2];
    OneStep(Step(k, e1).0, e2);
  }

  lemma OneStep(k: Kernel, e: Event)
    requires Inv(k) && Steps.Enabled(k, e)
    ensures Feasible(k, [e]) && Run(k, [e]) == Step(k, e).0
  {
    assert [e][1..] == [];
  }

  /** Two terminals, an Alt-F2 and one tick after boot: the shell of terminal 0 runs in the
      background, and its exit clears terminal 1, whatever is on it, and leaves terminal 0 as it is. */
  lemma BackgroundExitClearsForeground(pids: nat, terms: nat, tables: Tables, d: Display) returns (es: seq<Event>)
    requires Sizes(pids, terms) && pids >= 2 && terms >= 2 && KernelMapped(tables, terms, 0) && DisplayOk(d, terms)
    ensures Inv(Booted(pids, terms, tables)) && Feasible(Booted(pids, terms, tables), es)
    ensures
      var k := Run(Booted(pids, terms, tables), es);
      var e := KernelEvent(HaltCall(k.tssEsp0, 0));
      var m := Machine(k, d);
      && k.exec == 0 && Ok(m) && CanHappen(m, e) && |k.stacks| == terms
      && ScreenOf(TerminalRuns.MachineStep(m, e), 1) == Clear(ScreenOf(m, 1), d.attribs[1])
      && ScreenOf(TerminalRuns.MachineStep(m, e), 0) == ScreenOf(m, 0)
  {
    BootEstablishesInv(pids, terms, tables);
    var k0 := Booted(pids, terms, tables);
    var e1 := SwitchKey(k0.tssEsp0, 1);
    SecondTerminalStarts(k0, e1);
    var k1 := Step(k0, e1).0;
    var e2 := Timer(k1.tssEsp0);
    TickRunsBackground(k1, e2);
    TwoSteps(k0, e1, e2);
    es := [e1, e2];
    RestartElsewhere(Machine(Step(k1, e2).0, d));
  }

  lemma RestartElsewhere(m: Machine)
    requires Ok(m) && IsRoot(m.k) && m.k.exec == 0 && m.k.curr == 1
    ensures
      var e := KernelEvent(HaltCall(m.k.tssEsp0, 0));
      && CanHappen(m, e)
      && ScreenOf(TerminalRuns.MachineStep(m, e), 1) == Clear(ScreenOf(m, 1), m.d.attribs[1])
      && ScreenOf(TerminalRuns.MachineStep(m, e), 0) == ScreenOf(m, 0)
  {
    var e := KernelEvent(HaltCall(m.k.tssEsp0, 0));
    TerminalRuns.RestartClearsDisplayedScreen(m, e, 0);
    TerminalRuns.RestartClearsDisplayedScreen(m, e, 1);
  }

  // ---- What `execute` returns ----

  /** In every run from boot, and whatever run lies between: the child created by an `execute` call
      returns to that call with the status it halts with. */
  lemma CommandReturnsItsStatus(pids: nat, terms: nat, tables: Tables, es: seq<Event>,
                                k: Kernel, esp: uint32, k1: Kernel, es1: seq<Event>, k2: Kernel, esp2: uint32,
                                status: byte)
    requires Sizes(pids, terms) && KernelMapped(tables, terms, 0)
    requires Inv(Booted(pids, terms, tables)) && Feasible(Booted(pids, terms, tables), es)
    requires k == Run(Booted(pids, terms, tables), es)
    requires OnStack(k, esp) && AfterExecute(k, esp, true) == (k1, Entered(k.next))
    requires Feasible(k1, es1) && k2 == Run(k1, es1)
    requires OnStack(k2, esp2) && Runner(k2).serial == k.next
    ensures
      var (k3, outcome) := AfterHalt(k2, esp2, status);
      ReturnsToCaller(k, esp, k3, outcome, status)
  {
    BootEstablishesInv(pids, terms, tables);
    RunUnmarked(Booted(pids, terms, tables), es);
    ChildResumesItsExecute(k, esp, k1, es1, k2, esp2, status);
  }

  lemma {:induction false} OneMoreUsed(pids: seq<bool>, i: nat)
    requires i < |pids| && !pids[i]
    ensures UsedCount(pids[i := true]) == UsedCount(pids) + 1
    decreases |pids|
  {
    var n := |pids| - 1;
    var more := pids[i := true];
    if i < n {
      assert more[..n] == pids[..n][i := true];
      OneMoreUsed(pids[..n], i);
    } else {
      assert more[..n] == pids[..n];
    }
  }

  /** From every reachable state a run of `execute` calls, one for each free PID, fills the PID table. */
  lemma {:induction false} TableFills(k: Kernel) returns (es: seq<Event>)
    requires Inv(k)
    ensures Feasible(k, es) && AllUsed(Run(k, es).pids)
    ensures |es| == |k.pids| - UsedCount(k.pids) && forall e :: e in es ==> e.ExecuteCall? && e.found
    decreases |k.pids| - UsedCount(k.pids)
  {
    if AllUsed(k.pids) {
      AllUsedCount(k.pids);
      es := [];
    } else {
      var e := ExecuteCall(k.tssEsp0, true);
      var k' := Step(k, e).0;
      ExecuteUses(k);
      UsedBound(k'.pids);
      var rest := TableFills(k');
      es := [e] + rest;
      assert es[1..] == rest;
    }
  }

  lemma ExecuteUses(k: Kernel)
    requires Inv(k) && !AllUsed(k.pids)
    ensures UsedCount(Step(k, ExecuteCall(k.tssEsp0, true)).0.pids) == UsedCount(k.pids) + 1
  {
    var k' := AfterExecute(k, k.tssEsp0, true).0;
    assert Step(k, ExecuteCall(k.tssEsp0, true)).0 == k';
    AllocationTakesLeastFree(k.pids);
    var pid := AllocPid(k.pids).1;
    assert k'.pids == k.pids[pid - 1 := true];
    OneMoreUsed(k.pids, pid - 1);
  }

  /** The value 0 of `execute` does not tell its caller whether a program ran: the shell gets it
      from a full table, in some run from boot, and from a first command that exits with status 0. */
  lemma ZeroMeansTwoThings(tables: Tables) returns (es: seq<Event>)
    requires KernelMapped(tables, MAX_TERMINALS, 0)
    ensures
      var k := Booted(MAX_PROCESSES, MAX_TERMINALS, tables);
      && Inv(k) && Feasible(k, es)
      && var full := Run(k, es);
        && AfterExecute(full, full.tssEsp0, true) == (full, Returned(0))
        && AfterExecute(k, k.tssEsp0, true).1 == Entered(k.next)
        && var k1 := AfterExecute(k, k.tssEsp0, true).0;
          && AfterHalt(k1, k1.tssEsp0, 0).1 == Resumed(Context(k.tssEsp0, InExecute(k.next)), 0)
  {
    FirstCommandReturns(tables, 0);
    var k := Booted(MAX_PROCESSES, MAX_TERMINALS, tables);
    es := TableFills(k);
    FullTable(Run(k, es));
  }

  lemma FullTable(k: Kernel)
    requires Inv(k) && AllUsed(k.pids)
    ensures AfterExecute(k, k.tssEsp0, true) == (k, Returned(0))
  {
    ExecuteKeepsInv(k, k.tssEsp0, true);
  }

  /** With the kernel's own sizes: the first command of the first shell starts, and its exit makes
      the shell's `execute` return its status. */
  lemma FirstCommandReturns(tables: Tables, status: byte)
    requires KernelMapped(tables, MAX_TERMINALS, 0)
    ensures
      var k := Booted(MAX_PROCESSES, MAX_TERMINALS, tables);
      && Inv(k) && OnStack(k, k.tssEsp0)
      && var (k1, outcome) := AfterExecute(k, k.tssEsp0, true);
        && outcome == Entered(k.next) && OnStack(k1, k1.tssEsp0)
        && AfterHalt(k1, k1.tssEsp0, status).1 == Resumed(Context(k.tssEsp0, InExecute(k.next)), status)
  {
    BootEstablishesInv(MAX_PROCESSES, MAX_TERMINALS, tables);
    var k := Booted(MAX_PROCESSES, MAX_TERMINALS, tables);
    RoomForAnother(k);
    CommandReturns(k, status);
  }

  lemma CommandReturns(k: Kernel, status: byte)
    requires Inv(k) && Unmarked(k, false) && !AllUsed(k.pids)
    ensures
      var (k1, outcome) := AfterExecute(k, k.tssEsp0, true);
      && outcome == Entered(k.next)
      && AfterHalt(k1, k1.tssEsp0, status).1 == Resumed(Context(k.tssEsp0, InExecute(k.next)), status)
  {
    var (k1, outcome) := AfterExecute(k, k.tssEsp0, true);
    var pid := ExecuteSpawns(k, k.tssEsp0);
    assert Run(k1, []) == k1;
    assert k1.Top(k1.exec) == PcbAddr(pid);
    ChildResumesItsExecute(k, k.tssEsp0, k1, [], k1, k1.tssEsp0, status);
  }

  lemma {:induction false} AllUsedCount(pids: seq<bool>)
    requires forall p :: 0 <= p < |pids| ==> pids[p]
    ensures UsedCount(pids) == |pids|
  {
    if pids != [] {
      AllUsedCount(pids[..|pids| - 1]);
    }
  }

  lemma {:induction false} CountFirst(stacks: seq<seq<nat>>, n: nat)
    requires 1 <= n <= |stacks| && |stacks[0]| == 1 && forall t :: 1 <= t < |stacks| ==> stacks[t] == []
    ensures Count(stacks, n) == 1
  {
    if n > 1 {
      CountFirst(stacks, n - 1);
    } else {
      assert Count(stacks, 0) == 0;
    }
  }
}
