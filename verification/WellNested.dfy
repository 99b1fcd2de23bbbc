/** Saved contexts over whole runs: a child's `halt` resumes exactly the `execute` that created
    it, and a preempted process continues exactly where it stopped. */
module WellNested {
  import opened Layout
  import opened Pids
  import opened Processes
  import opened Invariant
  import opened Steps

  /** Processes of `k` that are still there in `k'` sit where they sat, over the same parent with
      the same saved context; those that called `vidmap` still have their page. */
  ghost predicate Evolves(k: Kernel, k': Kernel)
    requires StacksOk(k) && StacksOk(k')
  {
    && k.next <= k'.next
    && forall t, i {:trigger Slot(k', t, i)} :: Slot(k', t, i) && k'.pcbs[k'.stacks[t][i]].serial < k.next ==>
         Kept(k, k', t, i)
  }

  ghost predicate Kept(k: Kernel, k': Kernel, t: nat, i: nat)
    requires StacksOk(k) && StacksOk(k') && Slot(k', t, i)
  {
    && Slot(k, t, i) && k.stacks[t][i] == k'.stacks[t][i]
    && k.pcbs[k.stacks[t][i]].serial == k'.pcbs[k'.stacks[t][i]].serial
    && (k.pcbs[k.stacks[t][i]].vidmemVirtAddr != 0 ==> k'.pcbs[k'.stacks[t][i]].vidmemVirtAddr != 0)
    && (i > 0 ==>
          && k.stacks[t][i - 1] == k'.stacks[t][i - 1]
          && k.stacks[t][i - 1] in k.pcbs && k.stacks[t][i - 1] in k'.pcbs
          && k.pcbs[k.stacks[t][i - 1]].context == k'.pcbs[k.stacks[t][i - 1]].context)
  }

  lemma EvolvesTransitive(k: Kernel, k': Kernel, k'': Kernel)
    requires StacksOk(k) && StacksOk(k') && StacksOk(k'') && Evolves(k, k') && Evolves(k', k'')
    ensures Evolves(k, k'')
  {
  }

  /** Nothing about the stacks or PCBs changed. */
  lemma SameStacksEvolve(k: Kernel, k': Kernel)
    requires StacksOk(k) && StacksOk(k') && k'.stacks == k.stacks && k'.pcbs == k.pcbs && k'.next == k.next
    ensures Evolves(k, k')
  {
    forall t, i | Slot(k', t, i)
      ensures Kept(k, k', t, i)
    {
      assert Slot(k, t, i);
      assert i > 0 ==> Slot(k, t, i - 1);
    }
  }

  lemma SpawnEvolves(k: Kernel, k': Kernel, esp: uint32, pid: Pid)
    requires StacksOk(k) && StacksOk(k') && Spawned(k, k', esp, pid)
    ensures Evolves(k, k')
  {
    forall t, i | Slot(k', t, i) && k'.pcbs[k'.stacks[t][i]].serial < k.next
      ensures Kept(k, k', t, i)
    {
      assert Slot(k, t, i);
      assert i > 0 ==> Slot(k, t, i - 1);
    }
  }

  lemma PopEvolves(k: Kernel, k': Kernel)
    requires StacksOk(k) && StacksOk(k') && k.stacks[k.exec] != [] && k.Top(k.exec) in k.pcbs && Popped(k, k')
    ensures Evolves(k, k')
  {
    forall t, i | Slot(k', t, i)
      ensures Kept(k, k', t, i)
    {
      assert Slot(k, t, i);
      assert i > 0 ==> Slot(k', t, i - 1);
    }
  }

  lemma PatchEvolves(k: Kernel, k': Kernel)
    requires StacksOk(k) && StacksOk(k') && k.stacks[k.exec] != [] && k.Top(k.exec) in k.pcbs && Patched(k, k')
    ensures Evolves(k, k')
  {
    forall t, i | Slot(k', t, i)
      ensures Kept(k, k', t, i)
    {
      assert Slot(k, t, i);
      PatchAt(k, k', t, i);
      if i > 0 {
        assert Slot(k, t, i - 1);
        PatchAt(k, k', t, i - 1);
      }
    }
  }

  lemma ExecuteEvolves(k: Kernel, esp: uint32, found: bool)
    requires StacksOk(k) && (k.stacks[k.exec] != [] ==> GetPcb(esp) == k.Top(k.exec) && GetPcb(esp) in k.pcbs)
    requires StacksOk(Execute(k, esp, found).0)
    ensures Evolves(k, Execute(k, esp, found).0)
  {
    AllocationTakesLeastFree(k.pids);
    var pid := AllocPid(k.pids).1;
    if found && pid >= 1 {
      SpawnSlots(k, esp, pid);
      SpawnEvolves(k, Spawn(k, esp, pid), esp, pid);
    } else {
      SameStacksEvolve(k, k);
    }
  }

  lemma HaltEvolves(k: Kernel, esp: uint32, status: byte)
    requires Inv(k) && OnStack(k, esp)
    ensures Evolves(k, AfterHalt(k, esp, status).0)
  {
    HaltKeepsInv(k, esp, status);
    var popped := PoppedOk(k, esp);
    PopEvolves(k, popped);
    var k' := AfterHalt(k, esp, status).0;
    var p := RunningPcb(k, esp);
    if |k.stacks[k.exec]| == 1 {
      ExecuteEvolves(popped, esp, true);
    } else {
      SameStacksEvolve(popped, k');
    }
    EvolvesTransitive(k, popped, k');
  }

  /** The marked state an exception handler passes to `halt`. */
  lemma FaultMarks(k: Kernel, esp: uint32) returns (k1: Kernel)
    requires Inv(k) && OnStack(k, esp)
    ensures GetPcb(esp) in k.pcbs && k.stacks[k.exec] != []
    ensures k.pcbs[GetPcb(esp)].parent == NULL || k.pcbs[GetPcb(esp)].parent in k.pcbs
    ensures k1 == k.(pcbs := k.pcbs[GetPcb(esp) := k.pcbs[GetPcb(esp)].(retval := RETURN_EXCEPTION)])
    ensures Inv(k1) && OnStack(k1, esp) && Evolves(k, k1)
  {
    var p := RunningPcb(k, esp);
    k1 := k.(pcbs := k.pcbs[GetPcb(esp) := p.(retval := RETURN_EXCEPTION)]);
    PatchKeeps(k, k1);
    PatchEvolves(k, k1);
    assert Slot(k1, k.exec, |k.stacks[k.exec]| - 1);
  }

  lemma FaultEvolves(k: Kernel, esp: uint32)
    requires Inv(k) && OnStack(k, esp)
    ensures Evolves(k, AfterFault(k, esp).0)
  {
    var k1 := FaultMarks(k, esp);
    HaltEvolves(k1, esp, 0);
    EvolvesTransitive(k, k1, AfterHalt(k1, esp, 0).0);
  }

  /** A switch that launches nothing leaves stacks and PCBs alone. */
  lemma SwitchWithoutLaunch(k: Kernel, esp: uint32, term: nat)
    requires Inv(k) && OnStack(k, esp) && term < |k.stacks|
    requires k.curr == term || Refuses(k, term) || k.stacks[term] != []
    ensures k.TopsPresent() && k.stacks[k.exec] != []
    ensures
      var k' := Switch(k, esp, term).0;
      k'.stacks == k.stacks && k'.pcbs == k.pcbs && k'.next == k.next && k'.exec == k.exec
  {
    RunningIsTop(k, esp);
  }

  lemma SwitchWithLaunch(k: Kernel, esp: uint32, term: nat)
    requires Inv(k) && OnStack(k, esp) && term < |k.stacks|
    requires k.curr != term && !Refuses(k, term) && k.stacks[term] == []
    ensures k.TopsPresent() && k.stacks[k.exec] != []
    ensures StacksOk(Switch(k, esp, term).0) ==> Evolves(k, Switch(k, esp, term).0)
  {
    RunningIsTop(k, esp);
    var shown := ShownOk(k, esp, term);
    if StacksOk(Switch(k, esp, term).0) {
      SameStacksEvolve(k, shown);
      LaunchEvolves(shown, esp);
      EvolvesTransitive(k, shown, Launch(shown, esp).0);
    }
  }

  lemma SwitchEvolves(k: Kernel, esp: uint32, term: nat)
    requires Inv(k) && OnStack(k, esp) && term < |k.stacks|
    ensures Evolves(k, AfterSwitch(k, esp, term).0)
  {
    SwitchKeepsInv(k, esp, term);
    if k.curr == term || Refuses(k, term) || k.stacks[term] != [] {
      SwitchWithoutLaunch(k, esp, term);
      SameStacksEvolve(k, AfterSwitch(k, esp, term).0);
    } else {
      SwitchWithLaunch(k, esp, term);
    }
  }

  lemma LaunchEvolves(k: Kernel, esp: uint32)
    requires StacksOk(k) && k.stacks[k.curr] == [] && k.stacks[k.exec] != [] && GetPcb(esp) == k.Top(k.exec)
    requires k.Top(k.exec) in k.pcbs && StacksOk(Launch(k, esp).0)
    ensures Evolves(k, Launch(k, esp).0)
  {
    assert Slot(k, k.exec, |k.stacks[k.exec]| - 1);
    var a := k.Top(k.exec);
    assert Resident(k, a);
    StackPointerFindsPcb(esp, k.pcbs[a].pid);
    var k1 := k.(pcbs := k.pcbs[a := k.pcbs[a].(context := Context(esp, InTerminalSwitch))], exec := k.curr);
    PatchKeeps(k, k1);
    PatchEvolves(k, k1);
    ExecuteEvolves(k1, esp, true);
    EvolvesTransitive(k, k1, Launch(k, esp).0);
  }

  lemma TickEvolves(k: Kernel, esp: uint32)
    requires Inv(k) && OnStack(k, esp)
    ensures Evolves(k, AfterTick(k, esp).0)
  {
    TickKeepsInv(k, esp);
    RunningIsTop(k, esp);
    var k' := AfterTick(k, esp).0;
    if k' == k {
      SameStacksEvolve(k, k');
    } else {
      PatchEvolves(k, k');
    }
  }

  lemma VidmapEvolves(k: Kernel, esp: uint32, screenStart: uint32)
    requires Inv(k) && OnStack(k, esp)
    ensures Evolves(k, AfterVidmap(k, esp, screenStart).0)
  {
    VidmapKeepsInv(k, esp, screenStart);
    RunningIsTop(k, esp);
    var k' := AfterVidmap(k, esp, screenStart).0;
    if k' == k {
      SameStacksEvolve(k, k');
    } else {
      PatchEvolves(k, k');
    }
  }

  lemma AfterExecuteEvolves(k: Kernel, esp: uint32, found: bool)
    requires Inv(k) && OnStack(k, esp)
    ensures Evolves(k, AfterExecute(k, esp, found).0)
  {
    RunningIsTop(k, esp);
    assert AfterExecute(k, esp, found) == Execute(k, esp, found);
    ExecuteEvolves(k, esp, found);
  }

  lemma StepEvolves(k: Kernel, e: Event)
    requires Inv(k) && Enabled(k, e)
    ensures Evolves(k, Step(k, e).0)
  {
    var k' := Step(k, e).0;
    match e {
      case ExecuteCall(esp, found) =>
        AfterExecuteEvolves(k, esp, found);
        assert k' == AfterExecute(k, esp, found).0;
      case HaltCall(esp, status) =>
        HaltEvolves(k, esp, status);
        assert k' == AfterHalt(k, esp, status).0;
      case Exception(esp) =>
        FaultEvolves(k, esp);
        assert k' == AfterFault(k, esp).0;
      case Timer(esp) =>
        TickEvolves(k, esp);
        assert k' == AfterTick(k, esp).0;
      case SwitchKey(esp, term) =>
        SwitchEvolves(k, esp, term);
        assert k' == AfterSwitch(k, esp, term).0;
      case VidmapCall(esp, screenStart) =>
        VidmapEvolves(k, esp, screenStart);
        assert k' == AfterVidmap(k, esp, screenStart).0;
    }
  }

  lemma {:induction false} RunEvolves(k: Kernel, es: seq<Event>)
    requires Inv(k) && Feasible(k, es)
    ensures Evolves(k, Run(k, es))
    decreases |es|
  {
    if es == [] {
      SameStacksEvolve(k, k);
    } else {
      var k' := Step(k, es[0]).0;
      StepEvolves(k, es[0]);
      RunEvolves(k', es[1..]);
      EvolvesTransitive(k, k', Run(k', es[1..]));
    }
  }

  // ---- Exception marks ----

  /** No process on a stack is marked with an exception; the newest one of the executing terminal
      may be, if `but` says so. */
  ghost predicate Unmarked(k: Kernel, but: bool) {
    forall t, i {:trigger Slot(k, t, i)} :: Slot(k, t, i) && !(but && t == k.exec && i == |k.stacks[t]| - 1) ==>
      k.stacks[t][i] in k.pcbs && k.pcbs[k.stacks[t][i]].retval == 0
  }

  lemma SpawnUnmarked(k: Kernel, k': Kernel, esp: uint32, pid: Pid)
    requires StacksOk(k) && Spawned(k, k', esp, pid) && Unmarked(k, false)
    ensures Unmarked(k', false)
  {
    forall t, i | Slot(k', t, i)
      ensures k'.stacks[t][i] in k'.pcbs && k'.pcbs[k'.stacks[t][i]].retval == 0
    {
      assert Slot(k, t, i) || (t == k.exec && i == |k.stacks[t]|);
    }
  }

  /** A mark goes with the process that has it. */
  lemma PopUnmarked(k: Kernel, k': Kernel)
    requires k.exec < |k.stacks| && k.stacks[k.exec] != [] && k.Top(k.exec) in k.pcbs
    requires Popped(k, k') && Unmarked(k, true)
    ensures Unmarked(k', false)
  {
    forall t, i | Slot(k', t, i)
      ensures k'.stacks[t][i] in k'.pcbs && k'.pcbs[k'.stacks[t][i]].retval == 0
    {
      assert Slot(k, t, i);
    }
  }

  lemma PatchUnmarked(k: Kernel, k': Kernel)
    requires StacksOk(k) && k.stacks[k.exec] != [] && k.Top(k.exec) in k.pcbs && Patched(k, k') && Unmarked(k, false)
    ensures k'.exec == k.exec ==> Unmarked(k', true)
    ensures k'.pcbs[k.Top(k.exec)].retval == 0 ==> Unmarked(k', false)
  {
    forall t, i | Slot(k', t, i) && !(t == k.exec && i == |k.stacks[t]| - 1)
      ensures k'.stacks[t][i] in k'.pcbs && k'.pcbs[k'.stacks[t][i]].retval == 0
    {
      assert Slot(k, t, i);
      PatchAt(k, k', t, i);
    }
  }

  lemma SameStacksUnmarked(k: Kernel, k': Kernel)
    requires Unmarked(k, false) && k'.stacks == k.stacks && k'.pcbs == k.pcbs
    ensures Unmarked(k', false)
  {
    forall t, i | Slot(k', t, i)
      ensures k'.stacks[t][i] in k'.pcbs && k'.pcbs[k'.stacks[t][i]].retval == 0
    {
      assert Slot(k, t, i);
    }
  }

  lemma ExecuteUnmarked(k: Kernel, esp: uint32, found: bool)
    requires StacksOk(k) && (k.stacks[k.exec] != [] ==> GetPcb(esp) == k.Top(k.exec) && GetPcb(esp) in k.pcbs)
    requires Unmarked(k, false)
    ensures Unmarked(Execute(k, esp, found).0, false)
  {
    AllocationTakesLeastFree(k.pids);
    var pid := AllocPid(k.pids).1;
    if found && pid >= 1 {
      SpawnSlots(k, esp, pid);
      SpawnUnmarked(k, Spawn(k, esp, pid), esp, pid);
    }
  }

  lemma AfterExecuteUnmarked(k: Kernel, esp: uint32, found: bool)
    requires Inv(k) && OnStack(k, esp) && Unmarked(k, false)
    ensures Unmarked(AfterExecute(k, esp, found).0, false)
  {
    RunningIsTop(k, esp);
    ExecuteUnmarked(k, esp, found);
  }

  lemma HaltUnmarked(k: Kernel, esp: uint32, status: byte)
    requires Inv(k) && OnStack(k, esp) && Unmarked(k, true)
    ensures Unmarked(AfterHalt(k, esp, status).0, false)
  {
    var popped := PoppedOk(k, esp);
    PopUnmarked(k, popped);
    var p := RunningPcb(k, esp);
    if |k.stacks[k.exec]| == 1 {
      HaltKeepsInv(k, esp, status);
      ExecuteUnmarked(popped, esp, true);
    } else {
      SameStacksUnmarked(popped, AfterHalt(k, esp, status).0);
    }
  }

  lemma FaultUnmarked(k: Kernel, esp: uint32)
    requires Inv(k) && OnStack(k, esp) && Unmarked(k, false)
    ensures Unmarked(AfterFault(k, esp).0, false)
  {
    RunningIsTop(k, esp);
    var k1 := FaultMarks(k, esp);
    PatchUnmarked(k, k1);
    HaltUnmarked(k1, esp, 0);
  }

  lemma TickUnmarked(k: Kernel, esp: uint32)
    requires Inv(k) && OnStack(k, esp) && Unmarked(k, false)
    ensures Unmarked(AfterTick(k, esp).0, false)
  {
    TickKeepsInv(k, esp);
    RunningIsTop(k, esp);
    var k' := AfterTick(k, esp).0;
    assert Slot(k, k.exec, |k.stacks[k.exec]| - 1);
    if k' != k {
      PatchUnmarked(k, k');
    }
  }

  lemma VidmapUnmarked(k: Kernel, esp: uint32, screenStart: uint32)
    requires Inv(k) && OnStack(k, esp) && Unmarked(k, false)
    ensures Unmarked(AfterVidmap(k, esp, screenStart).0, false)
  {
    RunningIsTop(k, esp);
    var k' := AfterVidmap(k, esp, screenStart).0;
    assert Slot(k, k.exec, |k.stacks[k.exec]| - 1);
    if k' != k {
      PatchUnmarked(k, k');
    }
  }

  lemma LaunchUnmarked(k: Kernel, esp: uint32)
    requires StacksOk(k) && k.stacks[k.curr] == [] && k.stacks[k.exec] != [] && GetPcb(esp) == k.Top(k.exec)
    requires k.Top(k.exec) in k.pcbs && Unmarked(k, false)
    ensures Unmarked(Launch(k, esp).0, false)
  {
    assert Slot(k, k.exec, |k.stacks[k.exec]| - 1);
    var a := k.Top(k.exec);
    assert Resident(k, a);
    StackPointerFindsPcb(esp, k.pcbs[a].pid);
    var k1 := k.(pcbs := k.pcbs[a := k.pcbs[a].(context := Context(esp, InTerminalSwitch))], exec := k.curr);
    PatchKeeps(k, k1);
    PatchUnmarked(k, k1);
    ExecuteUnmarked(k1, esp, true);
  }

  lemma SwitchUnmarked(k: Kernel, esp: uint32, term: nat)
    requires Inv(k) && OnStack(k, esp) && term < |k.stacks| && Unmarked(k, false)
    ensures Unmarked(AfterSwitch(k, esp, term).0, false)
  {
    RunningIsTop(k, esp);
    if k.curr == term || Refuses(k, term) || k.stacks[term] != [] {
      SwitchWithoutLaunch(k, esp, term);
      SameStacksUnmarked(k, AfterSwitch(k, esp, term).0);
    } else {
      var shown := ShownOk(k, esp, term);
      SameStacksUnmarked(k, shown);
      LaunchUnmarked(shown, esp);
    }
  }

  lemma StepUnmarked(k: Kernel, e: Event)
    requires Inv(k) && Enabled(k, e) && Unmarked(k, false)
    ensures Unmarked(Step(k, e).0, false)
  {
    var k' := Step(k, e).0;
    match e {
      case ExecuteCall(esp, found) =>
        AfterExecuteUnmarked(k, esp, found);
        assert k' == AfterExecute(k, esp, found).0;
      case HaltCall(esp, status) =>
        HaltUnmarked(k, esp, status);
        assert k' == AfterHalt(k, esp, status).0;
      case Exception(esp) =>
        FaultUnmarked(k, esp);
        assert k' == AfterFault(k, esp).0;
      case Timer(esp) =>
        TickUnmarked(k, esp);
        assert k' == AfterTick(k, esp).0;
      case SwitchKey(esp, term) =>
        SwitchUnmarked(k, esp, term);
        assert k' == AfterSwitch(k, esp, term).0;
      case VidmapCall(esp, screenStart) =>
        VidmapUnmarked(k, esp, screenStart);
        assert k' == AfterVidmap(k, esp, screenStart).0;
    }
  }

  /** Between steps no process is marked: the mark an exception sets is gone with its process. */
  lemma {:induction false} RunUnmarked(k: Kernel, es: seq<Event>)
    requires Inv(k) && Feasible(k, es) && Unmarked(k, false)
    ensures Unmarked(Run(k, es), false)
    decreases |es|
  {
    if es != [] {
      StepUnmarked(k, es[0]);
      RunUnmarked(Step(k, es[0]).0, es[1..]);
    }
  }

  /** So a `halt` always passes on the status it was called with. */
  lemma HaltPassesStatus(k: Kernel, status: byte)
    requires Inv(k) && Unmarked(k, false)
    ensures ReturnValue(Runner(k), status) == status
  {
    assert Slot(k, k.exec, |k.stacks[k.exec]| - 1);
  }

  /** After a child's `halt` its parent is the newest process of the executing terminal. */
  lemma HaltReturnsToParent(k: Kernel, esp: uint32, status: byte)
    requires Inv(k) && OnStack(k, esp) && |k.stacks[k.exec]| > 1
    ensures GetPcb(esp) in k.pcbs
    ensures k.pcbs[GetPcb(esp)].parent == NULL || k.pcbs[GetPcb(esp)].parent in k.pcbs
    ensures
      var k' := Halt(k, esp, status).0;
      k'.exec == k.exec && k'.stacks[k.exec] == k.stacks[k.exec][..|k.stacks[k.exec]| - 1]
  {
    var p := RunningPcb(k, esp);
  }

  lemma FaultReturnsToParent(k: Kernel, esp: uint32)
    requires Inv(k) && OnStack(k, esp) && |k.stacks[k.exec]| > 1
    ensures GetPcb(esp) in k.pcbs
    ensures k.pcbs[GetPcb(esp)].parent == NULL || k.pcbs[GetPcb(esp)].parent in k.pcbs
    ensures
      var k' := Fault(k, esp).0;
      k'.exec == k.exec && k'.stacks[k.exec] == k.stacks[k.exec][..|k.stacks[k.exec]| - 1]
  {
    var k1 := FaultMarks(k, esp);
    HaltReturnsToParent(k1, esp, 0);
  }

  /** While its child lives, and whatever else happens, the parent waits right below it with the
      stack pointer and the return point of the `execute` call. */
  lemma ChildStaysOverParent(k: Kernel, k1: Kernel, esp: uint32, pid: Pid, k2: Kernel)
    requires StacksOk(k) && k.stacks[k.exec] != [] && Spawned(k, k1, esp, pid)
    requires StacksOk(k1) && Inv(k2) && Evolves(k1, k2)
    requires Runner(k2).serial == k.next
    ensures
      var n := |k.stacks[k.exec]|;
      && k2.exec == k.exec && |k2.stacks[k.exec]| == n + 1
      && k2.stacks[k.exec][n - 1] == k.Top(k.exec) && k.Top(k.exec) in k2.pcbs
      && k2.pcbs[k.Top(k.exec)].context == Context(esp, InExecute(k.next))
  {
    var n := |k.stacks[k.exec]|;
    ChildOnTop(k, k1, esp, pid, k2);
    assert Slot(k2, k.exec, n - 1) && Slot(k2, k.exec, n) && Kept(k1, k2, k.exec, n);
    assert Slot(k, k.exec, n - 1) && Slot(k1, k.exec, n - 1);
  }

  lemma ChildOnTop(k: Kernel, k1: Kernel, esp: uint32, pid: Pid, k2: Kernel)
    requires StacksOk(k) && k.stacks[k.exec] != [] && Spawned(k, k1, esp, pid)
    requires StacksOk(k1) && Inv(k2) && Evolves(k1, k2)
    requires Runner(k2).serial == k.next
    ensures k2.exec == k.exec && |k2.stacks[k.exec]| == |k.stacks[k.exec]| + 1
  {
    var t, i := k2.exec, |k2.stacks[k2.exec]| - 1;
    assert Slot(k2, t, i) && Kept(k1, k2, t, i);
    assert Slot(k1, t, i) && Slot(k1, k.exec, |k.stacks[k.exec]|);
  }

  lemma ExecuteSpawns(k: Kernel, esp: uint32) returns (pid: Pid)
    requires Inv(k) && OnStack(k, esp) && AfterExecute(k, esp, true).1 == Entered(k.next)
    ensures Spawned(k, AfterExecute(k, esp, true).0, esp, pid)
  {
    RunningIsTop(k, esp);
    AllocationTakesLeastFree(k.pids);
    pid := AllocPid(k.pids).1;
    SpawnSlots(k, esp, pid);
  }

  /** The processor continues in `k3` with `value`, behind the `execute` call made in `k` at `esp`
      that created process number `k.next`, on the stack of the process that made it. */
  ghost predicate ReturnsToCaller(k: Kernel, esp: uint32, k3: Kernel, outcome: Outcome, value: int)
    requires Inv(k) && Inv(k3)
  {
    && outcome == Resumed(Context(esp, InExecute(k.next)), value)
    && OnStack(k3, esp) && k3.exec == k.exec && k3.Top(k3.exec) == k.Top(k.exec)
  }

  /** Well-nested return. In `k` a process calls `execute` at stack pointer `esp`, giving `k1`.
      However long the run that follows, with whatever ticks, switches, launches, siblings and
      exceptions: when the child created by that call halts, the processor continues behind that
      very call, at `esp`, on the parent's kernel stack, with the child's status. */
  lemma ChildResumesItsExecute(k: Kernel, esp: uint32, k1: Kernel, es: seq<Event>, k2: Kernel, esp2: uint32,
                               status: byte)
    requires Inv(k) && Unmarked(k, false) && OnStack(k, esp) && AfterExecute(k, esp, true) == (k1, Entered(k.next))
    requires Feasible(k1, es) && k2 == Run(k1, es)
    requires OnStack(k2, esp2) && Runner(k2).serial == k.next
    ensures
      var (k3, outcome) := AfterHalt(k2, esp2, status);
      ReturnsToCaller(k, esp, k3, outcome, status)
  {
    RunEvolves(k1, es);
    var pid := ExecuteSpawns(k, esp);
    ChildStaysOverParent(k, k1, esp, pid, k2);
    HaltReturns(k, esp, k2, esp2, status);
    AfterExecuteUnmarked(k, esp, true);
    RunUnmarked(k1, es);
    HaltPassesStatus(k2, status);
  }

  lemma HaltReturns(k: Kernel, esp: uint32, k2: Kernel, esp2: uint32, status: byte)
    requires Inv(k) && Inv(k2) && OnStack(k2, esp2)
    requires k2.exec == k.exec && |k2.stacks[k.exec]| == |k.stacks[k.exec]| + 1
    requires k2.stacks[k.exec][|k.stacks[k.exec]| - 1] == k.Top(k.exec) && k.Top(k.exec) in k2.pcbs
    requires k2.pcbs[k.Top(k.exec)].context == Context(esp, InExecute(k.next))
    ensures
      var (k3, outcome) := AfterHalt(k2, esp2, status);
      ReturnsToCaller(k, esp, k3, outcome, ReturnValue(Runner(k2), status))
  {
    var p := RunningPcb(k2, esp2);
    HaltKeepsInv(k2, esp2, status);
    HaltReturnsToParent(k2, esp2, status);
  }

  /** And with 256 when the child is ended by an exception. */
  lemma FaultResumesItsExecute(k: Kernel, esp: uint32, k1: Kernel, es: seq<Event>, k2: Kernel, esp2: uint32)
    requires Inv(k) && OnStack(k, esp) && AfterExecute(k, esp, true) == (k1, Entered(k.next))
    requires Feasible(k1, es) && k2 == Run(k1, es)
    requires OnStack(k2, esp2) && Runner(k2).serial == k.next
    ensures
      var (k3, outcome) := AfterFault(k2, esp2);
      ReturnsToCaller(k, esp, k3, outcome, RETURN_EXCEPTION)
  {
    RunEvolves(k1, es);
    var pid := ExecuteSpawns(k, esp);
    ChildStaysOverParent(k, k1, esp, pid, k2);
    FaultReturns(k, esp, k2, esp2);
  }

  lemma FaultReturns(k: Kernel, esp: uint32, k2: Kernel, esp2: uint32)
    requires Inv(k) && Inv(k2) && OnStack(k2, esp2)
    requires k2.exec == k.exec && |k2.stacks[k.exec]| == |k.stacks[k.exec]| + 1
    requires k2.stacks[k.exec][|k.stacks[k.exec]| - 1] == k.Top(k.exec) && k.Top(k.exec) in k2.pcbs
    requires k2.pcbs[k.Top(k.exec)].context == Context(esp, InExecute(k.next))
    ensures
      var (k3, outcome) := AfterFault(k2, esp2);
      ReturnsToCaller(k, esp, k3, outcome, RETURN_EXCEPTION)
  {
    var p := RunningPcb(k2, esp2);
    FaultKeepsInv(k2, esp2);
    FaultReturnsToParent(k2, esp2);
  }
}
