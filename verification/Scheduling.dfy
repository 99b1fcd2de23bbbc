/** What one step means for scheduling: which terminal executes next, and that the processes of all
    others are left exactly as they are. */
module Scheduling {
  import opened Layout
  import opened Pids
  import opened Processes
  import opened Invariant
  import opened Steps

  /** Terminal `t`'s stack and the PCBs on it are the same in both states. */
  ghost predicate Frozen(k: Kernel, k': Kernel, t: nat) {
    && t < |k.stacks| && t < |k'.stacks| && k'.stacks[t] == k.stacks[t]
    && forall i :: 0 <= i < |k.stacks[t]| ==>
         k.stacks[t][i] in k.pcbs && k.stacks[t][i] in k'.pcbs && k'.pcbs[k.stacks[t][i]] == k.pcbs[k.stacks[t][i]]
  }

  lemma FrozenTransitive(k: Kernel, k': Kernel, k'': Kernel, t: nat)
    requires Frozen(k, k', t) && Frozen(k', k'', t)
    ensures Frozen(k, k'', t)
  {
  }

  lemma SameStacksFrozen(k: Kernel, k': Kernel, t: nat)
    requires StacksOk(k) && t < |k.stacks| && k'.stacks == k.stacks && k'.pcbs == k.pcbs
    ensures Frozen(k, k', t)
  {
    forall i | 0 <= i < |k.stacks[t]|
      ensures k.stacks[t][i] in k.pcbs
    {
      assert Slot(k, t, i);
    }
  }

  lemma SpawnFreezes(k: Kernel, k': Kernel, esp: uint32, pid: Pid, t: nat)
    requires StacksOk(k) && Spawned(k, k', esp, pid) && t < |k.stacks| && t != k.exec
    ensures Frozen(k, k', t)
  {
    forall i | 0 <= i < |k.stacks[t]|
      ensures k'.stacks[t][i] == k.stacks[t][i] && k.stacks[t][i] in k.pcbs && k.stacks[t][i] in k'.pcbs
      ensures k'.pcbs[k.stacks[t][i]] == k.pcbs[k.stacks[t][i]]
    {
      assert Slot(k, t, i);
    }
  }

  lemma PopFreezes(k: Kernel, k': Kernel, t: nat)
    requires StacksOk(k) && k.stacks[k.exec] != [] && k.Top(k.exec) in k.pcbs && Popped(k, k')
    requires t < |k.stacks| && t != k.exec
    ensures Frozen(k, k', t)
  {
    forall i | 0 <= i < |k.stacks[t]|
      ensures k'.stacks[t][i] == k.stacks[t][i] && k.stacks[t][i] in k.pcbs
    {
      assert Slot(k, t, i);
      assert Slot(k', t, i);
    }
  }

  lemma PatchFreezes(k: Kernel, k': Kernel, t: nat)
    requires StacksOk(k) && k.stacks[k.exec] != [] && k.Top(k.exec) in k.pcbs && Patched(k, k')
    requires t < |k.stacks| && t != k.exec
    ensures Frozen(k, k', t)
  {
    forall i | 0 <= i < |k.stacks[t]|
      ensures k.stacks[t][i] in k.pcbs && k.stacks[t][i] in k'.pcbs && k'.pcbs[k.stacks[t][i]] == k.pcbs[k.stacks[t][i]]
    {
      assert Slot(k, t, i);
      PatchAt(k, k', t, i);
    }
  }

  /** What a step does to the scheduling picture: which terminals have processes, and which one
      executes. */
  ghost predicate Schedules(k: Kernel, k': Kernel, exec': nat) {
    && k.Shape() && k'.Shape() && |k'.stacks| == |k.stacks| && k'.exec == exec'
    && (forall t :: 0 <= t < |k.stacks| ==> (k'.stacks[t] == [] <==> k.stacks[t] == []))
    && (forall t :: 0 <= t < |k.stacks| && t != k.exec ==> Frozen(k, k', t))
  }

  lemma ExecuteSchedules(k: Kernel, esp: uint32, found: bool)
    requires Inv(k) && OnStack(k, esp)
    ensures Schedules(k, AfterExecute(k, esp, found).0, k.exec)
  {
    var k' := AfterExecute(k, esp, found).0;
    RunningIsTop(k, esp);
    AllocationTakesLeastFree(k.pids);
    var pid := AllocPid(k.pids).1;
    if found && pid >= 1 {
      SpawnSlots(k, esp, pid);
      assert Spawned(k, k', esp, pid);
      forall t | 0 <= t < |k.stacks| && t != k.exec ensures Frozen(k, k', t) {
        SpawnFreezes(k, k', esp, pid, t);
      }
    } else {
      forall t | 0 <= t < |k.stacks| ensures Frozen(k, k', t) {
        SameStacksFrozen(k, k', t);
      }
    }
  }

  /** The restart of a shell on the emptied terminal. */
  lemma RestartFreezes(k: Kernel, popped: Kernel, esp: uint32, t: nat)
    requires StacksOk(popped) && popped.stacks[popped.exec] == [] && t < |popped.stacks| && t != popped.exec
    requires Frozen(k, popped, t) && AllocPid(popped.pids).1 >= 1
    ensures Frozen(k, Execute(popped, esp, true).0, t)
  {
    AllocationTakesLeastFree(popped.pids);
    var pid := AllocPid(popped.pids).1;
    SpawnSlots(popped, esp, pid);
    SpawnFreezes(popped, Spawn(popped, esp, pid), esp, pid, t);
    FrozenTransitive(k, popped, Spawn(popped, esp, pid), t);
  }

  lemma HaltSchedules(k: Kernel, esp: uint32, status: byte)
    requires Inv(k) && OnStack(k, esp)
    ensures Schedules(k, AfterHalt(k, esp, status).0, k.exec)
  {
    var k' := AfterHalt(k, esp, status).0;
    HaltKeepsInv(k, esp, status);
    var p := RunningPcb(k, esp);
    var popped := PoppedOk(k, esp);
    if |k.stacks[k.exec]| == 1 {
      AllocationTakesLeastFree(popped.pids);
      assert k' == Execute(popped, esp, true).0;
      forall t | 0 <= t < |k.stacks| && t != k.exec ensures Frozen(k, k', t) {
        PopFreezes(k, popped, t);
        RestartFreezes(k, popped, esp, t);
      }
    } else {
      assert k'.stacks == popped.stacks && k'.pcbs == popped.pcbs && k'.exec == k.exec;
      forall t | 0 <= t < |k.stacks| && t != k.exec ensures Frozen(k, k', t) {
        PopFreezes(k, popped, t);
      }
    }
  }

  lemma FaultSchedules(k: Kernel, esp: uint32)
    requires Inv(k) && OnStack(k, esp)
    ensures Schedules(k, AfterFault(k, esp).0, k.exec)
  {
    var p := RunningPcb(k, esp);
    var k1 := k.(pcbs := k.pcbs[GetPcb(esp) := p.(retval := RETURN_EXCEPTION)]);
    PatchKeeps(k, k1);
    assert Slot(k1, k.exec, |k.stacks[k.exec]| - 1);
    HaltSchedules(k1, esp, 0);
    var k' := AfterHalt(k1, esp, 0).0;
    assert k' == AfterFault(k, esp).0;
    forall t | 0 <= t < |k.stacks| && t != k.exec ensures Frozen(k, k', t) {
      PatchFreezes(k, k1, t);
      FrozenTransitive(k, k1, k', t);
    }
  }

  lemma TickSchedules(k: Kernel, esp: uint32)
    requires Inv(k) && OnStack(k, esp)
    ensures Schedules(k, AfterTick(k, esp).0, NextTerm(k.stacks, k.exec, 1))
  {
    TickKeepsInv(k, esp);
    RunningIsTop(k, esp);
    var k' := AfterTick(k, esp).0;
    forall t | 0 <= t < |k.stacks| && t != k.exec ensures Frozen(k, k', t) {
      if k' == k {
        SameStacksFrozen(k, k', t);
      } else {
        PatchFreezes(k, k', t);
      }
    }
  }

  lemma VidmapSchedules(k: Kernel, esp: uint32, screenStart: uint32)
    requires Inv(k) && OnStack(k, esp)
    ensures Schedules(k, AfterVidmap(k, esp, screenStart).0, k.exec)
  {
    RunningIsTop(k, esp);
    var k' := AfterVidmap(k, esp, screenStart).0;
    forall t | 0 <= t < |k.stacks| && t != k.exec ensures Frozen(k, k', t) {
      if k' == k {
        SameStacksFrozen(k, k', t);
      } else {
        PatchFreezes(k, k', t);
      }
    }
  }

  /** The event starts the first shell of a terminal. */
  predicate Launches(k: Kernel, e: Event) {
    e.SwitchKey? && e.term < |k.stacks| && k.curr != e.term && !Refuses(k, e.term) && k.stacks[e.term] == []
  }

  lemma SwitchSchedules(k: Kernel, esp: uint32, term: nat)
    requires Inv(k) && OnStack(k, esp) && term < |k.stacks| && !Launches(k, SwitchKey(esp, term))
    ensures Schedules(k, AfterSwitch(k, esp, term).0, k.exec)
  {
    RunningIsTop(k, esp);
    var k' := AfterSwitch(k, esp, term).0;
    assert k'.stacks == k.stacks && k'.pcbs == k.pcbs && k'.exec == k.exec;
    forall t | 0 <= t < |k.stacks| ensures Frozen(k, k', t) {
      SameStacksFrozen(k, k', t);
    }
  }

  /** A launch fills one empty terminal, which then executes; the others are untouched but for
      the saved context of the process that was running. */
  ghost predicate Launched(k: Kernel, k': Kernel, esp: uint32, term: nat)
    requires k.exec < |k.stacks| && k.stacks[k.exec] != []
  {
    && |k'.stacks| == |k.stacks| && term < |k.stacks| && k'.exec == term && k'.stacks[term] != []
    && (forall t :: 0 <= t < |k.stacks| && t != term ==> k'.stacks[t] == k.stacks[t])
    && (forall t :: 0 <= t < |k.stacks| && t != term && t != k.exec ==> Frozen(k, k', t))
    && k.Top(k.exec) in k'.pcbs && k'.pcbs[k.Top(k.exec)].context == Context(esp, InTerminalSwitch)
  }

  lemma LaunchSchedules(k: Kernel, esp: uint32, term: nat)
    requires Inv(k) && OnStack(k, esp) && Launches(k, SwitchKey(esp, term))
    ensures Launched(k, AfterSwitch(k, esp, term).0, esp, term)
  {
    RunningIsTop(k, esp);
    var shown := ShownOk(k, esp, term);
    var k1, pid := LaunchParts(shown, esp);
    assert AfterSwitch(k, esp, term).0 == Launch(shown, esp).0;
    LaunchFrozen(k, shown, k1, Launch(shown, esp).0, esp, pid);
  }

  /** A launch saves the running process's context, then pushes the shell. */
  lemma LaunchParts(k: Kernel, esp: uint32) returns (k1: Kernel, pid: Pid)
    requires StacksOk(k) && k.stacks[k.curr] == [] && k.stacks[k.exec] != [] && GetPcb(esp) == k.Top(k.exec)
    requires AllocPid(k.pids).1 >= 1
    ensures k.Top(k.exec) in k.pcbs && Patched(k, k1) && StacksOk(k1) && k1.exec == k.curr
    ensures k.Top(k.exec) in k1.pcbs && k1.pcbs[k.Top(k.exec)].context == Context(esp, InTerminalSwitch)
    ensures Spawned(k1, Launch(k, esp).0, esp, pid)
  {
    assert Slot(k, k.exec, |k.stacks[k.exec]| - 1);
    var a := k.Top(k.exec);
    assert Resident(k, a);
    StackPointerFindsPcb(esp, k.pcbs[a].pid);
    k1 := k.(pcbs := k.pcbs[a := k.pcbs[a].(context := Context(esp, InTerminalSwitch))], exec := k.curr);
    PatchKeeps(k, k1);
    AllocationTakesLeastFree(k1.pids);
    pid := AllocPid(k1.pids).1;
    SpawnSlots(k1, esp, pid);
  }

  lemma LaunchFrozen(k: Kernel, shown: Kernel, k1: Kernel, k': Kernel, esp: uint32, pid: Pid)
    requires StacksOk(k) && StacksOk(shown) && shown.stacks == k.stacks && shown.pcbs == k.pcbs && shown.exec == k.exec
    requires k.stacks[k.exec] != [] && k.Top(k.exec) in k.pcbs && Patched(shown, k1) && k1.exec != k.exec
    requires StacksOk(k1) && Spawned(k1, k', esp, pid)
    requires k.Top(k.exec) in k1.pcbs && k1.pcbs[k.Top(k.exec)].context == Context(esp, InTerminalSwitch)
    ensures Launched(k, k', esp, k1.exec)
  {
    forall t | 0 <= t < |k.stacks| && t != k1.exec
      ensures Frozen(k1, k', t) && k'.stacks[t] == k.stacks[t]
    {
      SpawnFreezes(k1, k', esp, pid, t);
    }
    assert Frozen(k1, k', k.exec) && k.Top(k.exec) == k1.stacks[k.exec][|k.stacks[k.exec]| - 1];
    forall t | 0 <= t < |k.stacks| && t != k1.exec && t != k.exec
      ensures Frozen(k, k', t)
    {
      PatchFreezes(shown, k1, t);
      FrozenTransitive(k, k1, k', t);
    }
  }

  lemma StepSchedules(k: Kernel, e: Event)
    requires Inv(k) && Enabled(k, e) && !Launches(k, e)
    ensures Schedules(k, Step(k, e).0, if e.Timer? then NextTerm(k.stacks, k.exec, 1) else k.exec)
  {
    var k' := Step(k, e).0;
    match e {
      case ExecuteCall(esp, found) =>
        ExecuteSchedules(k, esp, found);
        assert k' == AfterExecute(k, esp, found).0;
      case HaltCall(esp, status) =>
        HaltSchedules(k, esp, status);
        assert k' == AfterHalt(k, esp, status).0;
      case Exception(esp) =>
        FaultSchedules(k, esp);
        assert k' == AfterFault(k, esp).0;
      case Timer(esp) =>
        TickSchedules(k, esp);
        assert k' == AfterTick(k, esp).0;
      case SwitchKey(esp, term) =>
        SwitchSchedules(k, esp, term);
        assert k' == AfterSwitch(k, esp, term).0;
      case VidmapCall(esp, screenStart) =>
        VidmapSchedules(k, esp, screenStart);
        assert k' == AfterVidmap(k, esp, screenStart).0;
    }
  }
}
