/** The invariant that ties the PID table, the process stacks, the saved contexts, the TSS and
    the page tables together, and the lemmas that every step keeps it. */
module Invariant {
  import opened Layout
  import opened Paging
  import opened Processes

  /** Position `i` of terminal `t`'s process stack. */
  predicate Slot(k: Kernel, t: int, i: int) { 0 <= t < |k.stacks| && 0 <= i < |k.stacks[t]| }

  /** `a` is the PCB address of the PID stored there, the PID is marked used, and the fixed fields
      are those of the PID. */
  predicate Resident(k: Kernel, a: nat) {
    && a in k.pcbs
    && var p := k.pcbs[a];
      && p.pid <= |k.pids| && k.pids[p.pid - 1] && a == PcbAddr(p.pid)
      && p.esp0 == KernelStackTop(p.pid) && p.pde == UserPde(p.pid) && p.pdeVirtAddr == MB128
      && (p.vidmemVirtAddr == 0 || p.vidmemVirtAddr == USER_VIDEO_MEM_ADDR)
      && p.serial < k.next
  }

  ghost predicate AllResident(k: Kernel) {
    forall t, i {:trigger Slot(k, t, i)} :: Slot(k, t, i) ==> Resident(k, k.stacks[t][i])
  }

  /** No process is on two stacks, or twice on one; nor do two share a serial number. */
  ghost predicate AllDistinct(k: Kernel)
    requires AllResident(k)
  {
    forall t, i, t', i' {:trigger Slot(k, t, i), Slot(k, t', i')} :: Slot(k, t, i) && Slot(k, t', i')
      && (k.stacks[t][i] == k.stacks[t'][i'] || k.pcbs[k.stacks[t][i]].serial == k.pcbs[k.stacks[t'][i']].serial)
      ==> t == t' && i == i'
  }

  ghost predicate Live(k: Kernel, a: nat) {
    exists t, i :: Slot(k, t, i) && k.stacks[t][i] == a
  }

  /** A PID marked used belongs to a process on some stack. */
  ghost predicate UsedAreLive(k: Kernel)
    requires |k.pids| <= PID_LIMIT
  {
    forall p: Pid :: p <= |k.pids| && k.pids[p - 1] ==> Live(k, PcbAddr(p))
  }

  /** The parent is the stack entry just below; there is none exactly at the bottom. */
  ghost predicate ParentsBelow(k: Kernel)
    requires AllResident(k)
  {
    forall t, i {:trigger Slot(k, t, i)} :: Slot(k, t, i) ==>
      k.pcbs[k.stacks[t][i]].parent == if i == 0 then NULL else k.stacks[t][i - 1]
  }

  /** A suspended process was suspended on its own kernel stack: one with a child above it in the
      `execute` that created exactly that child, the newest one of a terminal that is not
      executing in a context or terminal switch. */
  predicate Suspended(k: Kernel, t: nat, i: nat)
    requires AllResident(k) && Slot(k, t, i)
  {
    var p := k.pcbs[k.stacks[t][i]];
    && InKernelStack(p.context.esp, p.pid)
    && if i + 1 < |k.stacks[t]| then
         k.stacks[t][i + 1] in k.pcbs && p.context.point == InExecute(k.pcbs[k.stacks[t][i + 1]].serial)
       else
         p.context.point in {InContextSwitch, InTerminalSwitch}
  }

  ghost predicate AllSuspended(k: Kernel)
    requires AllResident(k)
  {
    forall t, i {:trigger Slot(k, t, i)} ::
      Slot(k, t, i) && (t == k.exec ==> i + 1 < |k.stacks[t]|) ==> Suspended(k, t, i)
  }

  /** The part of the invariant that also holds in the middle of a step. */
  ghost predicate StacksOk(k: Kernel) {
    k.Shape() && AllResident(k) && AllDistinct(k) && UsedAreLive(k) && ParentsBelow(k) && AllSuspended(k)
  }

  /** The newest process of the executing terminal runs: the processor enters the kernel on its
      stack and the 128 MB window is its frame. The terminal on display has a process. */
  ghost predicate Inv(k: Kernel) {
    && StacksOk(k)
    && k.stacks[k.curr] != [] && Slot(k, k.exec, |k.stacks[k.exec]| - 1)
    && k.tssEsp0 == k.pcbs[k.Top(k.exec)].esp0
    && Consistent(k.tables, |k.stacks|, k.curr, k.pcbs[k.Top(k.exec)].pid)
  }

  /** The stack pointer of kernel code lies in the 8 KB block the TSS points into. */
  predicate OnStack(k: Kernel, esp: uint32) { GetPcb(esp) == GetPcb(k.tssEsp0) }

  /** The running process is the one `get_pcb` finds. */
  lemma RunningIsTop(k: Kernel, esp: uint32)
    requires Inv(k) && OnStack(k, esp)
    ensures GetPcb(esp) == k.Top(k.exec) && GetPcb(esp) in k.pcbs && k.TopsPresent()
    ensures InKernelStack(esp, k.pcbs[GetPcb(esp)].pid)
  {
    var t := k.exec;
    assert Slot(k, t, |k.stacks[t]| - 1);
    var p := k.pcbs[k.Top(t)];
    StackPointerFindsPcb(k.tssEsp0, p.pid);
    StackPointerFindsPcb(esp, p.pid);
    forall u | 0 <= u < |k.stacks| && k.stacks[u] != []
      ensures k.stacks[u][|k.stacks[u]| - 1] in k.pcbs
    {
      assert Slot(k, u, |k.stacks[u]| - 1);
    }
  }

  /** PCB addresses determine PIDs. */
  lemma PcbAddrInjective(p: Pid, q: Pid)
    ensures PcbAddr(p) == PcbAddr(q) ==> p == q
  {
  }

  // ---- Spawn ----

  /** The newcomer's PCB address is on no stack. */
  lemma FreePidNotLive(k: Kernel, pid: Pid, t: nat, i: nat)
    requires k.Shape() && AllResident(k) && Slot(k, t, i) && pid <= |k.pids| && !k.pids[pid - 1]
    ensures k.stacks[t][i] != PcbAddr(pid)
  {
  }

  /** `k'` is `k` with process `pid` pushed on the executing terminal, slot by slot. */
  ghost predicate Spawned(k: Kernel, k': Kernel, esp: uint32, pid: Pid)
    requires k.exec < |k.stacks|
  {
    var e, n := k.exec, |k.stacks[k.exec]|;
    && k'.Shape() && k'.exec == e && k'.curr == k.curr && |k'.stacks| == |k.stacks|
    && pid <= |k.pids| && k'.pids == k.pids[pid - 1 := true] && k'.next == k.next + 1
    && |k'.stacks[e]| == n + 1 && k'.stacks[e][n] == PcbAddr(pid)
    && (forall t :: 0 <= t < |k.stacks| && t != e ==> |k'.stacks[t]| == |k.stacks[t]|)
    && (forall t, i :: Slot(k', t, i) <==> Slot(k, t, i) || (t == e && i == n))
    && (forall t, i {:trigger Slot(k, t, i)} :: Slot(k, t, i) ==>
          k'.stacks[t][i] == k.stacks[t][i] && k.stacks[t][i] in k.pcbs && k.stacks[t][i] in k'.pcbs)
    && (forall t, i {:trigger Slot(k, t, i)} :: Slot(k, t, i) ==>
          k'.pcbs[k.stacks[t][i]]
          == if t == e && i == n - 1 then k.pcbs[k.stacks[t][i]].(context := Context(esp, InExecute(k.next)))
             else k.pcbs[k.stacks[t][i]])
    && PcbAddr(pid) in k'.pcbs && k'.pcbs[PcbAddr(pid)] == NewPcb(pid, k.next, if n == 0 then NULL else k.Top(e))
  }

  /** The state in which a process may be pushed: its PID is free, and kernel code runs on the
      stack of the executing terminal's newest process, if there is one. */
  ghost predicate MaySpawn(k: Kernel, esp: uint32, pid: Pid) {
    && StacksOk(k) && pid <= |k.pids| && !k.pids[pid - 1]
    && (k.stacks[k.exec] != [] ==> GetPcb(esp) == k.Top(k.exec))
  }

  lemma SpawnSlots(k: Kernel, esp: uint32, pid: Pid)
    requires MaySpawn(k, esp, pid)
    ensures k.stacks[k.exec] != [] ==> GetPcb(esp) in k.pcbs
    ensures Spawned(k, Spawn(k, esp, pid), esp, pid)
  {
    var e, n := k.exec, |k.stacks[k.exec]|;
    assert n > 0 ==> Slot(k, e, n - 1);
    StackPointerFindsPcb(0, pid);
    var k' := Spawn(k, esp, pid);
    assert k'.stacks[e] == k.stacks[e] + [PcbAddr(pid)];
    forall t, i | Slot(k, t, i)
      ensures k.stacks[t][i] != PcbAddr(pid) && k.stacks[t][i] in k.pcbs
      ensures n > 0 && k.stacks[t][i] == k.Top(e) ==> t == e && i == n - 1
    {
      FreePidNotLive(k, pid, t, i);
    }
  }

  lemma SpawnResident(k: Kernel, k': Kernel, esp: uint32, pid: Pid)
    requires StacksOk(k) && Spawned(k, k', esp, pid)
    ensures AllResident(k')
  {
  }

  lemma SpawnDistinct(k: Kernel, k': Kernel, esp: uint32, pid: Pid)
    requires MaySpawn(k, esp, pid) && Spawned(k, k', esp, pid) && AllResident(k')
    ensures AllDistinct(k')
  {
    forall t, i | Slot(k, t, i)
      ensures k.stacks[t][i] != PcbAddr(pid) && k'.pcbs[k.stacks[t][i]].serial == k.pcbs[k.stacks[t][i]].serial < k.next
    {
      FreePidNotLive(k, pid, t, i);
    }
  }

  lemma SpawnUsed(k: Kernel, k': Kernel, esp: uint32, pid: Pid)
    requires StacksOk(k) && Spawned(k, k', esp, pid)
    ensures UsedAreLive(k')
  {
  }

  lemma SpawnParents(k: Kernel, k': Kernel, esp: uint32, pid: Pid)
    requires StacksOk(k) && Spawned(k, k', esp, pid) && AllResident(k')
    ensures ParentsBelow(k')
  {
    forall t, i | Slot(k', t, i)
      ensures k'.pcbs[k'.stacks[t][i]].parent == if i == 0 then NULL else k'.stacks[t][i - 1]
    {
      assert i > 0 ==> Slot(k, t, i - 1);
      if Slot(k, t, i) {
        var a := k.stacks[t][i];
        assert k.pcbs[a].parent == if i == 0 then NULL else k.stacks[t][i - 1];
        assert k'.pcbs[a].parent == k.pcbs[a].parent;
      }
    }
  }

  lemma SpawnSuspended(k: Kernel, k': Kernel, esp: uint32, pid: Pid)
    requires MaySpawn(k, esp, pid) && Spawned(k, k', esp, pid) && AllResident(k')
    ensures AllSuspended(k')
  {
    forall t, i | Slot(k', t, i) && (t == k'.exec ==> i + 1 < |k'.stacks[t]|)
      ensures Suspended(k', t, i)
    {
      assert Slot(k, t, i);
      var a := k.stacks[t][i];
      if t == k.exec && i + 1 == |k.stacks[t]| {
        assert Resident(k, a);
        StackPointerFindsPcb(esp, k.pcbs[a].pid);
      } else {
        assert Suspended(k, t, i) && k'.pcbs[a] == k.pcbs[a];
        if i + 1 < |k.stacks[t]| {
          assert Slot(k, t, i + 1);
          assert k'.pcbs[k.stacks[t][i + 1]].serial == k.pcbs[k.stacks[t][i + 1]].serial;
        }
      }
    }
  }

  /** A pushed process runs. */
  lemma SpawnKeepsInv(k: Kernel, esp: uint32, pid: Pid)
    requires MaySpawn(k, esp, pid) && KernelMapped(k.tables, |k.stacks|, k.curr)
    requires k.stacks[k.curr] != [] || k.curr == k.exec
    ensures k.stacks[k.exec] != [] ==> GetPcb(esp) in k.pcbs
    ensures Inv(Spawn(k, esp, pid)) && Spawned(k, Spawn(k, esp, pid), esp, pid)
  {
    SpawnSlots(k, esp, pid);
    var k' := Spawn(k, esp, pid);
    SpawnResident(k, k', esp, pid);
    SpawnDistinct(k, k', esp, pid);
    SpawnUsed(k, k', esp, pid);
    SpawnParents(k, k', esp, pid);
    SpawnSuspended(k, k', esp, pid);
    MapProcessKeeps(k.tables, |k.stacks|, k.curr, pid);
    assert k.stacks[k.curr] != [] ==> Slot(k, k.curr, 0) && Slot(k', k.curr, 0);
    assert k'.Top(k.exec) == PcbAddr(pid);
  }

  // ---- Pop ----

  /** `k'` is `k` with the newest process of the executing terminal popped, slot by slot. */
  ghost predicate Popped(k: Kernel, k': Kernel)
    requires k.exec < |k.stacks| && k.stacks[k.exec] != [] && k.Top(k.exec) in k.pcbs
  {
    var e, n := k.exec, |k.stacks[k.exec]|;
    && k'.Shape() && k'.exec == e && k'.curr == k.curr && |k'.stacks| == |k.stacks|
    && k.pcbs[k.Top(e)].pid <= |k.pids| && k'.pids == k.pids[k.pcbs[k.Top(e)].pid - 1 := false]
    && k'.next == k.next && k'.pcbs == k.pcbs && |k'.stacks[e]| == n - 1
    && (forall t :: 0 <= t < |k.stacks| && t != e ==> |k'.stacks[t]| == |k.stacks[t]|)
    && (forall t, i :: Slot(k', t, i) <==> Slot(k, t, i) && !(t == e && i == n - 1))
    && (forall t, i {:trigger Slot(k', t, i)} :: Slot(k', t, i) ==> k'.stacks[t][i] == k.stacks[t][i])
  }

  lemma PopSlots(k: Kernel)
    requires Inv(k)
    ensures k.Top(k.exec) in k.pcbs && Popped(k, Pop(k, k.Top(k.exec)))
    ensures Consistent(Pop(k, k.Top(k.exec)).tables, |k.stacks|, k.curr, k.pcbs[k.Top(k.exec)].pid)
  {
    assert Slot(k, k.exec, |k.stacks[k.exec]| - 1);
    FreeUserVideoKeeps(k.tables, |k.stacks|, k.curr, k.pcbs[k.Top(k.exec)].pid);
  }

  /** Every other process differs from the popped one in address and PID. */
  lemma OthersDiffer(k: Kernel, t: nat, i: nat)
    requires StacksOk(k) && k.stacks[k.exec] != [] && Slot(k, t, i) && !(t == k.exec && i == |k.stacks[t]| - 1)
    ensures k.Top(k.exec) in k.pcbs && k.stacks[t][i] in k.pcbs
    ensures k.stacks[t][i] != k.Top(k.exec)
    ensures k.pcbs[k.stacks[t][i]].pid != k.pcbs[k.Top(k.exec)].pid
  {
    assert Slot(k, k.exec, |k.stacks[k.exec]| - 1);
    assert Resident(k, k.stacks[t][i]) && Resident(k, k.Top(k.exec));
  }

  lemma PopResident(k: Kernel, k': Kernel)
    requires StacksOk(k) && k.stacks[k.exec] != [] && k.Top(k.exec) in k.pcbs && Popped(k, k')
    ensures AllResident(k') && AllDistinct(k')
  {
    forall t, i | Slot(k', t, i)
      ensures Resident(k', k'.stacks[t][i])
    {
      OthersDiffer(k, t, i);
      assert Resident(k, k.stacks[t][i]);
    }
  }

  lemma PopParents(k: Kernel, k': Kernel)
    requires StacksOk(k) && k.stacks[k.exec] != [] && k.Top(k.exec) in k.pcbs && Popped(k, k') && AllResident(k')
    ensures ParentsBelow(k')
  {
    forall t, i | Slot(k', t, i)
      ensures k'.pcbs[k'.stacks[t][i]].parent == if i == 0 then NULL else k'.stacks[t][i - 1]
    {
      assert Slot(k, t, i) && (i > 0 ==> Slot(k', t, i - 1));
    }
  }

  lemma PopSuspended(k: Kernel, k': Kernel)
    requires StacksOk(k) && k.stacks[k.exec] != [] && k.Top(k.exec) in k.pcbs && Popped(k, k') && AllResident(k')
    ensures AllSuspended(k')
  {
    forall t, i | Slot(k', t, i) && (t == k'.exec ==> i + 1 < |k'.stacks[t]|)
      ensures Suspended(k', t, i)
    {
      assert Slot(k, t, i) && Suspended(k, t, i);
      assert i + 1 < |k'.stacks[t]| ==> Slot(k', t, i + 1);
    }
  }

  lemma PopUsed(k: Kernel, k': Kernel)
    requires StacksOk(k) && k.stacks[k.exec] != [] && k.Top(k.exec) in k.pcbs && Popped(k, k')
    ensures UsedAreLive(k')
  {
  }

  // ---- Changing the running process's PCB ----

  /** `k'` is `k` with only the running process's PCB replaced, by one of the same process, and
      the executing terminal changed. */
  ghost predicate Patched(k: Kernel, k': Kernel)
    requires k.exec < |k.stacks| && k.stacks[k.exec] != [] && k.Top(k.exec) in k.pcbs
  {
    var a := k.Top(k.exec);
    && k'.Shape() && k'.pids == k.pids && k'.stacks == k.stacks && k'.next == k.next && k'.curr == k.curr
    && a in k'.pcbs && k'.pcbs == k.pcbs[a := k'.pcbs[a]]
    && var p, q := k.pcbs[a], k'.pcbs[a];
      && q == p.(context := q.context, vidmemVirtAddr := q.vidmemVirtAddr, retval := q.retval)
      && (q.vidmemVirtAddr == p.vidmemVirtAddr || q.vidmemVirtAddr == USER_VIDEO_MEM_ADDR)
      && (k'.exec != k.exec ==>
            InKernelStack(q.context.esp, p.pid) && q.context.point in {InContextSwitch, InTerminalSwitch})
  }

  /** A patch leaves identity and links alone, and everything of the other processes. */
  lemma PatchAt(k: Kernel, k': Kernel, t: nat, i: nat)
    requires StacksOk(k) && k.stacks[k.exec] != [] && k.Top(k.exec) in k.pcbs && Patched(k, k') && Slot(k, t, i)
    ensures
      var a := k.stacks[t][i];
      && Slot(k', t, i) && k'.stacks[t][i] == a && a in k.pcbs && a in k'.pcbs && Resident(k', a)
      && k'.pcbs[a].serial == k.pcbs[a].serial && k'.pcbs[a].parent == k.pcbs[a].parent
      && k'.pcbs[a].pid == k.pcbs[a].pid
      && (k.pcbs[a].vidmemVirtAddr != 0 ==> k'.pcbs[a].vidmemVirtAddr != 0)
      && (!(t == k.exec && i == |k.stacks[t]| - 1) ==> k'.pcbs[a] == k.pcbs[a])
  {
    assert Resident(k, k.stacks[t][i]);
    if !(t == k.exec && i == |k.stacks[t]| - 1) {
      OthersDiffer(k, t, i);
    }
  }

  lemma PatchKeeps(k: Kernel, k': Kernel)
    requires StacksOk(k) && k.stacks[k.exec] != [] && k.Top(k.exec) in k.pcbs && Patched(k, k')
    ensures StacksOk(k')
  {
    PatchResident(k, k');
    PatchParents(k, k');
    PatchUsed(k, k');
    PatchSuspended(k, k');
  }

  lemma PatchResident(k: Kernel, k': Kernel)
    requires StacksOk(k) && k.stacks[k.exec] != [] && k.Top(k.exec) in k.pcbs && Patched(k, k')
    ensures AllResident(k') && AllDistinct(k')
  {
    forall t, i | Slot(k', t, i)
      ensures Slot(k, t, i) && k'.stacks[t][i] == k.stacks[t][i] && Resident(k', k'.stacks[t][i])
      ensures k'.pcbs[k'.stacks[t][i]].serial == k.pcbs[k.stacks[t][i]].serial
    {
      PatchAt(k, k', t, i);
    }
  }

  lemma PatchParents(k: Kernel, k': Kernel)
    requires StacksOk(k) && k.stacks[k.exec] != [] && k.Top(k.exec) in k.pcbs && Patched(k, k') && AllResident(k')
    ensures ParentsBelow(k')
  {
    forall t, i | Slot(k', t, i)
      ensures k'.pcbs[k'.stacks[t][i]].parent == if i == 0 then NULL else k'.stacks[t][i - 1]
    {
      assert Slot(k, t, i);
      PatchAt(k, k', t, i);
    }
  }

  lemma PatchUsed(k: Kernel, k': Kernel)
    requires StacksOk(k) && k.stacks[k.exec] != [] && k.Top(k.exec) in k.pcbs && Patched(k, k')
    ensures UsedAreLive(k')
  {
  }

  lemma PatchSuspended(k: Kernel, k': Kernel)
    requires StacksOk(k) && k.stacks[k.exec] != [] && k.Top(k.exec) in k.pcbs && Patched(k, k') && AllResident(k')
    ensures AllSuspended(k')
  {
    forall t, i | Slot(k', t, i) && (t == k'.exec ==> i + 1 < |k'.stacks[t]|)
      ensures Suspended(k', t, i)
    {
      assert Slot(k, t, i);
      PatchAt(k, k', t, i);
      if i + 1 < |k.stacks[t]| {
        PatchAt(k, k', t, i + 1);
      }
      if !(t == k.exec && i + 1 == |k.stacks[t]|) {
        assert Suspended(k, t, i);
      }
    }
  }
}
