/** The shared state of processes, terminals and page tables, and the kernel's steps over it
    (src/syscalls/syscalls.c, src/process.c, src/drivers/terminal.c). */
module Processes {
  import opened Layout
  import opened Paging
  import opened Pids

  const RETURN_EXCEPTION := 256

  /** Where the kernel code of a suspended process continues: behind the `execute` that created
      child number `child`, or behind one of the two places that store the running process's
      stack pointers. A process that has not been suspended yet has its initial pointers. */
  datatype ResumePoint = NeverSuspended | InExecute(child: nat) | InContextSwitch | InTerminalSwitch

  /** A saved `k_esp`/`k_ebp` pair. */
  datatype Context = Context(esp: uint32, point: ResumePoint)

  /** A process control block. `serial` numbers the processes in order of creation. */
  datatype Pcb = Pcb(pid: Pid, serial: nat, parent: nat, context: Context, esp0: uint32, pde: Pde,
                     pdeVirtAddr: uint32, vidmemVirtAddr: uint32, retval: int)

  /** `stacks[t]` is terminal t's `child_procs[..num_procs]`, the PCB addresses of its processes,
      oldest first; `pcbs` is the kernel memory that holds PCBs. */
  datatype Kernel = Kernel(
    pids: seq<bool>, exec: nat, curr: nat, stacks: seq<seq<nat>>, pcbs: map<nat, Pcb>,
    tssEsp0: uint32, tables: Tables, next: nat)
  {
    predicate Shape() {
      && 1 <= |pids| <= PID_LIMIT && |stacks| <= TERM_LIMIT
      && exec < |stacks| && curr < |stacks| && tables.Shape()
    }

    /** The PCB of the newest process of terminal `t`. */
    function Top(t: nat): nat
      requires t < |stacks| && stacks[t] != []
    {
      stacks[t][|stacks[t]| - 1]
    }

    /** Every terminal's newest process has a PCB in memory. */
    predicate TopsPresent() {
      forall t :: 0 <= t < |stacks| && stacks[t] != [] ==> stacks[t][|stacks[t]| - 1] in pcbs
    }
  }

  /** What the processor does when a step is over: return from the system call, enter a new
      program, or continue at a saved context with a value for the one waiting there. */
  datatype Outcome = Continued | Returned(eax: int) | Entered(serial: nat) | Resumed(context: Context, eax: int)

  /** `get_pcb`. */
  function GetPcb(esp: uint32): nat { MaskEsp(esp) }

  function NewPcb(pid: Pid, serial: nat, parent: nat): Pcb {
    Pcb(pid, serial, parent, Context(KernelStackTop(pid), NeverSuspended), KernelStackTop(pid),
        UserPde(pid), MB128, 0, 0)
  }

  /** The parent, if there is one, waits in `execute` for the process about to be created. */
  function Linked(k: Kernel, esp: uint32): Kernel
    requires k.Shape() && (k.stacks[k.exec] != [] ==> GetPcb(esp) in k.pcbs)
  {
    if k.stacks[k.exec] == [] then k
    else k.(pcbs := k.pcbs[GetPcb(esp) := k.pcbs[GetPcb(esp)].(context := Context(esp, InExecute(k.next)))])
  }

  /** The new process is mapped, stored, pushed, and the TSS points to its stack. */
  function Entering(k: Kernel, pcb: Pcb): Kernel
    requires k.Shape()
  {
    Installed(k.(tables := MapPage4MB(k.tables, pcb.pdeVirtAddr, pcb.pde)), pcb)
  }

  /** The PCB in memory, on the executing terminal's stack and below the stack for kernel entries. */
  function Installed(k: Kernel, pcb: Pcb): Kernel
    requires k.exec < |k.stacks|
  {
    var addr := MaskEsp(pcb.esp0);
    k.(pcbs := k.pcbs[addr := pcb],
       stacks := k.stacks[k.exec := k.stacks[k.exec] + [addr]],
       tssEsp0 := pcb.esp0,
       next := k.next + 1)
  }

  /** The part of `execute` behind the PID check. */
  function Spawn(k: Kernel, esp: uint32, pid: Pid): Kernel
    requires k.Shape() && pid <= |k.pids| && (k.stacks[k.exec] != [] ==> GetPcb(esp) in k.pcbs)
  {
    var pcb := NewPcb(pid, k.next, if k.stacks[k.exec] == [] then NULL else GetPcb(esp));
    Entering(Linked(k.(pids := k.pids[pid - 1 := true]), esp), pcb)
  }

  /** `execute`. `found` tells whether the command pointer is in the user or kernel window and
      names an executable; a full PID table makes the call return 0. */
  function Execute(k: Kernel, esp: uint32, found: bool): (Kernel, Outcome)
    requires k.Shape() && (k.stacks[k.exec] != [] ==> GetPcb(esp) in k.pcbs)
  {
    var pid := AllocPid(k.pids).1;
    if !found then (k, Returned(-1))
    else if pid < 1 || pid > |k.pids| then (k, Returned(0))
    else (Spawn(k, esp, pid), Entered(k.next))
  }

  /** `halt` up to the fork on the parent: free the PID, unmap the video page, pop. */
  function Pop(k: Kernel, a: nat): Kernel
    requires k.Shape() && a in k.pcbs && k.stacks[k.exec] != []
  {
    var pcb := k.pcbs[a];
    var stack := k.stacks[k.exec];
    k.(pids := FreePid(k.pids, pcb.pid).0,
       tables := if pcb.vidmemVirtAddr != 0 then FreeUserVideoMem(k.tables, pcb.vidmemVirtAddr) else k.tables,
       stacks := k.stacks[k.exec := stack[..|stack| - 1]])
  }

  function ReturnValue(pcb: Pcb, status: byte): int {
    if pcb.retval == RETURN_EXCEPTION then RETURN_EXCEPTION else status
  }

  /** `halt`. The first process of a terminal is replaced by a new shell; should that fail, the
      code would jump to the top of the halted process's own stack. */
  function Halt(k: Kernel, esp: uint32, status: byte): (Kernel, Outcome)
    requires k.Shape() && GetPcb(esp) in k.pcbs && k.stacks[k.exec] != []
    requires k.pcbs[GetPcb(esp)].parent == NULL || k.pcbs[GetPcb(esp)].parent in k.pcbs
  {
    var pcb := k.pcbs[GetPcb(esp)];
    var popped := Pop(k, GetPcb(esp));
    if pcb.parent == NULL then
      var (k', outcome) := Execute(popped, esp, true);
      if outcome.Entered? then (k', outcome)
      else
        var top := KernelStackTop(pcb.pid);
        (k'.(tssEsp0 := top), Resumed(Context(top, NeverSuspended), ReturnValue(pcb, status)))
    else
      var parent := k.pcbs[pcb.parent];
      (popped.(tables := MapPage4MB(popped.tables, parent.pdeVirtAddr, parent.pde), tssEsp0 := parent.esp0),
       Resumed(parent.context, ReturnValue(pcb, status)))
  }

  /** An exception handler: mark the process, then halt it. */
  function Fault(k: Kernel, esp: uint32): (Kernel, Outcome)
    requires k.Shape() && GetPcb(esp) in k.pcbs && k.stacks[k.exec] != []
    requires k.pcbs[GetPcb(esp)].parent == NULL || k.pcbs[GetPcb(esp)].parent in k.pcbs
  {
    var a := GetPcb(esp);
    Halt(k.(pcbs := k.pcbs[a := k.pcbs[a].(retval := RETURN_EXCEPTION)]), esp, 0)
  }

  /** The terminal `d` places after `from` in cyclic order. */
  function After(from: nat, d: nat, terms: nat): nat
    requires from < terms && d <= terms
  {
    if from + d < terms then from + d else from + d - terms
  }

  /** The first terminal with a process, at least `d` places after `exec`; `exec` itself when
      there is none. */
  function NextTerm(stacks: seq<seq<nat>>, exec: nat, d: nat): (n: nat)
    requires exec < |stacks| && 1 <= d <= |stacks|
    ensures n < |stacks| && (n == exec || stacks[n] != [])
    decreases |stacks| - d
  {
    if d == |stacks| then exec
    else if stacks[After(exec, d, |stacks|)] != [] then After(exec, d, |stacks|)
    else NextTerm(stacks, exec, d + 1)
  }

  function ContextSwitch(k: Kernel, esp: uint32, n: nat): (Kernel, Outcome)
    requires k.Shape() && GetPcb(esp) in k.pcbs && n < |k.stacks| && k.stacks[n] != [] && k.Top(n) in k.pcbs
  {
    var next := k.pcbs[k.Top(n)];
    var pcbs := k.pcbs[GetPcb(esp) := k.pcbs[GetPcb(esp)].(context := Context(esp, InContextSwitch))];
    (k.(tables := MapPage4MB(k.tables, next.pdeVirtAddr, next.pde), exec := n, tssEsp0 := next.esp0, pcbs := pcbs),
     Resumed(pcbs[k.Top(n)].context, 0))
  }

  /** The timer interrupt. */
  function Tick(k: Kernel, esp: uint32): (Kernel, Outcome)
    requires k.Shape() && GetPcb(esp) in k.pcbs
    requires k.TopsPresent()
  {
    var n := NextTerm(k.stacks, k.exec, 1);
    if n == k.exec then (k, Continued) else ContextSwitch(k, esp, n)
  }

  /** A switch is turned down when the terminal has no process and no PID is left for one. */
  predicate Refuses(k: Kernel, term: nat)
    requires term < |k.stacks|
  {
    AllocPid(k.pids).1 < 1 && k.stacks[term] == []
  }

  /** Remaps the page a process of the displayed terminal sees at 132 MB, if it has one. */
  function RemapUserVideo(k: Kernel, phys: nat): Tables
    requires k.Shape() && k.stacks[k.curr] != [] && k.Top(k.curr) in k.pcbs
  {
    var vidmem := k.pcbs[k.Top(k.curr)].vidmemVirtAddr;
    if vidmem != 0 then MapUserVideoMem(k.tables, vidmem, ScreenPte(true, phys)) else k.tables
  }

  /** The PID a switch takes to see whether there is one, and gives back. */
  function Peek(k: Kernel): Kernel {
    k.(pids := FreePid(AllocPid(k.pids).0, Wrap32(AllocPid(k.pids).1)).0)
  }

  /** The first half of a switch: the displayed terminal goes back to its own frames. */
  function Hide(k: Kernel): Kernel
    requires k.Shape() && k.stacks[k.curr] != [] && k.Top(k.curr) in k.pcbs
  {
    var k1 := k.(tables := MapBackupVidmem(k.tables, VirtBackup(k.curr), PhysBackup(k.curr)));
    k1.(tables := RemapUserVideo(k1, PhysBackup(k.curr)))
  }

  /** The second half: the new terminal takes over the video page. */
  function Show(k: Kernel, term: nat): Kernel
    requires k.Shape() && term < |k.stacks|
  {
    k.(curr := term, tables := MapBackupVidmem(k.tables, VirtBackup(term), VIDEO_MEM_START))
  }

  /** Starting the first shell of the terminal now on display. */
  function Launch(k: Kernel, esp: uint32): (Kernel, Outcome)
    requires k.Shape() && k.stacks[k.curr] == [] && k.stacks[k.exec] != [] && k.Top(k.exec) in k.pcbs
  {
    var a := k.Top(k.exec);
    Execute(k.(pcbs := k.pcbs[a := k.pcbs[a].(context := Context(esp, InTerminalSwitch))], exec := k.curr), esp, true)
  }

  /** The end of a switch: a terminal without a process gets a shell, another its screen page. */
  function Attend(k: Kernel, esp: uint32): (Kernel, Outcome)
    requires k.Shape() && k.stacks[k.exec] != [] && k.TopsPresent()
  {
    if k.stacks[k.curr] == [] then Launch(k, esp)
    else (k.(tables := RemapUserVideo(k, VIDEO_MEM_START)), Continued)
  }

  /** A switch behind its checks: remap, copy, change the terminal on display, attend to it. */
  function Complete(k: Kernel, esp: uint32, term: nat): (Kernel, Outcome)
    requires k.Shape() && term < |k.stacks| && k.stacks[k.exec] != [] && k.stacks[k.curr] != []
    requires k.TopsPresent()
  {
    var hidden := Hide(k);
    assert hidden.stacks == k.stacks && hidden.pcbs == k.pcbs;
    Attend(Show(hidden, term), esp)
  }

  /** `switch_active_terminal`. */
  function Switch(k: Kernel, esp: uint32, term: nat): (Kernel, Outcome)
    requires k.Shape() && term < |k.stacks| && k.stacks[k.exec] != [] && k.stacks[k.curr] != []
    requires k.TopsPresent()
  {
    if k.curr == term || Refuses(k, term) then (k, Continued)
    else
      assert Peek(k).Shape() && Peek(k).TopsPresent();
      Complete(Peek(k), esp, term)
  }

  /** `vidmap`. */
  function Vidmap(k: Kernel, esp: uint32, screenStart: uint32): (Kernel, Outcome)
    requires k.Shape() && GetPcb(esp) in k.pcbs
  {
    var a := GetPcb(esp);
    if !InUserWindow(screenStart) then (k, Returned(-1))
    else
      (k.(tables := MapUserVideoMem(k.tables, USER_VIDEO_MEM_ADDR, ScreenPte(true, VIDEO_MEM_START)),
          pcbs := k.pcbs[a := k.pcbs[a].(vidmemVirtAddr := USER_VIDEO_MEM_ADDR)]),
       Returned(0))
  }
}
