/** The kernel's data in place, and its steps as the code takes them (src/syscalls/syscalls.c,
    src/process.c, src/drivers/terminal.c). Every method computes its step of module Processes. */
module KernelMemory {
  import opened Layout
  import opened Paging
  import opened Pids
  import opened Processes
  import opened Invariant
  import opened Steps
  import opened Conservation
  import opened Screens
  import opened Terminals
  import opened TerminalRuns
  import opened ScreenMemory
  import opened PageTables
  import opened Boot

  /** The page tables lead the kernel from the page at `va` to a frame, byte by byte. */
  ghost predicate Reaches(t: Tables, va: nat, frame: nat) {
    && t.Shape() && va + KB4 <= 0x1_0000_0000
    && forall a: uint32 {:trigger Walk(t, a, false)} :: va <= a < va + KB4 ==>
         Walk(t, a, false) == Some(frame * KB4 + (a - va))
  }

  /** A terminal that is not on display and the video page can be copied to each other. */
  ghost predicate CanShow(t: Tables, term: nat) {
    && term < TERM_LIMIT
    && Reaches(t, VirtBackup(term), PhysBackup(term) / KB4) && Reaches(t, VIDEO_MEM_START, VIDEO_MEM_INDEX)
  }

  /** So they can once the displayed terminal's backup page is mapped to its own frame. */
  ghost predicate CanHide(t: Tables, curr: nat) {
    && t.Shape() && curr < TERM_LIMIT && VirtBackup(curr) < 0x1_0000_0000 && PhysBackup(curr) < 0x1_0000_0000
    && CanShow(MapBackupVidmem(t, VirtBackup(curr), PhysBackup(curr)), curr)
  }

  /** The video page copied to the own frame of `curr`. */
  ghost function Saved(p: map<nat, Page>, curr: nat, terms: nat): (r: map<nat, Page>)
    requires FramesPresent(p, terms)
    ensures FramesPresent(r, terms)
  {
    p[PhysBackup(curr) / KB4 := p[VIDEO_MEM_INDEX]]
  }

  /** The own frame of `term` copied to the video page. */
  ghost function Restored(p: map<nat, Page>, term: nat, terms: nat): (r: map<nat, Page>)
    requires FramesPresent(p, terms) && term < terms
    ensures FramesPresent(r, terms)
  {
    p[VIDEO_MEM_INDEX := p[PhysBackup(term) / KB4]]
  }

  /** The page moves of a switch. */
  ghost function Swapped(d: Display, curr: nat, term: nat, terms: nat): Display
    requires FramesPresent(d.ram, terms) && term < terms
  {
    d.(ram := Restored(Saved(d.ram, curr, terms), term, terms))
  }

  lemma ReachesBase(t: Tables, va: uint32, frame: nat)
    requires Reaches(t, va, frame)
    ensures Walk(t, va, false) == Some(frame * KB4) && frame * KB4 / KB4 == frame
  {
  }

  /** In reachable states the copies go where they should. */
  lemma HiddenCanShow(t: Tables, terms: nat, term: nat)
    requires KernelMapped(t, terms, terms) && term < terms
    ensures CanShow(t, term)
  {
    BackupIndex(term);
    forall a: uint32
      ensures VirtBackup(term) <= a < VirtBackup(term) + KB4 ==>
                Walk(t, a, false) == Some(PhysBackup(term) / KB4 * KB4 + (a - VirtBackup(term)))
      ensures VIDEO_MEM_START <= a < VIDEO_MEM_START + KB4 ==> Walk(t, a, false) == Some(a)
    {
      KernelReach(t, terms, terms, a, term);
    }
  }

  /** The kernel reaches the video page at its own address. */
  ghost predicate SeesVideo(t: Tables) {
    t.Shape() && Walk(t, VIDEO_MEM_START, false).Some? && FrameOf(t, VIDEO_MEM_START) == VIDEO_MEM_INDEX
  }

  /** And a terminal's screen at its backup address. */
  ghost predicate SeesScreen(t: Tables, term: nat, curr: nat) {
    && t.Shape() && VirtBackup(term) < 0x1_0000_0000
    && Walk(t, VirtBackup(term), false).Some? && FrameOf(t, VirtBackup(term)) == ScreenFrame(term, curr)
  }

  /** There is room for another process, and its parent is in memory; the message reaches its screen. */
  ghost predicate MayExecute(k: Kernel, esp: uint32) {
    && k.Shape() && (|k.stacks[k.exec]| < |k.pids| || AllocPid(k.pids).1 < 1)
    && (k.stacks[k.exec] != [] ==> GetPcb(esp) in k.pcbs)
    && SeesScreen(k.tables, k.exec, k.curr)
  }

  /** The running process can be halted: its PID is marked used, its parent is resident, and the
      video page can be cleared when it is gone. */
  ghost predicate MayHalt(k: Kernel, esp: uint32) {
    && k.Shape() && k.stacks[k.exec] != [] && GetPcb(esp) in k.pcbs
    && var p := k.pcbs[GetPcb(esp)];
      && p.pid <= |k.pids| && k.pids[p.pid - 1]
      && (p.parent != NULL ==> p.parent in k.pcbs && EncodablePde(k.pcbs[p.parent].pde))
      && SeesVideo(Processes.Pop(k, GetPcb(esp)).tables)
  }

  /** What `execute` prints: a message when it returns 0. */
  function MessageIfFull(k: Kernel, outcome: Outcome): Output {
    if outcome == Returned(0) then Print(k.exec, MAX_PROCESSES_MESSAGE) else Nothing
  }

  /** What `halt` prints: it clears the displayed screen when the process has no parent. */
  function ClearOnRestart(k: Kernel, esp: uint32): Output
    requires GetPcb(esp) in k.pcbs
  {
    if k.pcbs[GetPcb(esp)].parent == NULL then Wipe(k.curr) else Nothing
  }

  /** An output, if there is one, on the screen on `frame`. */
  function Reported(d: Display, o: Output, frame: nat): Display
    requires !o.Nothing? ==>
               && o.term < |d.cursors| == |d.attribs| && frame in d.ram
               && d.cursors[o.term].x < NUM_COLS && d.cursors[o.term].y < NUM_ROWS
  {
    if o.Nothing? then d else Emitted(d, o, frame)
  }

  /** The screens after a switch: its message if it is refused, else its page moves. */
  ghost function DisplayAfterSwitch(k: Kernel, d: Display, term: nat): Display
    requires DisplayOk(d, |k.stacks|) && k.curr < |k.stacks| && term < |k.stacks|
  {
    if k.curr == term then d
    else if Refuses(k, term) then Emitted(d, Print(k.curr, NOT_AVAILABLE_MESSAGE), VIDEO_MEM_INDEX)
    else Swapped(d, k.curr, term, |k.stacks|)
  }

  /** Behind the pop there is room for a new shell, or the parent is there. */
  lemma HaltForks(k: Kernel, esp: uint32, status: byte)
    requires MayHalt(k, esp)
    ensures
      var p, popped := k.pcbs[GetPcb(esp)], Processes.Pop(k, GetPcb(esp));
      if p.parent == NULL then
        && |popped.stacks[k.exec]| < |k.stacks[k.exec]| && AllocPid(popped.pids).1 >= 1
        && Processes.Halt(k, esp, status) == Processes.Execute(popped, esp, true)
      else
        var parent := k.pcbs[p.parent];
        Processes.Halt(k, esp, status)
        == (popped.(tables := MapPage4MB(popped.tables, parent.pdeVirtAddr, parent.pde), tssEsp0 := parent.esp0),
            Resumed(parent.context, ReturnValue(p, status)))
  {
    var p, popped := k.pcbs[GetPcb(esp)], Processes.Pop(k, GetPcb(esp));
    if p.parent == NULL {
      assert !popped.pids[p.pid - 1];
      AllocationTakesLeastFree(popped.pids);
    }
  }

  lemma MarkedMayHalt(k: Kernel, esp: uint32)
    requires MayHalt(k, esp)
    ensures
      var k1 := k.(pcbs := k.pcbs[GetPcb(esp) := k.pcbs[GetPcb(esp)].(retval := RETURN_EXCEPTION)]);
      MayHalt(k1, esp) && ClearOnRestart(k1, esp) == ClearOnRestart(k, esp)
  {
  }

  /** Every terminal's newest process can be switched to. */
  ghost predicate TopsReady(stacks: seq<seq<nat>>, pcbs: map<nat, Pcb>) {
    forall t :: 0 <= t < |stacks| && stacks[t] != [] ==>
      stacks[t][|stacks[t]| - 1] in pcbs && EncodablePde(pcbs[stacks[t][|stacks[t]| - 1]].pde)
  }

  /** The terminal on display can be attended to. */
  ghost predicate MayAttend(k: Kernel) {
    k.Shape() && k.TopsPresent() && TopsReady(k.stacks, k.pcbs) && k.stacks[k.exec] != []
  }

  /** The displayed terminal can be switched away from, to terminal `term`. */
  ghost predicate MayComplete(k: Kernel, term: nat) {
    && MayAttend(k) && term < |k.stacks| && term != k.curr && k.stacks[k.curr] != []
    && CanHide(k.tables, k.curr) && CanShow(Hide(k).tables, term) && MayAttend(Show(Hide(k), term))
  }

  ghost predicate MaySwitch(k: Kernel, term: nat) {
    && k.Shape() && k.TopsPresent() && term < |k.stacks| && k.stacks[k.exec] != [] && k.stacks[k.curr] != []
    && (term != k.curr ==> MayComplete(Peek(k), term))
  }

  /** The cursors and colours `terminal_init` sets. */
  method NewTerminals(ram: array<byte>, attribs: seq<byte>) returns (ts: seq<Terminal>)
    ensures |ts| == |attribs| && fresh(ts)
    ensures forall t :: 0 <= t < |ts| ==> ts[t].bytes == ram && ts[t].attrib == attribs[t] && ts[t].x == ts[t].y == 0
    ensures forall t, u :: 0 <= t < u < |ts| ==> ts[t] != ts[u]
  {
    ts := [];
    for i := 0 to |attribs|
      invariant |ts| == i && fresh(ts)
      invariant forall t :: 0 <= t < i ==> ts[t].bytes == ram && ts[t].attrib == attribs[t] && ts[t].x == ts[t].y == 0
      invariant forall t, u :: 0 <= t < u < i ==> ts[t] != ts[u]
    {
      var term := new Terminal(ram, attribs[i]);
      ts := ts + [term];
    }
  }

  /** The page tables of `init_paging`, and the mappings `terminal_init` adds. */
  method BootMaps(firstBase: nat, userBase: nat, backupBase: nat, terms: nat) returns (maps: PageMaps)
    requires InitTables(firstBase, userBase, backupBase).Shape() && 1 <= terms <= TERM_LIMIT
    ensures maps.Valid() && fresh(maps.Repr()) && maps.View() == BootTables(firstBase, userBase, backupBase, terms)
  {
    maps := new PageMaps(firstBase, userBase, backupBase);
    maps.InitTerminals(terms);
  }

  class KernelData {
    const pids: PidTable
    const maps: PageMaps
    /** `terminals[t].child_procs` and `num_procs`. */
    const childProcs: array2<nat>
    const numProcs: array<nat>
    /** The video page and the backup frames. */
    const ram: array<byte>
    /** Cursor and colour of each terminal. */
    const terminals: seq<Terminal>
    var exec: nat
    var curr: nat
    /** The PCBs below the kernel stacks, by address. */
    var pcbs: map<nat, Pcb>
    var tssEsp0: uint32
    /** Number of processes created so far. */
    var next: nat

    /** The buffers of the kernel do not overlap. */
    ghost predicate Separate() {
      var numbers: object, bytes: object := numProcs, ram;
      numbers != bytes && numbers !in maps.Repr() && bytes !in maps.Repr()
    }

    /** Every stack fits its array. */
    ghost predicate StacksFit()
      reads numProcs
    {
      && childProcs.Length0 == numProcs.Length <= TERM_LIMIT && childProcs.Length1 == pids.used.Length
      && forall t :: 0 <= t < numProcs.Length ==> numProcs[t] <= childProcs.Length1
    }

    ghost predicate RamFits() { numProcs.Length <= TERM_LIMIT && ram.Length == (numProcs.Length + 1) * KB4 }

    ghost predicate Valid()
      reads this, numProcs
    {
      && maps.Valid() && Separate() && StacksFit() && RamFits() && 1 <= pids.used.Length <= PID_LIMIT
      && exec < numProcs.Length && curr < numProcs.Length
    }

    /** The terminals are different, print into the screen memory, and have their cursors on the screen. */
    ghost predicate TermsFit()
      reads terminals
    {
      && RamFits() && |terminals| == numProcs.Length
      && (forall t :: 0 <= t < |terminals| ==> Prints(terminals[t]))
      && forall t, u :: 0 <= t < u < |terminals| ==> terminals[t] != terminals[u]
    }

    ghost predicate Prints(term: Terminal)
      reads term
    {
      term.bytes == ram && term.x < NUM_COLS && term.y < NUM_ROWS
    }

    ghost function Stack(t: nat): (s: seq<nat>)
      requires t < childProcs.Length0 == numProcs.Length && numProcs[t] <= childProcs.Length1
      reads childProcs, numProcs
      ensures |s| == numProcs[t] && forall i :: 0 <= i < |s| ==> s[i] == childProcs[t, i]
    {
      seq(numProcs[t], i
          requires 0 <= i < numProcs[t] <= childProcs.Length1 reads childProcs, numProcs => childProcs[t, i])
    }

    ghost function Stacks(): (s: seq<seq<nat>>)
      requires StacksFit()
      reads childProcs, numProcs
      ensures |s| == numProcs.Length && forall t :: 0 <= t < |s| ==> s[t] == Stack(t)
    {
      seq(numProcs.Length, t requires 0 <= t < numProcs.Length && StacksFit() reads childProcs, numProcs => Stack(t))
    }

    ghost function View(): (k: Kernel)
      requires Valid()
      reads this, pids.used, childProcs, numProcs, maps.dir, maps.first, maps.user, maps.backup
      ensures k.Shape() && |k.stacks| == numProcs.Length && |k.pids| == pids.used.Length
      ensures forall t :: 0 <= t < numProcs.Length ==> |k.stacks[t]| == numProcs[t]
    {
      Kernel(pids.View(), exec, curr, Stacks(), pcbs, tssEsp0, maps.View(), next)
    }

    /** `init_paging` and `terminal_init`, in the state in which the first shell is launched. */
    constructor (pidCount: nat, firstBase: nat, userBase: nat, backupBase: nat, ram: array<byte>, ts: seq<Terminal>)
      requires Sizes(pidCount, |ts|) && InitTables(firstBase, userBase, backupBase).Shape()
      requires ram.Length == (|ts| + 1) * KB4
      ensures Valid() && this.ram == ram && terminals == ts
      ensures fresh(pids.used) && fresh(childProcs) && fresh(numProcs) && fresh(maps.dir)
      ensures View() == BootKernel(pidCount, |ts|, BootTables(firstBase, userBase, backupBase, |ts|))
    {
      pids := new PidTable(pidCount);
      var tables := BootMaps(firstBase, userBase, backupBase, |ts|);
      maps := tables;
      childProcs := new nat[|ts|, pidCount]((_, _) => NULL);
      numProcs := new nat[|ts|](_ => 0);
      this.ram, terminals := ram, ts;
      exec, curr, pcbs, tssEsp0, next := 0, 0, map[], MB8, 0;
      new;
      assert Stacks() == seq(|ts|, _ => []);
    }

    // ---- Process stacks ----

    /** Storing a PCB address at the end of the executing terminal's array. */
    method Push(a: nat)
      requires Valid() && numProcs[exec] < childProcs.Length1
      modifies childProcs, numProcs
      ensures Valid() && Stacks() == old(Stacks())[exec := old(Stacks())[exec] + [a]]
    {
      childProcs[exec, numProcs[exec]] := a;
      numProcs[exec] := numProcs[exec] + 1;
      assert Stack(exec) == old(Stacks())[exec] + [a];
      assert forall t :: 0 <= t < numProcs.Length && t != exec ==> Stack(t) == old(Stack(t));
    }

    method PopTop()
      requires Valid() && numProcs[exec] > 0
      modifies childProcs, numProcs
      ensures Valid() && Stacks() == old(Stacks())[exec := old(Stacks())[exec][..old(numProcs[exec]) - 1]]
    {
      numProcs[exec] := numProcs[exec] - 1;
      childProcs[exec, numProcs[exec]] := NULL;
      assert Stack(exec) == old(Stacks())[exec][..numProcs[exec]];
      assert forall t :: 0 <= t < numProcs.Length && t != exec ==> Stack(t) == old(Stack(t));
    }

    // ---- Output ----

    /** The screen pages, by frame. */
    ghost function Pages(): (p: map<nat, Page>)
      requires RamFits()
      reads ram
      ensures FramesPresent(p, numProcs.Length)
    {
      PagesOf(ram[..], numProcs.Length)
    }

    ghost function Cursors(): (c: seq<Cursor>)
      reads terminals
      ensures |c| == |terminals| && forall t :: 0 <= t < |c| ==> c[t] == Cursor(terminals[t].x, terminals[t].y)
    {
      seq(|terminals|, t requires 0 <= t < |terminals| reads terminals => Cursor(terminals[t].x, terminals[t].y))
    }

    ghost function Attribs(): (a: seq<byte>)
      ensures |a| == |terminals| && forall t :: 0 <= t < |a| ==> a[t] == terminals[t].attrib
    {
      seq(|terminals|, t requires 0 <= t < |terminals| => terminals[t].attrib)
    }

    /** What is on all screens. */
    ghost function Shown(): (d: Display)
      requires TermsFit()
      reads ram, terminals
      ensures DisplayOk(d, numProcs.Length)
    {
      Display(Pages(), Cursors(), Attribs())
    }

    /** Printing, rubbing out or clearing with one terminal's cursor. */
    method Paint(term: Terminal, o: Output, va: uint32, ghost frame: nat) returns (ghost s: Screen)
      requires maps.Valid() && RamFits() && Prints(term) && !o.Nothing?
      requires Walk(maps.View(), va, false).Some? && FrameOf(maps.View(), va) == frame
      requires IsScreenFrame(frame, numProcs.Length)
      modifies ram, term
      ensures s == Apply(Screen(old(Pages())[frame], old(term.x), old(term.y)), term.attrib, o)
      ensures Prints(term) && Pages() == old(Pages())[frame := s.page] && term.x == s.x && term.y == s.y
    {
      var pa := maps.Translate(va, false);
      var base := Base(pa.value / KB4);
      s := Apply(term.View(base), term.attrib, o);
      term.Emit(base, o);
      PagesReplaced(old(ram[..]), ram[..], numProcs.Length, frame, s.page);
    }

    /** An output, on the screen that the page tables have at `va`, with its terminal's cursor. */
    method Emit(o: Output, va: uint32, ghost frame: nat)
      requires maps.Valid() && TermsFit() && !o.Nothing? && o.term < |terminals|
      requires Walk(maps.View(), va, false).Some? && FrameOf(maps.View(), va) == frame
      requires IsScreenFrame(frame, numProcs.Length)
      modifies ram, terminals[o.term]
      ensures TermsFit() && Shown() == Emitted(old(Shown()), o, frame)
    {
      ghost var d := Shown();
      ghost var s := Paint(terminals[o.term], o, va, frame);
      assert Cursors() == d.cursors[o.term := Cursor(s.x, s.y)];
    }

    /** Output straight to the video page, which leaves the kernel's data alone. */
    method EmitToVideo(o: Output)
      requires Valid() && TermsFit() && !o.Nothing? && o.term < |terminals| && SeesVideo(maps.View())
      modifies ram, terminals[o.term]
      ensures Valid() && View() == old(View()) && TermsFit() && Shown() == Emitted(old(Shown()), o, VIDEO_MEM_INDEX)
    {
      Emit(o, VIDEO_MEM_START, VIDEO_MEM_INDEX);
    }

    /** Output to the executing terminal, through its backup address. */
    method EmitToBackup(o: Output)
      requires Valid() && TermsFit() && !o.Nothing? && o.term < |terminals| && SeesScreen(maps.View(), exec, curr)
      modifies ram, terminals[o.term]
      ensures Valid() && View() == old(View()) && TermsFit()
      ensures Shown() == Emitted(old(Shown()), o, ScreenFrame(exec, curr))
    {
      Emit(o, VirtBackup(exec), ScreenFrame(exec, curr));
    }

    // ---- System calls and exceptions ----

    /** Building the PCB and, when there is a parent, saving its context. */
    method NewProcess(esp: uint32, pid: Pid) returns (pcb: Pcb)
      requires Valid() && (numProcs[exec] != 0 ==> GetPcb(esp) in pcbs)
      modifies this`pcbs
      ensures pcb == NewPcb(pid, next, if numProcs[exec] == 0 then NULL else GetPcb(esp))
      ensures Valid() && View() == Linked(old(View()), esp)
    {
      pcb := NewPcb(pid, next, NULL);
      if numProcs[exec] != 0 {
        pcb := pcb.(parent := GetPcb(esp));
        pcbs := pcbs[pcb.parent := pcbs[pcb.parent].(context := Context(esp, InExecute(next)))];
      }
    }

    /** Storing the PCB below its kernel stack, which becomes the stack for kernel entries. */
    method Install(pcb: Pcb)
      requires Valid() && numProcs[exec] < pids.used.Length
      modifies childProcs, numProcs, this`pcbs, this`tssEsp0, this`next
      ensures Valid() && View() == Installed(old(View()), pcb)
    {
      pcbs := pcbs[MaskEsp(pcb.esp0) := pcb];
      Push(MaskEsp(pcb.esp0));
      next := next + 1;
      tssEsp0 := pcb.esp0;
    }

    /** Mapping the new process's frame and pushing it on the executing terminal's stack. */
    method Enter(pcb: Pcb)
      requires Valid() && numProcs[exec] < pids.used.Length && EncodablePde(pcb.pde)
      modifies maps.dir, childProcs, numProcs, this`pcbs, this`tssEsp0, this`next
      ensures Valid() && View() == Entering(old(View()), pcb)
    {
      maps.MapPage4MB(pcb.pdeVirtAddr, pcb.pde);
      Install(pcb);
    }

    /** `execute` from the PID on. */
    method Spawn(esp: uint32, pid: Pid)
      requires Valid() && numProcs[exec] < pids.used.Length && pid <= pids.used.Length && pids.View()[pid - 1]
      requires numProcs[exec] != 0 ==> GetPcb(esp) in pcbs
      modifies maps.dir, childProcs, numProcs, this`pcbs, this`tssEsp0, this`next
      ensures Valid() && View() == Processes.Spawn(old(View()), esp, pid)
    {
      var pcb := NewProcess(esp, pid);
      Enter(pcb);
      assert pids.View()[pid - 1 := true] == pids.View();
    }

    /** `execute` behind its checks on the command. */
    method Execute(esp: uint32, found: bool) returns (outcome: Outcome)
      requires Valid() && (numProcs[exec] < childProcs.Length1 || AllocPid(pids.View()).1 < 1)
      requires numProcs[exec] != 0 ==> GetPcb(esp) in pcbs
      modifies pids.used, maps.dir, childProcs, numProcs, this`pcbs, this`tssEsp0, this`next
      ensures Valid() && (View(), outcome) == Processes.Execute(old(View()), esp, found)
    {
      if !found {
        return Returned(-1);
      }
      var pid := pids.GetAvailablePid();
      if pid < 1 || pid > pids.used.Length {
        return Returned(0);
      }
      outcome := Entered(next);
      Spawn(esp, pid);
    }

    /** It leaves the screens alone. */
    method ExecuteQuietly(esp: uint32, found: bool) returns (outcome: Outcome)
      requires Valid() && TermsFit() && (numProcs[exec] < childProcs.Length1 || AllocPid(pids.View()).1 < 1)
      requires numProcs[exec] != 0 ==> GetPcb(esp) in pcbs
      modifies pids.used, maps.dir, childProcs, numProcs, this`pcbs, this`tssEsp0, this`next
      ensures Valid() && (View(), outcome) == Processes.Execute(old(View()), esp, found)
      ensures TermsFit() && Shown() == old(Shown())
    {
      outcome := Execute(esp, found);
    }

    /** `execute` behind its checks, with the message it prints when every PID is used. */
    method ExecuteOrReport(esp: uint32, found: bool) returns (outcome: Outcome)
      requires Valid() && TermsFit() && MayExecute(View(), esp)
      modifies pids.used, maps.dir, childProcs, numProcs, ram, terminals[exec], this`pcbs, this`tssEsp0, this`next
      ensures Valid() && (View(), outcome) == Processes.Execute(old(View()), esp, found)
      ensures TermsFit()
      ensures Shown() == Reported(old(Shown()), MessageIfFull(old(View()), outcome), ScreenFrame(exec, curr))
    {
      outcome := ExecuteQuietly(esp, found);
      if outcome == Returned(0) {
        EmitToBackup(Print(exec, MAX_PROCESSES_MESSAGE));
      }
    }

    /** `halt` up to the fork on the parent. */
    method Pop(a: nat)
      requires Valid() && a in pcbs && numProcs[exec] > 0
      modifies pids.used, maps.user, childProcs, numProcs
      ensures Valid() && View() == Processes.Pop(old(View()), a)
    {
      ghost var popped := Processes.Pop(View(), a);
      var status := pids.Free(pcbs[a].pid);
      if pcbs[a].vidmemVirtAddr != 0 {
        maps.FreeUserVideoMem(pcbs[a].vidmemVirtAddr);
      }
      PopTop();
      assert Stacks() == popped.stacks;
    }

    method PopQuietly(a: nat)
      requires Valid() && TermsFit() && a in pcbs && numProcs[exec] > 0
      modifies pids.used, maps.user, childProcs, numProcs
      ensures Valid() && View() == Processes.Pop(old(View()), a)
      ensures TermsFit() && Shown() == old(Shown())
    {
      Pop(a);
    }

    /** The processor goes back to another process: its frame and its kernel stack. */
    method Restore(pcb: Pcb)
      requires Valid() && TermsFit() && EncodablePde(pcb.pde)
      modifies maps.dir, this`tssEsp0
      ensures TermsFit() && Shown() == old(Shown())
      ensures Valid()
      ensures
        var k := old(View());
        View() == k.(tables := MapPage4MB(k.tables, pcb.pdeVirtAddr, pcb.pde), tssEsp0 := pcb.esp0)
    {
      maps.MapPage4MB(pcb.pdeVirtAddr, pcb.pde);
      tssEsp0 := pcb.esp0;
    }

    /** A terminal's first process is replaced: clear the screen on display, start a shell. */
    method Restart(esp: uint32) returns (outcome: Outcome)
      requires Valid() && TermsFit() && SeesVideo(maps.View()) && numProcs[exec] < childProcs.Length1
      requires numProcs[exec] != 0 ==> GetPcb(esp) in pcbs
      modifies pids.used, maps.dir, childProcs, numProcs, ram, terminals[curr], this`pcbs, this`tssEsp0, this`next
      ensures Valid() && (View(), outcome) == Processes.Execute(old(View()), esp, true)
      ensures TermsFit() && Shown() == Emitted(old(Shown()), Wipe(curr), VIDEO_MEM_INDEX)
    {
      EmitToVideo(Wipe(curr));
      outcome := ExecuteQuietly(esp, true);
    }

    /** `halt`. Its `execute` of the shell enters the new process and does not come back. */
    method Halt(esp: uint32, status: byte) returns (outcome: Outcome)
      requires Valid() && TermsFit() && MayHalt(View(), esp)
      modifies pids.used, maps.dir, maps.user, childProcs, numProcs, ram, terminals[curr]
      modifies this`pcbs, this`tssEsp0, this`next
      ensures Valid() && (View(), outcome) == Processes.Halt(old(View()), esp, status)
      ensures TermsFit()
      ensures Shown() == Reported(old(Shown()), ClearOnRestart(old(View()), esp), VIDEO_MEM_INDEX)
    {
      HaltForks(View(), esp, status);
      var pcb := pcbs[GetPcb(esp)];
      PopQuietly(GetPcb(esp));
      if pcb.parent == NULL {
        outcome := Restart(esp);
      } else {
        var parent := pcbs[pcb.parent];
        Restore(parent);
        outcome := Resumed(parent.context, ReturnValue(pcb, status));
      }
    }

    method Mark(a: nat)
      requires Valid() && TermsFit() && a in pcbs
      modifies this`pcbs
      ensures Valid() && View() == old(View()).(pcbs := old(pcbs)[a := old(pcbs)[a].(retval := RETURN_EXCEPTION)])
      ensures TermsFit() && Shown() == old(Shown())
    {
      pcbs := pcbs[a := pcbs[a].(retval := RETURN_EXCEPTION)];
    }

    /** An exception handler. */
    method Fault(esp: uint32) returns (outcome: Outcome)
      requires Valid() && TermsFit() && MayHalt(View(), esp)
      modifies pids.used, maps.dir, maps.user, childProcs, numProcs, ram, terminals[curr]
      modifies this`pcbs, this`tssEsp0, this`next
      ensures Valid() && (View(), outcome) == Processes.Fault(old(View()), esp)
      ensures TermsFit()
      ensures Shown() == Reported(old(Shown()), ClearOnRestart(old(View()), esp), VIDEO_MEM_INDEX)
    {
      MarkedMayHalt(View(), esp);
      Mark(GetPcb(esp));
      outcome := Halt(esp, 0);
    }

    /** `context_switch`. */
    method ContextSwitch(esp: uint32, n: nat) returns (outcome: Outcome)
      requires Valid() && View().TopsPresent() && TopsReady(Stacks(), pcbs) && GetPcb(esp) in pcbs
      requires n < numProcs.Length && numProcs[n] > 0
      modifies maps.dir, this`exec, this`pcbs, this`tssEsp0
      ensures Valid() && old(View()).Top(n) in old(pcbs)
      ensures (View(), outcome) == Processes.ContextSwitch(old(View()), esp, n)
    {
      var oldPcb := GetPcb(esp);
      var newPcb := childProcs[n, numProcs[n] - 1];
      assert newPcb == Stacks()[n][numProcs[n] - 1];
      maps.MapPage4MB(pcbs[newPcb].pdeVirtAddr, pcbs[newPcb].pde);
      exec := n;
      tssEsp0 := pcbs[newPcb].esp0;
      pcbs := pcbs[oldPcb := pcbs[oldPcb].(context := Context(esp, InContextSwitch))];
      outcome := Resumed(pcbs[newPcb].context, 0);
    }

    /** `pit_interrupt_handler`. */
    method Tick(esp: uint32) returns (outcome: Outcome)
      requires Valid() && View().TopsPresent() && TopsReady(Stacks(), pcbs) && GetPcb(esp) in pcbs
      modifies maps.dir, this`exec, this`pcbs, this`tssEsp0
      ensures Valid() && (View(), outcome) == Processes.Tick(old(View()), esp)
    {
      var n := if exec + 1 >= numProcs.Length then 0 else exec + 1;
      ghost var d := 1;
      while n != exec
        invariant 1 <= d <= numProcs.Length && n == After(exec, d, numProcs.Length)
        invariant NextTerm(Stacks(), exec, 1) == NextTerm(Stacks(), exec, d)
        decreases numProcs.Length - d
      {
        if numProcs[n] > 0 {
          outcome := ContextSwitch(esp, n);
          return;
        }
        n := if n + 1 >= numProcs.Length then 0 else n + 1;
        d := d + 1;
      }
      return Continued;
    }

    method TickQuietly(esp: uint32) returns (outcome: Outcome)
      requires Valid() && TermsFit() && View().TopsPresent() && TopsReady(Stacks(), pcbs) && GetPcb(esp) in pcbs
      modifies maps.dir, this`exec, this`pcbs, this`tssEsp0
      ensures Valid() && (View(), outcome) == Processes.Tick(old(View()), esp)
      ensures TermsFit() && Shown() == old(Shown())
    {
      outcome := Tick(esp);
    }

    /** `vidmap`. */
    method Vidmap(esp: uint32, screenStart: uint32) returns (outcome: Outcome)
      requires Valid() && GetPcb(esp) in pcbs
      modifies maps.dir, maps.user, this`pcbs
      ensures Valid() && (View(), outcome) == Processes.Vidmap(old(View()), esp, screenStart)
    {
      if !InUserWindow(screenStart) {
        return Returned(-1);
      }
      maps.MapUserVideoMem(USER_VIDEO_MEM_ADDR, ScreenPte(true, VIDEO_MEM_START));
      var a := GetPcb(esp);
      pcbs := pcbs[a := pcbs[a].(vidmemVirtAddr := USER_VIDEO_MEM_ADDR)];
      return Returned(0);
    }

    method VidmapQuietly(esp: uint32, screenStart: uint32) returns (outcome: Outcome)
      requires Valid() && TermsFit() && GetPcb(esp) in pcbs
      modifies maps.dir, maps.user, this`pcbs
      ensures Valid() && (View(), outcome) == Processes.Vidmap(old(View()), esp, screenStart)
      ensures TermsFit() && Shown() == old(Shown())
    {
      outcome := Vidmap(esp, screenStart);
    }

    // ---- Switching terminals ----

    /** `memcpy` of one screen page to another, through the page tables. */
    method CopyScreen(dst: uint32, src: uint32, ghost to: nat, ghost from: nat)
      requires Valid() && dst % KB4 == src % KB4 == 0
      requires Reaches(maps.View(), dst, to) && Reaches(maps.View(), src, from)
      requires IsScreenFrame(to, numProcs.Length) && IsScreenFrame(from, numProcs.Length)
      modifies ram
      ensures Pages() == old(Pages())[to := old(Pages())[from]]
    {
      ReachesBase(maps.View(), dst, to);
      ReachesBase(maps.View(), src, from);
      var d := maps.Translate(dst, false);
      var s := maps.Translate(src, false);
      CopyFrame(ram, numProcs.Length, d.value / KB4, s.value / KB4);
    }

    /** Remapping the page the newest process of the displayed terminal sees at 132 MB. */
    method RemapUserVideo(phys: uint32)
      requires Valid() && numProcs[curr] > 0 && childProcs[curr, numProcs[curr] - 1] in pcbs
      modifies maps.dir, maps.user
      ensures View() == old(View()).(tables := Processes.RemapUserVideo(old(View()), phys))
    {
      var vidmem := pcbs[childProcs[curr, numProcs[curr] - 1]].vidmemVirtAddr;
      if vidmem != 0 {
        maps.MapUserVideoMem(vidmem, ScreenPte(true, phys));
      }
    }

    /** The displayed terminal's page goes to its own frame. */
    method BackUp()
      requires Valid() && CanHide(maps.View(), curr)
      modifies maps.backup, maps.dir, ram
      ensures View() == old(View()).(tables := MapBackupVidmem(old(maps.View()), VirtBackup(curr), PhysBackup(curr)))
      ensures Pages() == Saved(old(Pages()), curr, numProcs.Length)
    {
      BackupIndex(curr);
      maps.MapBackupVidmem(VirtBackup(curr), PhysBackup(curr));
      CopyScreen(VirtBackup(curr), VIDEO_MEM_START, PhysBackup(curr) / KB4, VIDEO_MEM_INDEX);
    }

    /** The switch up to the change of `curr_terminal`, behind the PID check. */
    method HideDisplayed()
      requires Valid() && CanHide(maps.View(), curr)
      requires numProcs[curr] > 0 && childProcs[curr, numProcs[curr] - 1] in pcbs
      modifies maps.backup, maps.dir, maps.user, ram
      ensures View() == Hide(old(View()))
      ensures Pages() == Saved(old(Pages()), curr, numProcs.Length)
    {
      var phys: uint32 := PhysBackup(curr);
      BackUp();
      RemapUserVideo(phys);
    }

    /** The new terminal's screen comes onto the video page. */
    method BringIn()
      requires Valid() && CanShow(maps.View(), curr)
      modifies maps.backup, maps.dir, ram
      ensures View() == old(View()).(tables := MapBackupVidmem(old(maps.View()), VirtBackup(curr), VIDEO_MEM_START))
      ensures Pages() == Restored(old(Pages()), curr, numProcs.Length)
    {
      BackupIndex(curr);
      CopyScreen(VIDEO_MEM_START, VirtBackup(curr), VIDEO_MEM_INDEX, PhysBackup(curr) / KB4);
      maps.MapBackupVidmem(VirtBackup(curr), VIDEO_MEM_START);
    }

    /** The switch from the change of `curr_terminal` to the cursor update. */
    method ShowTerminal(term: nat)
      requires Valid() && term < numProcs.Length && CanShow(maps.View(), term)
      modifies this`curr, maps.backup, maps.dir, ram
      ensures Valid() && View() == Show(old(View()), term)
      ensures Pages() == Restored(old(Pages()), term, numProcs.Length)
    {
      curr := term;
      BringIn();
    }

    /** Starting a shell on the displayed terminal. */
    method Launch(esp: uint32) returns (outcome: Outcome)
      requires Valid() && numProcs[curr] == 0 && numProcs[exec] > 0 && childProcs[exec, numProcs[exec] - 1] in pcbs
      modifies pids.used, maps.dir, childProcs, numProcs, this`exec, this`pcbs, this`tssEsp0, this`next
      ensures Valid() && (View(), outcome) == Processes.Launch(old(View()), esp)
    {
      var a := childProcs[exec, numProcs[exec] - 1];
      pcbs := pcbs[a := pcbs[a].(context := Context(esp, InTerminalSwitch))];
      exec := curr;
      outcome := Execute(esp, true);
    }

    /** The PID check of a switch. */
    method Refused(term: nat) returns (refused: bool)
      requires Valid() && TermsFit() && term < numProcs.Length
      modifies pids.used
      ensures TermsFit() && Shown() == old(Shown())
      ensures refused == Refuses(old(View()), term) && View() == if refused then old(View()) else Peek(old(View()))
    {
      var pid := pids.GetAvailablePid();
      if pid < 1 && numProcs[term] == 0 {
        return true;
      }
      var status := pids.Free(Wrap32(pid));
      return false;
    }

    /** The copies and mappings of a switch. */
    method TakeOver(term: nat)
      requires Valid() && numProcs[curr] > 0 && term < numProcs.Length && term != curr
      requires View().Top(curr) in pcbs && CanHide(maps.View(), curr) && CanShow(Hide(View()).tables, term)
      modifies this`curr, maps.dir, maps.user, maps.backup, ram
      ensures Valid() && View() == Show(Hide(old(View())), term)
      ensures Pages() == Restored(Saved(old(Pages()), old(curr), numProcs.Length), term, numProcs.Length)
    {
      HideDisplayed();
      ShowTerminal(term);
    }

    /** They move whole pages and leave the cursors alone. */
    method SwapScreens(term: nat)
      requires Valid() && TermsFit() && numProcs[curr] > 0 && term < numProcs.Length && term != curr
      requires View().Top(curr) in pcbs && CanHide(maps.View(), curr) && CanShow(Hide(View()).tables, term)
      modifies this`curr, maps.dir, maps.user, maps.backup, ram
      ensures Valid() && View() == Show(Hide(old(View())), term)
      ensures TermsFit() && Shown() == Swapped(old(Shown()), old(curr), term, numProcs.Length)
    {
      ghost var c := Cursors();
      TakeOver(term);
      assert Cursors() == c;
    }

    /** A shell for a terminal that has none, or the screen page of its newest process. */
    method Attend(esp: uint32) returns (outcome: Outcome)
      requires Valid() && MayAttend(View())
      modifies pids.used, maps.dir, maps.user, childProcs, numProcs, this`exec, this`pcbs, this`tssEsp0, this`next
      ensures Valid() && (View(), outcome) == Processes.Attend(old(View()), esp)
    {
      if numProcs[curr] == 0 {
        assert childProcs[exec, numProcs[exec] - 1] == Stacks()[exec][numProcs[exec] - 1];
        outcome := Launch(esp);
      } else {
        assert childProcs[curr, numProcs[curr] - 1] == Stacks()[curr][numProcs[curr] - 1];
        RemapUserVideo(VIDEO_MEM_START);
        outcome := Continued;
      }
    }

    method AttendQuietly(esp: uint32) returns (outcome: Outcome)
      requires Valid() && TermsFit() && MayAttend(View())
      modifies pids.used, maps.dir, maps.user, childProcs, numProcs, this`exec, this`pcbs, this`tssEsp0, this`next
      ensures Valid() && (View(), outcome) == Processes.Attend(old(View()), esp)
      ensures TermsFit() && Shown() == old(Shown())
    {
      outcome := Attend(esp);
    }

    /** A switch behind the PID check. */
    method Complete(esp: uint32, term: nat) returns (outcome: Outcome)
      requires Valid() && TermsFit() && MayComplete(View(), term)
      modifies pids.used, maps.dir, maps.user, maps.backup, childProcs, numProcs, ram, this
      ensures Valid() && (View(), outcome) == Processes.Complete(old(View()), esp, term)
      ensures TermsFit() && Shown() == Swapped(old(Shown()), old(curr), term, numProcs.Length)
    {
      SwapScreens(term);
      outcome := AttendQuietly(esp);
    }

    /** A switch to another terminal: refused with a message, or completed. */
    method SwitchAway(esp: uint32, term: nat) returns (outcome: Outcome)
      requires Valid() && TermsFit() && MaySwitch(View(), term) && SeesVideo(maps.View()) && term != curr
      modifies pids.used, maps.dir, maps.user, maps.backup, childProcs, numProcs, ram, terminals[curr], this
      ensures Valid() && (View(), outcome) == Processes.Switch(old(View()), esp, term)
      ensures TermsFit() && Shown() == DisplayAfterSwitch(old(View()), old(Shown()), term)
    {
      var refused := Refused(term);
      if refused {
        EmitToVideo(Print(curr, NOT_AVAILABLE_MESSAGE));
        return Continued;
      }
      outcome := Complete(esp, term);
    }

    /** `switch_active_terminal`. */
    method Switch(esp: uint32, term: nat) returns (outcome: Outcome)
      requires Valid() && TermsFit() && MaySwitch(View(), term) && SeesVideo(maps.View())
      modifies pids.used, maps.dir, maps.user, maps.backup, childProcs, numProcs, ram, terminals[curr], this
      ensures Valid() && (View(), outcome) == Processes.Switch(old(View()), esp, term)
      ensures TermsFit() && Shown() == DisplayAfterSwitch(old(View()), old(Shown()), term)
    {
      if curr == term {
        return Continued;
      }
      outcome := SwitchAway(esp, term);
    }

    // ---- The steps from reachable states ----

    ghost function MachineView(): (m: Machine)
      requires Valid() && TermsFit()
      reads this, pids.used, childProcs, numProcs, ram, terminals, maps.dir, maps.first, maps.user, maps.backup
      ensures DisplayOk(m.d, |m.k.stacks|)
    {
      Machine(View(), Shown())
    }

    /** A byte a process writes to its terminal. */
    method WriteByte(c: byte)
      requires Valid() && TermsFit() && Inv(View())
      modifies ram, terminals[exec]
      ensures Valid() && TermsFit() && MachineView() == MachineStep(old(MachineView()), MachineEvent.WriteByte(c))
    {
      OutputReaches(MachineView(), MachineEvent.WriteByte(c));
      EmitToBackup(Print(exec, [c]));
    }

    /** A byte the keyboard echoes. */
    method EchoByte(c: byte)
      requires Valid() && TermsFit() && Inv(View())
      modifies ram, terminals[curr]
      ensures Valid() && TermsFit() && MachineView() == MachineStep(old(MachineView()), MachineEvent.EchoByte(c))
    {
      OutputReaches(MachineView(), MachineEvent.EchoByte(c));
      EmitToVideo(Print(curr, [c]));
    }

    /** A character the keyboard rubs out. */
    method RubOut()
      requires Valid() && TermsFit() && Inv(View())
      modifies ram, terminals[curr]
      ensures Valid() && TermsFit() && MachineView() == MachineStep(old(MachineView()), MachineEvent.RubOut)
    {
      OutputReaches(MachineView(), MachineEvent.RubOut);
      EmitToVideo(Rub(curr));
    }

    method ExecuteCall(esp: uint32, found: bool) returns (outcome: Outcome)
      requires Valid() && TermsFit() && Inv(View()) && OnStack(View(), esp)
      modifies pids.used, maps.dir, childProcs, numProcs, ram, terminals[exec], this`pcbs, this`tssEsp0, this`next
      ensures Valid() && TermsFit()
      ensures Stepped(old(MachineView()), Event.ExecuteCall(esp, found), MachineView(), outcome)
    {
      ghost var m := MachineView();
      ExecuteReady(m.k, esp);
      ExecuteShows(m, esp, found);
      outcome := ExecuteOrReport(esp, found);
      StepTaken(m, Event.ExecuteCall(esp, found), MachineView(), outcome);
    }

    method HaltCall(esp: uint32, status: byte) returns (outcome: Outcome)
      requires Valid() && TermsFit() && Inv(View()) && OnStack(View(), esp)
      modifies pids.used, maps.dir, maps.user, childProcs, numProcs, ram, terminals[curr]
      modifies this`pcbs, this`tssEsp0, this`next
      ensures Valid() && TermsFit()
      ensures Stepped(old(MachineView()), Event.HaltCall(esp, status), MachineView(), outcome)
    {
      ghost var m := MachineView();
      HaltReady(m.k, esp);
      ClearShows(m, Event.HaltCall(esp, status));
      outcome := Halt(esp, status);
      StepTaken(m, Event.HaltCall(esp, status), MachineView(), outcome);
    }

    method Exception(esp: uint32) returns (outcome: Outcome)
      requires Valid() && TermsFit() && Inv(View()) && OnStack(View(), esp)
      modifies pids.used, maps.dir, maps.user, childProcs, numProcs, ram, terminals[curr]
      modifies this`pcbs, this`tssEsp0, this`next
      ensures Valid() && TermsFit()
      ensures Stepped(old(MachineView()), Event.Exception(esp), MachineView(), outcome)
    {
      ghost var m := MachineView();
      HaltReady(m.k, esp);
      ClearShows(m, Event.Exception(esp));
      outcome := Fault(esp);
      StepTaken(m, Event.Exception(esp), MachineView(), outcome);
    }

    method Timer(esp: uint32) returns (outcome: Outcome)
      requires Valid() && TermsFit() && Inv(View()) && OnStack(View(), esp)
      modifies maps.dir, this`exec, this`pcbs, this`tssEsp0
      ensures Valid() && TermsFit()
      ensures Stepped(old(MachineView()), Event.Timer(esp), MachineView(), outcome)
    {
      ghost var m := MachineView();
      HaltReady(m.k, esp);
      AllTopsReady(m.k);
      TickShows(m, esp);
      outcome := TickQuietly(esp);
      StepTaken(m, Event.Timer(esp), MachineView(), outcome);
    }

    method SwitchKey(esp: uint32, term: nat) returns (outcome: Outcome)
      requires Valid() && TermsFit() && Inv(View()) && OnStack(View(), esp) && term < numProcs.Length
      modifies this, pids.used, childProcs, numProcs, maps.dir, maps.user, maps.backup, ram, terminals[curr]
      ensures Valid() && TermsFit()
      ensures Stepped(old(MachineView()), Event.SwitchKey(esp, term), MachineView(), outcome)
    {
      ghost var m := MachineView();
      SwitchReady(m.k, term);
      SwitchIsStep(m.k, esp, term);
      SwitchedDisplay(m, esp, term);
      outcome := Switch(esp, term);
      StepTaken(m, Event.SwitchKey(esp, term), MachineView(), outcome);
    }

    method VidmapCall(esp: uint32, screenStart: uint32) returns (outcome: Outcome)
      requires Valid() && TermsFit() && Inv(View()) && OnStack(View(), esp)
      modifies maps.dir, maps.user, this`pcbs
      ensures Valid() && TermsFit()
      ensures Stepped(old(MachineView()), Event.VidmapCall(esp, screenStart), MachineView(), outcome)
    {
      ghost var m := MachineView();
      HaltReady(m.k, esp);
      VidmapShows(m, esp, screenStart);
      outcome := VidmapQuietly(esp, screenStart);
      StepTaken(m, Event.VidmapCall(esp, screenStart), MachineView(), outcome);
    }
  }

  // ---- A step of the kernel and its output are a step of the machine ----

  /** The kernel event `e` takes the machine from `m` to `m'`, and the processor goes on at `outcome`. */
  ghost predicate Stepped(m: Machine, e: Event, m': Machine, outcome: Outcome)
    requires Ok(m) && Enabled(m.k, e)
  {
    m' == MachineStep(m, KernelEvent(e)) && outcome == Step(m.k, e).1
  }

  lemma StepTaken(m: Machine, e: Event, m': Machine, outcome: Outcome)
    requires Ok(m) && Enabled(m.k, e)
    requires (m'.k, outcome) == Step(m.k, e) && m'.d == DisplayAfter(m, KernelEvent(e))
    ensures Stepped(m, e, m', outcome)
  {
  }

  lemma ExecuteShows(m: Machine, esp: uint32, found: bool)
    requires Ok(m) && OnStack(m.k, esp)
    requires
      MessageIfFull(m.k, Processes.Execute(m.k, esp, found).1)
      == OutputOf(m.k, KernelEvent(Event.ExecuteCall(esp, found)))
    ensures Step(m.k, Event.ExecuteCall(esp, found)) == Processes.Execute(m.k, esp, found)
    ensures
      DisplayAfter(m, KernelEvent(Event.ExecuteCall(esp, found)))
      == Reported(m.d, MessageIfFull(m.k, Processes.Execute(m.k, esp, found).1), ScreenFrame(m.k.exec, m.k.curr))
  {
    var e := KernelEvent(Event.ExecuteCall(esp, found));
    if !OutputOf(m.k, e).Nothing? {
      OutputReaches(m, e);
    }
  }

  /** What `halt` and an exception print. */
  lemma ClearShows(m: Machine, e: Event)
    requires Ok(m) && Enabled(m.k, e) && (e.HaltCall? || e.Exception?)
    requires GetPcb(e.esp) in m.k.pcbs && ClearOnRestart(m.k, e.esp) == OutputOf(m.k, KernelEvent(e))
    ensures DisplayAfter(m, KernelEvent(e)) == Reported(m.d, ClearOnRestart(m.k, e.esp), VIDEO_MEM_INDEX)
  {
    if !OutputOf(m.k, KernelEvent(e)).Nothing? {
      OutputReaches(m, KernelEvent(e));
    }
  }

  lemma TickShows(m: Machine, esp: uint32)
    requires Ok(m) && OnStack(m.k, esp) && GetPcb(esp) in m.k.pcbs && m.k.TopsPresent()
    ensures Step(m.k, Event.Timer(esp)) == Processes.Tick(m.k, esp)
    ensures DisplayAfter(m, KernelEvent(Event.Timer(esp))) == m.d
  {
  }

  lemma VidmapShows(m: Machine, esp: uint32, screenStart: uint32)
    requires Ok(m) && OnStack(m.k, esp) && GetPcb(esp) in m.k.pcbs
    ensures Step(m.k, Event.VidmapCall(esp, screenStart)) == Processes.Vidmap(m.k, esp, screenStart)
    ensures DisplayAfter(m, KernelEvent(Event.VidmapCall(esp, screenStart))) == m.d
  {
  }

  lemma SwitchIsStep(k: Kernel, esp: uint32, term: nat)
    requires Inv(k) && OnStack(k, esp) && term < |k.stacks| && MaySwitch(k, term)
    ensures Step(k, Event.SwitchKey(esp, term)) == Processes.Switch(k, esp, term)
  {
  }

  /** The screens a switch leaves are those of the model. */
  lemma SwitchedDisplay(m: Machine, esp: uint32, term: nat)
    requires Ok(m) && CanHappen(m, KernelEvent(Event.SwitchKey(esp, term)))
    ensures DisplayAfter(m, KernelEvent(Event.SwitchKey(esp, term))) == DisplayAfterSwitch(m.k, m.d, term)
  {
    if m.k.curr != term {
      if Refuses(m.k, term) {
        OutputReaches(m, KernelEvent(Event.SwitchKey(esp, term)));
      } else {
        SwitchPagesMove(m.k, m.d.ram, term);
        BackupIndex(m.k.curr);
        BackupIndex(term);
      }
    }
  }

  /** Boot, up to the first shell. */
  method Start(pidCount: nat, attribs: seq<byte>, firstBase: nat, userBase: nat, backupBase: nat, ram: array<byte>)
    returns (data: KernelData)
    requires Sizes(pidCount, |attribs|) && InitTables(firstBase, userBase, backupBase).Shape()
    requires ram.Length == (|attribs| + 1) * KB4
    ensures data.Valid() && data.TermsFit() && data.ram == ram
    ensures data.View() == Booted(pidCount, |attribs|, BootTables(firstBase, userBase, backupBase, |attribs|))
    ensures data.Shown().attribs == attribs && data.Shown().cursors == seq(|attribs|, _ => Cursor(0, 0))
  {
    var terminals := NewTerminals(ram, attribs);
    data := new KernelData(pidCount, firstBase, userBase, backupBase, ram, terminals);
    assert data.Shown().attribs == attribs && data.Shown().cursors == seq(|attribs|, _ => Cursor(0, 0));
    var outcome := data.ExecuteQuietly(0, true);
  }

  /** Booting in place leads to a reachable state. */
  lemma StartedInv(pidCount: nat, terms: nat, firstBase: nat, userBase: nat, backupBase: nat)
    requires Sizes(pidCount, terms) && InitTables(firstBase, userBase, backupBase).Shape()
    ensures Inv(Booted(pidCount, terms, BootTables(firstBase, userBase, backupBase, terms)))
  {
    BootTablesMapped(firstBase, userBase, backupBase, terms);
    BootEstablishesInv(pidCount, terms, BootTables(firstBase, userBase, backupBase, terms));
  }

  // ---- In reachable states the code's own requirements are met ----

  lemma ExecuteReady(k: Kernel, esp: uint32)
    requires Inv(k) && OnStack(k, esp)
    ensures MayExecute(k, esp)
    ensures forall found ::
              MessageIfFull(k, Processes.Execute(k, esp, found).1)
              == OutputOf(k, KernelEvent(Event.ExecuteCall(esp, found)))
  {
    HaltReady(k, esp);
    PushInBounds(k, k.exec);
    ScreenFrames(k.tables, |k.stacks|, k.curr, k.exec);
  }

  lemma HaltReady(k: Kernel, esp: uint32)
    requires Inv(k) && OnStack(k, esp)
    ensures MayHalt(k, esp)
    ensures ClearOnRestart(k, esp) == OutputOf(k, KernelEvent(Event.Exception(esp)))
    ensures forall status :: ClearOnRestart(k, esp) == OutputOf(k, KernelEvent(Event.HaltCall(esp, status)))
  {
    var p := RunningPcb(k, esp);
    PopSlots(k);
    ScreenFrames(Processes.Pop(k, GetPcb(esp)).tables, |k.stacks|, k.curr, k.curr);
  }

  lemma AllTopsReady(k: Kernel)
    requires StacksOk(k)
    ensures k.TopsPresent() && TopsReady(k.stacks, k.pcbs)
  {
    forall t | 0 <= t < |k.stacks| && k.stacks[t] != []
      ensures k.stacks[t][|k.stacks[t]| - 1] in k.pcbs && EncodablePde(k.pcbs[k.stacks[t][|k.stacks[t]| - 1]].pde)
    {
      assert Slot(k, t, |k.stacks[t]| - 1);
      assert Resident(k, k.Top(t));
    }
  }

  lemma SwitchReady(k: Kernel, term: nat)
    requires Inv(k) && term < |k.stacks|
    ensures MaySwitch(k, term) && SeesVideo(k.tables)
  {
    ScreenFrames(k.tables, |k.stacks|, k.curr, k.curr);
    AllTopsReady(k);
    var pid, terms := Runner(k).pid, |k.stacks|;
    PeekLeavesTable(k.pids);
    BackupIndex(k.curr);
    HideKeeps(k.tables, terms, k.curr, pid);
    HiddenCanShow(MapBackupVidmem(k.tables, VirtBackup(k.curr), PhysBackup(k.curr)), terms, k.curr);
    HideOk(k, pid);
    HiddenCanShow(Hide(k).tables, terms, term);
    ShownMayAttend(k, Hide(k), term);
  }

  lemma ShownMayAttend(k: Kernel, hidden: Kernel, term: nat)
    requires MayAttend(k) && hidden == k.(tables := hidden.tables) && hidden.tables.Shape() && term < |k.stacks|
    ensures MayAttend(Show(hidden, term))
  {
    var shown := Show(hidden, term);
    assert shown.stacks == k.stacks && shown.pcbs == k.pcbs;
  }
}
