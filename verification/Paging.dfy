/** The page directory, its three page tables, and the 32-bit page walk over them
    (src/paging.c, include/paging.h; Intel SDM volume 3A, section 4.3). */
module Paging {
  import opened Layout

  const PAGE_COUNT := 1024

  /** A directory entry: `base` counts 4 MB frames when `large`, 4 KB frames otherwise. */
  datatype Pde = Pde(present: bool, readWrite: bool, user: bool, large: bool, base: nat)

  datatype Pte = Pte(present: bool, readWrite: bool, user: bool, base: nat)

  function Bit(b: bool, weight: nat): nat { if b then weight else 0 }

  predicate EncodablePde(e: Pde) { e.base < (if e.large then 0x400 else 0x10_0000) }

  /** The packed layout of `pde_4M_t` and `pde_4K_t`. */
  function EncodePde(e: Pde): uint32
    requires EncodablePde(e)
  {
    Bit(e.present, 1) + Bit(e.readWrite, 2) + Bit(e.user, 4) + Bit(e.large, 0x80)
    + e.base * (if e.large then MB4 else KB4)
  }

  /** The packed layout of `pte_t`. */
  function EncodePte(e: Pte): uint32
    requires e.base < 0x10_0000
  {
    Bit(e.present, 1) + Bit(e.readWrite, 2) + Bit(e.user, 4) + e.base * KB4
  }

  /** The fields the processor reads from a directory word. */
  function DecodePde(w: uint32): Pde {
    var large := w / 0x80 % 2 == 1;
    Pde(w % 2 == 1, w / 2 % 2 == 1, w / 4 % 2 == 1, large, if large then w / MB4 else w / KB4)
  }

  function DecodePte(w: uint32): Pte {
    Pte(w % 2 == 1, w / 2 % 2 == 1, w / 4 % 2 == 1, w / KB4)
  }

  /** The three low flag bits are read back one by one from under the rest of a word. */
  lemma FlagBits(p: bool, r: bool, u: bool, high: nat)
    ensures
      var w := Bit(p, 1) + Bit(r, 2) + Bit(u, 4) + 8 * high;
      (w % 2 == 1) == p && (w / 2 % 2 == 1) == r && (w / 4 % 2 == 1) == u
  {
    var w := Bit(p, 1) + Bit(r, 2) + Bit(u, 4) + 8 * high;
    assert w / 2 == Bit(r, 1) + Bit(u, 2) + 4 * high;
    assert w / 4 == Bit(u, 1) + 2 * high;
  }

  /** A large entry: the size bit is set, and the base is read from bit 22 up. */
  lemma LargeFields(flags: nat, base: nat)
    requires flags < 8
    ensures (flags + 0x80 + base * MB4) / 0x80 % 2 == 1
    ensures (flags + 0x80 + base * MB4) / MB4 == base
  {
    DivisionIs(flags + 0x80 + base * MB4, 0x80, 0x8000 * base + 1, flags);
    DivisionIs(0x8000 * base + 1, 2, 0x4000 * base, 1);
    DivisionIs(flags + 0x80 + base * MB4, MB4, base, flags + 0x80);
  }

  /** A small entry: the size bit is clear, and the base is read from bit 12 up. */
  lemma SmallFields(flags: nat, base: nat)
    requires flags < 8
    ensures (flags + base * KB4) / 0x80 % 2 == 0
    ensures (flags + base * KB4) / KB4 == base
  {
    DivisionIs(flags + base * KB4, 0x80, 0x20 * base, flags);
    DivisionIs(0x20 * base, 2, 0x10 * base, 0);
    DivisionIs(flags + base * KB4, KB4, base, flags);
  }

  /** What the kernel packs is what the processor reads. */
  lemma PdeRoundTrip(e: Pde)
    requires EncodablePde(e)
    ensures DecodePde(EncodePde(e)) == e
  {
    var flags := Bit(e.present, 1) + Bit(e.readWrite, 2) + Bit(e.user, 4);
    if e.large {
      FlagBits(e.present, e.readWrite, e.user, 0x10 + 0x8_0000 * e.base);
      LargeFields(flags, e.base);
    } else {
      FlagBits(e.present, e.readWrite, e.user, 0x200 * e.base);
      SmallFields(flags, e.base);
    }
  }

  lemma PteRoundTrip(e: Pte)
    requires e.base < 0x10_0000
    ensures DecodePte(EncodePte(e)) == e
  {
    var flags := Bit(e.present, 1) + Bit(e.readWrite, 2) + Bit(e.user, 4);
    FlagBits(e.present, e.readWrite, e.user, 0x200 * e.base);
    SmallFields(flags, e.base);
  }

  /** The words the kernel stores, bit by bit: present 1, writable 2, user 4, large 0x80, and the frame's
      address above. */
  lemma MappedWords(pid: Pid, user: bool, frame: nat)
    requires frame < 0x10_0000
    ensures EncodePde(UserPde(pid)) == 0x80_0000 + 0x40_0000 * (pid - 1) + 0x87
    ensures EncodePde(Pde(true, true, false, true, KERNEL_MEM_START / MB4)) == 0x40_0083
    ensures EncodePde(Pde(true, true, user, false, frame)) == frame * 0x1000 + if user then 7 else 3
    ensures EncodePte(ScreenPte(user, frame * KB4)) == frame * 0x1000 + if user then 7 else 3
  {
    DivisionIs(frame * KB4, KB4, frame, 0);
  }

  datatype Tables = Tables(
    dir: seq<Pde>, first: seq<Pte>, user: seq<Pte>, backup: seq<Pte>,
    firstBase: nat, userBase: nat, backupBase: nat)
  {
    /** Four full tables whose three page tables live in different 4 KB frames. */
    predicate Shape() {
      && |dir| == |first| == |user| == |backup| == PAGE_COUNT
      && firstBase != userBase && firstBase != backupBase && userBase != backupBase
      && firstBase < 0x10_0000 && userBase < 0x10_0000 && backupBase < 0x10_0000
    }
  }

  /** The page table that lives in the given 4 KB frame. */
  function TableAt(t: Tables, base: nat): seq<Pte> {
    if base == t.firstBase then t.first
    else if base == t.userBase then t.user
    else if base == t.backupBase then t.backup
    else []
  }

  /** Two-level translation of `va` with 4 KB and 4 MB pages. A user access needs the
      user bit at both levels. */
  function Walk(t: Tables, va: uint32, user: bool): Option<nat>
    requires t.Shape()
  {
    var d := t.dir[va / MB4];
    if !d.present || (user && !d.user) then None
    else if d.large then Some(d.base * MB4 + va % MB4)
    else
      var table := TableAt(t, d.base);
      var i := va / KB4 % PAGE_COUNT;
      if i >= |table| || !table[i].present || (user && !table[i].user) then None
      else Some(table[i].base * KB4 + va % KB4)
  }

  function UserPde(pid: Pid): Pde { Pde(true, true, true, true, UserFrame(pid) / MB4) }

  function ScreenPte(user: bool, phys: nat): Pte { Pte(true, true, user, phys / KB4) }

  function MapPage4MB(t: Tables, va: uint32, pde: Pde): Tables
    requires t.Shape()
  {
    t.(dir := t.dir[va / MB4 := pde])
  }

  function MapUserVideoMem(t: Tables, va: uint32, pte: Pte): Tables
    requires t.Shape()
  {
    t.(user := t.user[va / KB4 % PAGE_COUNT := pte],
       dir := t.dir[va / MB4 := Pde(true, true, true, false, t.userBase)])
  }

  function FreeUserVideoMem(t: Tables, va: uint32): Tables
    requires t.Shape()
  {
    t.(user := t.user[va / KB4 % PAGE_COUNT := Pte(false, true, false, 0)])
  }

  function MapBackupVidmem(t: Tables, va: uint32, phys: uint32): Tables
    requires t.Shape()
  {
    t.(backup := t.backup[va / KB4 % PAGE_COUNT := ScreenPte(false, phys)],
       dir := t.dir[va / MB4 := Pde(true, true, false, false, t.backupBase)])
  }

  /** Frame that holds the screen of terminal `term` while `curr` is on display. */
  function ScreenFrame(term: nat, curr: nat): nat {
    if term == curr then VIDEO_MEM_INDEX else PhysBackup(term) / KB4
  }

  /** Frames a user page at 132 MB may expose. */
  predicate IsScreenFrame(frame: nat, terms: nat) {
    frame == VIDEO_MEM_INDEX || PhysBackup(0) / KB4 <= frame < PhysBackup(terms) / KB4
  }

  predicate IsUserWindow(e: Pte, terms: nat) {
    e.present ==> e == Pte(true, true, true, e.base) && IsScreenFrame(e.base, terms)
  }

  /** Everything but the 128 MB window, with `terms` terminals and `curr` on display (none when
      `curr` is `terms`). */
  predicate KernelMapped(t: Tables, terms: nat, curr: nat) {
    && t.Shape() && curr <= terms <= TERM_LIMIT
    && t.dir[0] == Pde(true, true, true, false, t.firstBase)
    && t.dir[1] == Pde(true, true, false, true, KERNEL_MEM_START / MB4)
    && (t.dir[33].present ==> t.dir[33] == Pde(true, true, true, false, t.userBase))
    && t.dir[34] == Pde(true, true, false, false, t.backupBase)
    && (forall i :: 1 < i < PAGE_COUNT && !(32 <= i <= 34) ==> !t.dir[i].present)
    && t.first[VIDEO_MEM_INDEX] == ScreenPte(false, VIDEO_MEM_START)
    && (forall i :: 0 <= i < PAGE_COUNT && i != VIDEO_MEM_INDEX ==> !t.first[i].present)
    && IsUserWindow(t.user[0], terms)
    && (forall i :: 0 < i < PAGE_COUNT ==> !t.user[i].present)
    && (forall i :: 0 <= i < terms ==> t.backup[i] == Pte(true, true, false, ScreenFrame(i, curr)))
    && (forall i :: terms <= i < PAGE_COUNT ==> !t.backup[i].present)
  }

  /** Consistency of all four tables while the process `pid` runs. */
  predicate Consistent(t: Tables, terms: nat, curr: nat, pid: Pid) {
    KernelMapped(t, terms, curr) && t.dir[32] == UserPde(pid)
  }

  /** Exactly what user code can reach: the 4 MB window of the running process, onto its own
      frame, and at most the one page at 132 MB, onto a screen frame. Every other address,
      the kernel page, the low video page and the backup pages among them, faults. */
  lemma UserReach(t: Tables, terms: nat, curr: nat, pid: Pid, va: uint32)
    requires Consistent(t, terms, curr, pid)
    ensures InUserWindow(va) ==>
              Walk(t, va, true) == Some(UserFrame(pid) + (va - MB128))
    ensures Walk(t, va, true).Some? && !InUserWindow(va) ==>
              && USER_VIDEO_MEM_ADDR <= va < USER_VIDEO_MEM_ADDR + KB4
              && IsScreenFrame(Walk(t, va, true).value / KB4, terms)
              && Walk(t, va, true).value % KB4 == va % KB4
  {
  }

  /** Every entry the walk of `va` goes through allows writing. */
  predicate Writable(t: Tables, va: uint32)
    requires t.Shape()
  {
    var d := t.dir[va / MB4];
    var table, i := TableAt(t, d.base), va / KB4 % PAGE_COUNT;
    d.readWrite && (d.large || (i < |table| && table[i].readWrite))
  }

  /** What can be reached can be written to, by user code as by the kernel. */
  lemma ReachIsWritable(t: Tables, terms: nat, curr: nat, pid: Pid, va: uint32, user: bool)
    requires Consistent(t, terms, curr, pid) && Walk(t, va, user).Some?
    ensures Writable(t, va)
  {
  }

  /** What the kernel itself reaches: its own page and the video page at their physical
      addresses, and terminal `term`'s screen at its backup address, which is the video page
      exactly for the terminal on display. */
  lemma KernelReach(t: Tables, terms: nat, curr: nat, va: uint32, term: nat)
    requires KernelMapped(t, terms, curr) && term < terms
    ensures KERNEL_MEM_START <= va < KERNEL_MEM_START + MB4 ==>
              Walk(t, va, false) == Some(va) && Walk(t, va, true) == None
    ensures VIDEO_MEM_START <= va < VIDEO_MEM_START + KB4 ==>
              Walk(t, va, false) == Some(va) && Walk(t, va, true) == None
    ensures VirtBackup(term) <= va < VirtBackup(term) + KB4 ==>
              && Walk(t, va, true) == None
              && Walk(t, va, false) == Some(ScreenFrame(term, curr) * KB4 + va % KB4)
  {
    var d, i := va / MB4, va / KB4 % PAGE_COUNT;
    assert va == d * MB4 + i * KB4 + va % KB4;
    if VIDEO_MEM_START <= va < VIDEO_MEM_START + KB4 {
      assert d == 0 && i == VIDEO_MEM_INDEX;
    } else if VirtBackup(term) <= va < VirtBackup(term) + KB4 {
      assert d == 34 && i == term;
      assert TableAt(t, t.dir[34].base) == t.backup;
    }
  }

  /** Different terminals never share a screen frame. */
  lemma ScreenFramesDistinct(a: nat, b: nat, curr: nat)
    ensures a != b ==> ScreenFrame(a, curr) != ScreenFrame(b, curr)
    ensures (ScreenFrame(a, curr) == VIDEO_MEM_INDEX) == (a == curr)
  {
  }

  // ---- Every mapping function keeps the tables consistent ----

  lemma MapProcessKeeps(t: Tables, terms: nat, curr: nat, pid: Pid)
    requires KernelMapped(t, terms, curr)
    ensures Consistent(MapPage4MB(t, MB128, UserPde(pid)), terms, curr, pid)
  {
  }

  lemma MapUserVideoKeeps(t: Tables, terms: nat, curr: nat, pid: Pid, frame: nat)
    requires Consistent(t, terms, curr, pid) && IsScreenFrame(frame, terms)
    ensures Consistent(MapUserVideoMem(t, USER_VIDEO_MEM_ADDR, Pte(true, true, true, frame)), terms, curr, pid)
  {
  }

  lemma FreeUserVideoKeeps(t: Tables, terms: nat, curr: nat, pid: Pid)
    requires Consistent(t, terms, curr, pid)
    ensures Consistent(FreeUserVideoMem(t, USER_VIDEO_MEM_ADDR), terms, curr, pid)
  {
  }

  /** Index of a terminal's backup page in its table. */
  lemma BackupIndex(term: nat)
    requires term < TERM_LIMIT
    ensures VirtBackup(term) / KB4 % PAGE_COUNT == term && VirtBackup(term) / MB4 == 34
    ensures PhysBackup(term) / KB4 == 0x4000 + term
  {
  }

  /** Mapping the displayed terminal's backup page back to its own frame. */
  lemma HideKeeps(t: Tables, terms: nat, curr: nat, pid: Pid)
    requires Consistent(t, terms, curr, pid) && curr < terms
    ensures Consistent(MapBackupVidmem(t, VirtBackup(curr), PhysBackup(curr)), terms, terms, pid)
  {
    BackupIndex(curr);
  }

  /** Mapping a terminal's backup page onto the video page. */
  lemma ShowKeeps(t: Tables, terms: nat, pid: Pid, term: nat)
    requires Consistent(t, terms, terms, pid) && term < terms
    ensures Consistent(MapBackupVidmem(t, VirtBackup(term), VIDEO_MEM_START), terms, term, pid)
  {
    BackupIndex(term);
  }
}
