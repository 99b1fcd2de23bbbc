/** The page directory and the page tables as the words the processor reads, built and changed in
    place (src/paging.c, and the mapping loop of terminal_init in src/drivers/terminal.c). */
module PageTables {
  import opened Layout
  import opened Paging

  const ABSENT_PDE: Pde := Pde(false, true, false, false, 0)

  /** The tables `init_paging` builds, with the page tables in the given frames. */
  function InitTables(firstBase: nat, userBase: nat, backupBase: nat): Tables {
    Tables(
      seq(PAGE_COUNT, i => if i == 0 then Pde(true, true, true, false, firstBase)
                           else if i == 1 then Pde(true, true, false, true, KERNEL_MEM_START / MB4)
                           else ABSENT_PDE),
      seq(PAGE_COUNT, (i: nat) =>
        if i == VIDEO_MEM_INDEX then Pte(true, true, false, VIDEO_MEM_INDEX) else Pte(false, true, false, i)),
      seq(PAGE_COUNT, _ => Pte(false, true, true, 0)),
      seq(PAGE_COUNT, _ => Pte(false, true, false, 0)),
      firstBase, userBase, backupBase)
  }

  /** The backup mappings of `terminal_init`, for the first `n` terminals. */
  function MapBackups(t: Tables, n: nat): (r: Tables)
    requires t.Shape() && n <= TERM_LIMIT
    ensures r.Shape()
  {
    if n == 0 then t else
      BackupIndex(n - 1);
      MapBackupVidmem(MapBackups(t, n - 1), VirtBackup(n - 1), PhysBackup(n - 1))
  }

  /** The whole of `init_paging` and `terminal_init`: terminal 0 is put on display last. */
  function BootTables(firstBase: nat, userBase: nat, backupBase: nat, terms: nat): (r: Tables)
    requires InitTables(firstBase, userBase, backupBase).Shape() && terms <= TERM_LIMIT
    ensures r.Shape()
  {
    BackupIndex(0);
    MapBackupVidmem(MapBackups(InitTables(firstBase, userBase, backupBase), terms), VirtBackup(0), VIDEO_MEM_START)
  }

  lemma {:induction false} MapBackupsEntries(t: Tables, n: nat)
    requires t.Shape() && n <= TERM_LIMIT
    ensures
      var r := MapBackups(t, n);
      && r == t.(backup := r.backup, dir := r.dir)
      && r.dir == (if n == 0 then t.dir else t.dir[34 := Pde(true, true, false, false, t.backupBase)])
      && (forall i :: 0 <= i < PAGE_COUNT ==>
            r.backup[i] == if i < n then ScreenPte(false, PhysBackup(i)) else t.backup[i])
  {
    if n > 0 {
      MapBackupsEntries(t, n - 1);
      BackupIndex(n - 1);
    }
  }

  lemma BootTablesMapped(firstBase: nat, userBase: nat, backupBase: nat, terms: nat)
    requires InitTables(firstBase, userBase, backupBase).Shape() && 1 <= terms <= TERM_LIMIT
    ensures KernelMapped(BootTables(firstBase, userBase, backupBase, terms), terms, 0)
  {
    var t := InitTables(firstBase, userBase, backupBase);
    MapBackupsEntries(t, terms);
    BackupIndex(0);
  }

  // ---- The tables in memory ----

  function DecodeDir(words: seq<uint32>): seq<Pde> { seq(|words|, i requires 0 <= i < |words| => DecodePde(words[i])) }

  function DecodeTable(words: seq<uint32>): seq<Pte> {
    seq(|words|, i requires 0 <= i < |words| => DecodePte(words[i]))
  }

  /** `memcpy` of a packed entry into the directory. */
  method SetPde(a: array<uint32>, i: nat, e: Pde)
    requires i < a.Length && EncodablePde(e)
    modifies a
    ensures a[..] == old(a[..])[i := EncodePde(e)]
    ensures DecodeDir(a[..]) == old(DecodeDir(a[..]))[i := e]
  {
    PdeRoundTrip(e);
    a[i] := EncodePde(e);
    assert a[..] == old(a[..])[i := EncodePde(e)];
  }

  method SetPte(a: array<uint32>, i: nat, e: Pte)
    requires i < a.Length && e.base < 0x10_0000
    modifies a
    ensures a[..] == old(a[..])[i := EncodePte(e)]
    ensures DecodeTable(a[..]) == old(DecodeTable(a[..]))[i := e]
  {
    PteRoundTrip(e);
    a[i] := EncodePte(e);
    assert a[..] == old(a[..])[i := EncodePte(e)];
  }

  /** A loop that fills a whole table with one entry, or with the entries of all frames in order. */
  method FillTable(a: array<uint32>, present: bool, user: bool, numbered: bool)
    requires a.Length == PAGE_COUNT
    modifies a
    ensures DecodeTable(a[..]) == seq(PAGE_COUNT, (i: nat) => Pte(present, true, user, if numbered then i else 0))
  {
    for i := 0 to PAGE_COUNT
      invariant forall j :: 0 <= j < i ==> DecodeTable(a[..])[j] == Pte(present, true, user, if numbered then j else 0)
    {
      SetPte(a, i, Pte(present, true, user, if numbered then i else 0));
    }
  }

  method FillDirectory(a: array<uint32>)
    requires a.Length == PAGE_COUNT
    modifies a
    ensures DecodeDir(a[..]) == seq(PAGE_COUNT, _ => ABSENT_PDE)
  {
    for i := 0 to PAGE_COUNT
      invariant forall j :: 0 <= j < i ==> DecodeDir(a[..])[j] == ABSENT_PDE
    {
      SetPde(a, i, ABSENT_PDE);
    }
  }

  class PageMaps {
    const dir: array<uint32>
    const first: array<uint32>
    const user: array<uint32>
    const backup: array<uint32>
    const firstBase: nat
    const userBase: nat
    const backupBase: nat

    /** Four different full arrays; the page tables live in different frames. */
    predicate Valid() {
      && dir.Length == first.Length == user.Length == backup.Length == PAGE_COUNT
      && dir != first && dir != user && dir != backup && first != user && first != backup && user != backup
      && firstBase != userBase && firstBase != backupBase && userBase != backupBase
      && firstBase < 0x10_0000 && userBase < 0x10_0000 && backupBase < 0x10_0000
    }

    function Repr(): set<object> { {dir, first, user, backup} }

    /** What the processor makes of the words. */
    ghost function View(): (t: Tables)
      requires Valid()
      reads dir, first, user, backup
      ensures t.Shape()
    {
      Tables(DecodeDir(dir[..]), DecodeTable(first[..]), DecodeTable(user[..]), DecodeTable(backup[..]),
             firstBase, userBase, backupBase)
    }

    /** `init_paging`. */
    constructor (firstBase: nat, userBase: nat, backupBase: nat)
      requires InitTables(firstBase, userBase, backupBase).Shape()
      ensures Valid() && fresh(dir) && fresh(first) && fresh(user) && fresh(backup)
      ensures View() == InitTables(firstBase, userBase, backupBase)
    {
      dir, first := new uint32[PAGE_COUNT], new uint32[PAGE_COUNT];
      user, backup := new uint32[PAGE_COUNT], new uint32[PAGE_COUNT];
      this.firstBase, this.userBase, this.backupBase := firstBase, userBase, backupBase;
      new;
      FillDirectory(dir);
      FillTable(first, false, false, true);
      FillTable(user, false, true, false);
      FillTable(backup, false, false, false);
      SetPte(first, VIDEO_MEM_INDEX, Pte(true, true, false, VIDEO_MEM_INDEX));
      SetPde(dir, 0, Pde(true, true, true, false, firstBase));
      SetPde(dir, 1, Pde(true, true, false, true, KERNEL_MEM_START / MB4));
      assert View() == InitTables(firstBase, userBase, backupBase);
    }

    /** The processor's page walk. */
    method Translate(va: uint32, user: bool) returns (pa: Option<nat>)
      requires Valid()
      ensures pa == Walk(View(), va, user)
    {
      var d := DecodePde(dir[va / MB4]);
      if !d.present || (user && !d.user) {
        return None;
      }
      if d.large {
        return Some(d.base * MB4 + va % MB4);
      }
      if d.base != firstBase && d.base != userBase && d.base != backupBase {
        return None;
      }
      var table := if d.base == firstBase then first else if d.base == userBase then this.user else backup;
      var e := DecodePte(table[va / KB4 % PAGE_COUNT]);
      return if !e.present || (user && !e.user) then None else Some(e.base * KB4 + va % KB4);
    }

    /** `map_page_4MB`. */
    method MapPage4MB(va: uint32, pde: Pde)
      requires Valid() && EncodablePde(pde)
      modifies dir
      ensures View() == Paging.MapPage4MB(old(View()), va, pde)
    {
      SetPde(dir, va / MB4, pde);
    }

    /** `map_user_video_mem`. */
    method MapUserVideoMem(va: uint32, pte: Pte)
      requires Valid() && pte.base < 0x10_0000
      modifies user, dir
      ensures View() == Paging.MapUserVideoMem(old(View()), va, pte)
    {
      SetPte(user, va / KB4 % PAGE_COUNT, pte);
      SetPde(dir, va / MB4, Pde(true, true, true, false, userBase));
    }

    /** `free_user_video_mem`. */
    method FreeUserVideoMem(va: uint32)
      requires Valid()
      modifies user
      ensures View() == Paging.FreeUserVideoMem(old(View()), va)
    {
      SetPte(user, va / KB4 % PAGE_COUNT, Pte(false, true, false, 0));
    }

    /** `map_backup_vidmem`. */
    method MapBackupVidmem(va: uint32, phys: uint32)
      requires Valid()
      modifies backup, dir
      ensures View() == Paging.MapBackupVidmem(old(View()), va, phys)
    {
      SetPte(backup, va / KB4 % PAGE_COUNT, ScreenPte(false, phys));
      SetPde(dir, va / MB4, Pde(true, true, false, false, backupBase));
    }

    /** The mappings of `terminal_init`. */
    method InitTerminals(terms: nat)
      requires Valid() && View() == InitTables(firstBase, userBase, backupBase) && terms <= TERM_LIMIT
      modifies backup, dir
      ensures View() == BootTables(firstBase, userBase, backupBase, terms)
    {
      BackupIndex(0);
      for i := 0 to terms
        invariant View() == MapBackups(InitTables(firstBase, userBase, backupBase), i)
      {
        BackupIndex(i);
        MapBackupVidmem(VirtBackup(i), PhysBackup(i));
      }
      MapBackupVidmem(VirtBackup(0), VIDEO_MEM_START);
    }
  }
}
