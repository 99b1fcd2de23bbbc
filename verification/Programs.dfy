/** From a command line to a running program: the lookup, header check and loader of `execute`
    (src/syscalls/syscalls.c, src/filesystem.c). */
module Programs {
  import opened Layout
  import opened Filesystem
  import opened Files
  import opened FileSessions
  import opened Command

  /** The command pointer lies in the user's or the kernel's window. */
  predicate InWindow(addr: uint32) { InUserWindow(addr) || KERNEL_MEM_START <= addr < KERNEL_MEM_START + MB4 }

  /** No file has more blocks than the driver's array. */
  ghost predicate FilesOk(img: Image)
    requires img.Ok()
  {
    forall inode: uint32 :: inode < img.NumInodes() ==> img.FileAt(inode).Ok()
  }

  /** A readable file that starts with 7F 'E' 'L' 'F'. */
  ghost predicate IsElf(f: File) {
    && f.Ok() && f.length >= 4 && !f.Misses(0, 4)
    && f.Contents()[..4] == [0x7F, 0x45, 0x4C, 0x46]
  }

  /** The inode a command line starts: that of the first entry whose name is the first word of the
      line, cut to 32 bytes, if its file is an executable. This is what the flag `found` of a kernel
      event stands for. */
  ghost function Program(img: Image, addr: uint32, command: seq<byte>): (r: Option<uint32>)
    requires img.Ok()
  {
    match Lookup(img.Disk().entries, Name(command), 0)
    case None => None
    case Some(i) =>
      var inode := img.Disk().entries[i].inode;
      if InWindow(addr) && inode < img.NumInodes() && IsElf(img.FileAt(inode)) then Some(inode) else None
  }

  /** An entry is the one asked for when its name, as a C string, is the word itself. */
  lemma NamedByWord(d: Dentry, command: seq<byte>)
    requires Command.Terminated(command)
    ensures Named(d, Name(command)) <==> CString(d.name, FILENAME_SIZE) == Name(command)
  {
    WordIsCString(Name(command), Name(command));
  }

  /** The first word of a file, read as a signed word; -1 when it cannot be read. */
  method GetElfHeader(img: Image, inode: uint32) returns (r: int)
    requires img.Ok() && (inode < img.NumInodes() ==> img.FileAt(inode).Ok())
    ensures
      if inode < img.NumInodes() && img.FileLength(inode) >= 4 && !img.FileAt(inode).Misses(0, 4) then
        r == Signed32(WordAt(img.FileAt(inode).Contents(), 0))
      else r == -1
  {
    var elf := new byte[4];
    var got := ReadData(img, inode, 0, elf, 0, 4);
    if got != 4 {
      return -1;
    }
    return Signed32(WordAt(elf[..], 0));
  }

  /** The header constant is the magic number of the file format. */
  lemma HeaderIsMagic(c: seq<byte>)
    requires |c| >= 4
    ensures Signed32(WordAt(c, 0)) == ELF_HEADER <==> c[..4] == [0x7F, 0x45, 0x4C, 0x46]
  {
    assert c[..4] == [c[0], c[1], c[2], c[3]];
  }

  method HasElfHeader(img: Image, inode: uint32) returns (found: bool)
    requires img.Ok() && (inode < img.NumInodes() ==> img.FileAt(inode).Ok())
    ensures found <==> inode < img.NumInodes() && IsElf(img.FileAt(inode))
  {
    var header := GetElfHeader(img, inode);
    if inode < img.NumInodes() && img.FileLength(inode) >= 4 {
      HeaderIsMagic(img.FileAt(inode).Contents());
    }
    return header == ELF_HEADER;
  }

  /** Parsing the line and looking its first word up. */
  method FindEntry(img: Image, command: seq<byte>) returns (d: Option<Dentry>)
    requires img.Ok() && Command.Terminated(command) && |Args(command)| < ARGS_LENGTH
    ensures
      var entries := img.Disk().entries;
      d == match Lookup(entries, Name(command), 0) case None => None case Some(i) => Some(entries[i])
  {
    var filename, args, argsLength := ParseCommand(command);
    WordIsCString(Name(command), filename[..]);
    WordIsCString(Name(command), Name(command));
    SameLookup(img.Disk().entries, filename[..], Name(command), 0);
    d := ReadDentryByName(img, filename[..]);
  }

  /** The checks `execute` makes before it takes a PID. */
  method FindProgram(img: Image, addr: uint32, command: seq<byte>) returns (inode: Option<uint32>)
    requires img.Ok() && FilesOk(img) && Command.Terminated(command) && |Args(command)| < ARGS_LENGTH
    ensures inode == Program(img, addr, command)
  {
    if !InUserWindow(addr) {
      if addr < KERNEL_MEM_START || addr >= KERNEL_MEM_START + MB4 {
        return None;
      }
    }
    var dentry := FindEntry(img, command);
    if dentry.None? {
      return None;
    }
    var isElf := HasElfHeader(img, dentry.value.inode);
    if !isElf {
      return None;
    }
    return Some(dentry.value.inode);
  }

  /** The loader loop of `execute`: 1 KB reads into the process frame from 0x48000 on, until a
      read delivers nothing. It stops with the whole file in place, inside the 4 MB page. */
  method LoadProgram(img: Image, inode: uint32, frame: array<byte>)
    requires img.Ok() && inode < img.NumInodes() && img.FileAt(inode).Complete()
    requires frame.Length == MB4
    modifies frame
    ensures IMAGE_LOAD_OFFSET + img.FileLength(inode) < MB4
    ensures
      var f := img.FileAt(inode);
      Placed(old(frame[..]), frame[..], IMAGE_LOAD_OFFSET, f.Contents(), 0, f.length)
  {
    ghost var f := img.FileAt(inode);
    assert f.length < 63 * BLOCK_SIZE;
    var loadAddr, bytesRead := IMAGE_LOAD_OFFSET, 0;
    var copied := 1;
    while copied != 0
      invariant 0 <= bytesRead <= f.length && loadAddr == IMAGE_LOAD_OFFSET + bytesRead
      invariant copied == 0 ==> bytesRead == f.length
      invariant Placed(old(frame[..]), frame[..], IMAGE_LOAD_OFFSET, f.Contents(), 0, bytesRead)
      decreases f.length - bytesRead, copied != 0
    {
      ghost var soFar := frame[..];
      if bytesRead < f.length {
        CompleteFileNeverMisses(f, bytesRead, bytesRead + f.Available(bytesRead, KB1));
      }
      copied := ReadData(img, inode, bytesRead, frame, loadAddr, KB1);
      if bytesRead < f.length {
        PlacedExtends(old(frame[..]), soFar, frame[..], IMAGE_LOAD_OFFSET,
                      f.Contents(), 0, bytesRead, bytesRead + copied);
      }
      loadAddr := loadAddr + copied;
      bytesRead := bytesRead + copied;
    }
  }

  // ---- When the loader ends ----

  /** What a 1 KB read at `pos` returns to the loader. */
  ghost function LoaderRead(f: File, pos: uint32): int
    requires f.Ok()
  {
    var n := f.Available(pos, KB1);
    if f.length <= pos then 0 else if f.Misses(pos, pos + n) then -1 else n
  }

  lemma ReadsAreLoaderReads(f: File, pos: uint32, b: seq<byte>, b': seq<byte>, at: nat, r: int)
    requires f.Ok() && at + f.Available(pos, KB1) <= |b| && ReadOutcome(f, pos, KB1, b, b', at, r)
    ensures r == LoaderRead(f, pos)
  {
  }

  /** `bytes_read` after `n` rounds of the loop, in 32-bit arithmetic: a failed read counts as -1. */
  ghost function LoaderPos(f: File, n: nat): uint32
    requires f.Ok()
  {
    if n == 0 then 0 else Wrap32(LoaderPos(f, n - 1) + LoaderRead(f, LoaderPos(f, n - 1)))
  }

  /** Some round reads nothing, which ends the loop. */
  ghost predicate LoaderStops(f: File)
    requires f.Ok()
  {
    exists n :: LoaderRead(f, LoaderPos(f, n)) == 0
  }

  lemma CompleteStep(f: File, pos: uint32)
    requires f.Complete() && pos <= f.length
    ensures pos + LoaderRead(f, pos) == Min(f.length, pos + KB1)
  {
    if pos < f.length {
      CompleteFileNeverMisses(f, pos, pos + f.Available(pos, KB1));
    }
  }

  lemma SmallWrap(x: uint32)
    ensures Wrap32(x) == x
  {
  }

  lemma {:induction false} CompletePos(f: File, n: nat)
    requires f.Complete()
    ensures LoaderPos(f, n) == Min(f.length, KB1 * n)
  {
    if n > 0 {
      CompletePos(f, n - 1);
      var pos := LoaderPos(f, n - 1);
      CompleteStep(f, pos);
      SmallWrap(pos + LoaderRead(f, pos));
    }
  }

  /** A block of the file that is missing, although the first one is there. */
  ghost predicate Hole(f: File, k: nat) {
    f.Ok() && 0 < k < |f.ptrs| && k * BLOCK_SIZE < f.length && f.Present(0) && !f.Present(k)
  }

  /** A read before the hole stays before it: if it would reach it, it falls back one byte. */
  lemma HoleStep(f: File, k: nat, pos: uint32)
    requires Hole(f, k) && pos <= k * BLOCK_SIZE
    ensures 0 <= pos + LoaderRead(f, pos) <= k * BLOCK_SIZE
  {
    var end := pos + f.Available(pos, KB1);
    if end > k * BLOCK_SIZE {
      ReachesHole(f, k, pos, end);
    } else if pos == 0 {
      assert !f.MissesFrom(1, end);
    }
  }

  lemma ReachesHole(f: File, k: nat, pos: nat, end: nat)
    requires Hole(f, k) && pos <= k * BLOCK_SIZE < end
    ensures pos / BLOCK_SIZE < |f.ptrs| && f.Misses(pos, end)
  {
    if pos < k * BLOCK_SIZE {
      assert pos / BLOCK_SIZE + 1 <= k;
    }
  }

  lemma {:induction false} HolePos(f: File, k: nat, n: nat)
    requires Hole(f, k)
    ensures LoaderPos(f, n) <= k * BLOCK_SIZE
  {
    if n > 0 {
      HolePos(f, k, n - 1);
      var pos := LoaderPos(f, n - 1);
      HoleStep(f, k, pos);
      SmallWrap(pos + LoaderRead(f, pos));
    }
  }

  /** The loader ends exactly on the programs without a missing block; `execute` gets to it only when
      the first block is there. */
  lemma LoaderStopsIffComplete(f: File)
    requires IsElf(f)
    ensures LoaderStops(f) <==> f.Complete()
  {
    if f.Complete() {
      CompletePos(f, f.length);
      assert LoaderRead(f, LoaderPos(f, f.length)) == 0;
    } else {
      var first :| 0 <= first < |f.ptrs| && first * BLOCK_SIZE < f.length && !f.Present(first);
      forall n: nat
        ensures LoaderRead(f, LoaderPos(f, n)) != 0
      {
        HolePos(f, first, n);
      }
    }
  }

  /** One file of 5000 bytes, the magic number first; the number of its second block leads out of the
      image. */
  function BrokenImage(): (img: Image)
    ensures |img.bytes| == 0x3000 && img.start == KERNEL_MEM_START
    ensures img.Word(0) == 0 && img.Word(4) == 1
    ensures img.Word(0x1000) == 5000 && img.Word(0x1004) == 0 && img.Word(0x1008) == 0x1000
    ensures img.bytes[0x2000..0x2004] == [0x7F, 0x45, 0x4C, 0x46]
  {
    Image(seq(0x3000, i =>
            if i == 4 then 1
            else if i == 0x1000 then 0x88 else if i == 0x1001 then 0x13 else if i == 0x1009 then 0x10
            else if i == 0x2000 then 0x7F else if i == 0x2001 then 0x45
            else if i == 0x2002 then 0x4C else if i == 0x2003 then 0x46 else 0),
          KERNEL_MEM_START, _ => 0)
  }

  lemma HeaderBytes(f: File)
    requires f.Ok() && f.length >= 4 && f.Present(0)
    requires f.FileByte(0) == 0x7F && f.FileByte(1) == 0x45 && f.FileByte(2) == 0x4C && f.FileByte(3) == 0x46
    ensures IsElf(f)
  {
    f.PrefixByte(f.length, 0);
    f.PrefixByte(f.length, 1);
    f.PrefixByte(f.length, 2);
    f.PrefixByte(f.length, 3);
    assert !f.MissesFrom(1, 4);
  }

  lemma BrokenFile(img: Image) returns (f: File)
    requires |img.bytes| == 0x3000 && img.start == KERNEL_MEM_START && img.Word(0) == 0 && img.Word(4) == 1
    requires img.Word(0x1000) == 5000 && img.Word(0x1004) == 0 && img.Word(0x1008) == 0x1000
    requires img.bytes[0x2000..0x2004] == [0x7F, 0x45, 0x4C, 0x46]
    ensures img.Ok() && img.NumInodes() == 1 && f == img.FileAt(0)
    ensures f.length == 5000 && f.ptrs == [0x40_2000, 0x140_2000] && f.end == 0x40_3000 && InMemory(img, f)
  {
    f := img.FileAt(0);
    assert f.ptrs == [img.BlockPtr(0), img.BlockPtr(0x1000)];
  }

  lemma BrokenHeader(img: Image, f: File)
    requires |img.bytes| == 0x3000 && img.start == KERNEL_MEM_START
    requires img.bytes[0x2000..0x2004] == [0x7F, 0x45, 0x4C, 0x46]
    requires f.length == 5000 && f.ptrs == [0x40_2000, 0x140_2000] && InMemory(img, f)
    ensures f.FileByte(0) == 0x7F && f.FileByte(1) == 0x45 && f.FileByte(2) == 0x4C && f.FileByte(3) == 0x46
  {
    var head := img.bytes[0x2000..0x2004];
    assert head == [img.Mem(0x40_2000), img.Mem(0x40_2001), img.Mem(0x40_2002), img.Mem(0x40_2003)];
  }

  /** There are programs the loader does not end on. */
  lemma SomeProgramNeverLoads() returns (img: Image)
    ensures img.Ok() && img.NumInodes() == 1
    ensures IsElf(img.FileAt(0)) && !img.FileAt(0).Complete() && !LoaderStops(img.FileAt(0))
  {
    img := BrokenImage();
    var f := BrokenFile(img);
    BrokenHeader(img, f);
    HeaderBytes(f);
    assert !f.Present(1);
    LoaderStopsIffComplete(f);
  }
}
