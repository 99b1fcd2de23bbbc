/** What a whole sequence of file operations delivers: chunked reads rebuild the file, and
    directory reads list it. */
module FileSessions {
  import opened Layout
  import opened Filesystem
  import opened Files
  import opened OpenFiles

  /** `nbytes` is the size of a read as an unsigned word. */
  datatype Op = OpOpen(fname: seq<byte>) | OpClose(target: int) | OpRead(fd: nat, nbytes: nat)

  ghost predicate Allowed(disk: Disk, fds: Fds, op: Op)
    requires disk.Ok()
  {
    op.OpRead? ==>
      op.fd < MAX_OPEN_FILES && Readable(disk, fds[op.fd])
      && op.nbytes < if fds[op.fd].FileType() == DIR_FILE_TYPE then 0x8000_0000 else 0x1_0000_0000
  }

  ghost function After(disk: Disk, fds: Fds, op: Op): Fds
    requires disk.Ok() && Allowed(disk, fds, op)
  {
    match op
    case OpOpen(fname) => OpenFile(disk, fds, fname).1
    case OpClose(target) => CloseFile(fds, target).1
    case OpRead(fd, nbytes) => fds[fd := Advance(disk, fds[fd], nbytes)]
  }

  ghost predicate Session(disk: Disk, fds: Fds, ops: seq<Op>)
    requires disk.Ok()
    decreases |ops|
  {
    ops == [] || (Allowed(disk, fds, ops[0]) && Session(disk, After(disk, fds, ops[0]), ops[1..]))
  }

  ghost function Final(disk: Disk, fds: Fds, ops: seq<Op>): Fds
    requires disk.Ok() && Session(disk, fds, ops)
    decreases |ops|
  {
    if ops == [] then fds else Final(disk, After(disk, fds, ops[0]), ops[1..])
  }

  /** What each read through `fd` delivers, in order. */
  ghost function Gather(disk: Disk, fds: Fds, ops: seq<Op>, fd: nat): seq<seq<byte>>
    requires disk.Ok() && Session(disk, fds, ops)
    decreases |ops|
  {
    if ops == [] then []
    else
      (if ops[0].OpRead? && ops[0].fd == fd then [Delivered(disk, fds[fd], ops[0].nbytes)] else [])
      + Gather(disk, After(disk, fds, ops[0]), ops[1..], fd)
  }

  /** The sizes of the reads through `fd`, in order. */
  function Sizes(ops: seq<Op>, fd: nat): seq<nat>
    decreases |ops|
  {
    if ops == [] then []
    else (if ops[0].OpRead? && ops[0].fd == fd then [ops[0].nbytes] else []) + Sizes(ops[1..], fd)
  }

  /** What successive reads of the given sizes deliver through one descriptor on its own. */
  ghost function Replies(disk: Disk, d: FileDesc, sizes: seq<nat>): (r: seq<seq<byte>>)
    requires disk.Ok() && Readable(disk, d)
    ensures |r| == |sizes|
    decreases |sizes|
  {
    if sizes == [] then []
    else [Delivered(disk, d, sizes[0])] + Replies(disk, Advance(disk, d, sizes[0]), sizes[1..])
  }

  /** Where they leave it. */
  ghost function Moved(disk: Disk, d: FileDesc, sizes: seq<nat>): (r: FileDesc)
    requires disk.Ok() && Readable(disk, d)
    decreases |sizes|
  {
    if sizes == [] then d else Moved(disk, Advance(disk, d, sizes[0]), sizes[1..])
  }

  lemma AfterOther(disk: Disk, fds: Fds, op: Op, fd: nat)
    requires disk.Ok() && Allowed(disk, fds, op) && fd < MAX_OPEN_FILES && fds[fd].InUse()
    requires op != OpClose(fd) && !(op.OpRead? && op.fd == fd)
    ensures After(disk, fds, op)[fd] == fds[fd]
  {
  }

  /** Independence: what is opened, closed or read through other descriptors in between does
      not show in what an open descriptor delivers. */
  lemma {:induction false} DescriptorsAreIndependent(disk: Disk, fds: Fds, ops: seq<Op>, fd: nat)
    requires disk.Ok() && Session(disk, fds, ops)
    requires fd < MAX_OPEN_FILES && fds[fd].InUse() && Readable(disk, fds[fd])
    requires forall i :: 0 <= i < |ops| ==> ops[i] != OpClose(fd)
    ensures Gather(disk, fds, ops, fd) == Replies(disk, fds[fd], Sizes(ops, fd))
    ensures Final(disk, fds, ops)[fd] == Moved(disk, fds[fd], Sizes(ops, fd))
    decreases |ops|
  {
    if ops != [] {
      var fds' := After(disk, fds, ops[0]);
      if ops[0].OpRead? && ops[0].fd == fd {
        assert fds'[fd] == Advance(disk, fds[fd], ops[0].nbytes);
        assert Sizes(ops, fd)[1..] == Sizes(ops[1..], fd);
      } else {
        AfterOther(disk, fds, ops[0], fd);
        assert Sizes(ops, fd) == Sizes(ops[1..], fd);
      }
      DescriptorsAreIndependent(disk, fds', ops[1..], fd);
    }
  }

  /** A descriptor open on a normal file. */
  ghost predicate OpenOn(disk: Disk, d: FileDesc, f: File) {
    && d.InUse() && d.FileType() == NORMAL_FILE_TYPE
    && InodeOf(disk, d) < |disk.files| && f == disk.files[InodeOf(disk, d)]
    && f.Ok() && d.pos <= f.length
  }

  lemma CompleteFileNeverMisses(f: File, offset: nat, end: nat)
    requires f.Complete() && offset < f.length && end <= f.length
    ensures offset / BLOCK_SIZE < |f.ptrs| && !f.Misses(offset, end)
  {
  }

  function Flatten(parts: seq<seq<byte>>): seq<byte>
  {
    if parts == [] then [] else parts[0] + Flatten(parts[1..])
  }

  function Sum(sizes: seq<nat>): nat {
    if sizes == [] then 0 else sizes[0] + Sum(sizes[1..])
  }

  /** `parts` are the bytes of the file from where `d` stands to where `d'` stands; when no block of
      the file is missing these are `total` bytes or all that are left. */
  ghost predicate NextBytes(f: File, d: FileDesc, total: nat, parts: seq<seq<byte>>, d': FileDesc)
    requires f.Ok() && d.pos <= f.length
  {
    && d.pos <= d'.pos <= f.length && d' == d.(pos := d'.pos)
    && Flatten(parts) == f.Contents()[d.pos..d'.pos]
    && (f.Complete() ==> d'.pos == Min(f.length, d.pos + total))
  }

  lemma {:induction false} RepliesOfFile(disk: Disk, d: FileDesc, f: File, sizes: seq<nat>)
    requires disk.Ok() && OpenOn(disk, d, f)
    ensures NextBytes(f, d, Sum(sizes), Replies(disk, d, sizes), Moved(disk, d, sizes))
    decreases |sizes|
  {
    if sizes == [] {
      assert f.Contents()[d.pos..d.pos] == [];
    } else {
      OneRead(disk, d, f, sizes[0]);
      var d' := Advance(disk, d, sizes[0]);
      RepliesOfFile(disk, d', f, sizes[1..]);
      NextBytesCons(f, d, sizes[0], Delivered(disk, d, sizes[0]), d', Sum(sizes[1..]),
                    Replies(disk, d', sizes[1..]), Moved(disk, d', sizes[1..]));
    }
  }

  /** One read delivers the bytes it moves over. */
  lemma OneRead(disk: Disk, d: FileDesc, f: File, nbytes: nat)
    requires disk.Ok() && OpenOn(disk, d, f)
    ensures
      var d' := Advance(disk, d, nbytes);
      && d.pos <= d'.pos <= f.length && d' == d.(pos := d'.pos)
      && Delivered(disk, d, nbytes) == f.Contents()[d.pos..d'.pos]
      && (f.Complete() ==> d'.pos == Min(f.length, d.pos + nbytes))
  {
    var n := f.Available(d.pos, nbytes);
    if n != 0 && f.Complete() {
      CompleteFileNeverMisses(f, d.pos, d.pos + n);
    }
  }

  lemma NextBytesCons(f: File, d: FileDesc, n: nat, part: seq<byte>, d': FileDesc, total: nat,
                      parts: seq<seq<byte>>, d'': FileDesc)
    requires f.Ok() && d.pos <= d'.pos <= f.length && d' == d.(pos := d'.pos)
    requires f.Complete() ==> d'.pos == Min(f.length, d.pos + n)
    requires part == f.Contents()[d.pos..d'.pos] && NextBytes(f, d', total, parts, d'')
    ensures NextBytes(f, d, n + total, [part] + parts, d'')
  {
    var c := f.Contents();
    assert c[d.pos..d'.pos] + c[d'.pos..d''.pos] == c[d.pos..d''.pos];
  }

  /** Chunked reading rebuilds the file: whatever the chunk sizes, and whatever else the session
      does, the reads through an open descriptor concatenate to the bytes it moves over; in a file
      without missing blocks, to the next bytes asked for. */
  lemma ChunkedReadsRebuildFile(disk: Disk, fds: Fds, ops: seq<Op>, fd: nat, f: File)
    requires disk.Ok() && Session(disk, fds, ops) && fd < MAX_OPEN_FILES && OpenOn(disk, fds[fd], f)
    requires forall i :: 0 <= i < |ops| ==> ops[i] != OpClose(fd)
    ensures NextBytes(f, fds[fd], Sum(Sizes(ops, fd)), Gather(disk, fds, ops, fd), Final(disk, fds, ops)[fd])
  {
    DescriptorsAreIndependent(disk, fds, ops, fd);
    RepliesOfFile(disk, fds[fd], f, Sizes(ops, fd));
  }

  /** Reading a directory lists each remaining entry once, in order, then nothing for ever. */
  lemma {:induction false} DirectoryReadsListEntries(disk: Disk, d: FileDesc, sizes: seq<nat>, k: nat)
    requires disk.Ok() && d.FileType() == DIR_FILE_TYPE && k < |sizes|
    ensures Replies(disk, d, sizes)[k] == EntryData(disk, d.pos + k, sizes[k])
    decreases k
  {
    if k > 0 {
      var d' := Advance(disk, d, sizes[0]);
      DirectoryReadsListEntries(disk, d', sizes[1..], k - 1);
      assert sizes[1..][k - 1] == sizes[k];
      assert Replies(disk, d, sizes)[k] == Replies(disk, d', sizes[1..])[k - 1];
    }
  }

  /** A descriptor fresh from `open` of a normal file: it was free, nothing else changed, and it
      stands at the start of the file its name was looked up for, as far as the inode pointer
      leads back to the inode. */
  lemma OpenedDescriptorFindsFile(disk: Disk, fds: Fds, fname: seq<byte>, entry: Dentry)
    requires Lookup(disk.entries, fname, 0).Some? && entry == disk.entries[Lookup(disk.entries, fname, 0).value]
    requires entry.filetype == NORMAL_FILE_TYPE && disk.inodeOf(disk.inodePtr(entry.inode)) == entry.inode
    ensures
      var (fd, fds') := OpenFile(disk, fds, fname);
      if fd == -1 then fds' == fds && forall i :: 2 <= i < MAX_OPEN_FILES ==> fds[i].InUse()
      else
        && 2 <= fd < MAX_OPEN_FILES && !fds[fd].InUse() && fds' == fds[fd := fds'[fd]]
        && fds'[fd].InUse() && fds'[fd].FileType() == NORMAL_FILE_TYPE && fds'[fd].pos == 0
        && InodeOf(disk, fds'[fd]) == entry.inode
  {
  }

  /** What `open` does for every kind of entry: it fails exactly when there is no such entry, its type
      is unknown or no descriptor is free, and takes the first free one for it otherwise. */
  lemma OpenByType(disk: Disk, fds: Fds, fname: seq<byte>)
    ensures
      var (fd, fds') := OpenFile(disk, fds, fname);
      var found := Lookup(disk.entries, fname, 0);
      && (fd == -1 <==>
            || found.None? || disk.entries[found.value].filetype > 2
            || forall i :: 2 <= i < MAX_OPEN_FILES ==> fds[i].InUse())
      && if fd == -1 then fds' == fds
         else
           var filetype := disk.entries[found.value].filetype;
           && 2 <= fd < MAX_OPEN_FILES && !fds[fd].InUse() && (forall i :: 2 <= i < fd ==> fds[i].InUse())
           && fds' == fds[fd := fds'[fd]] && fds'[fd].InUse() && fds'[fd].FileType() == filetype && fds'[fd].pos == 0
           && fds'[fd].ops == if filetype == RTC_FILE_TYPE then RtcOps else FsOps
  {
  }

  /** Closing what was opened frees exactly that descriptor, and opening again gives it back. */
  lemma CloseUndoesOpen(disk: Disk, fds: Fds, fname: seq<byte>)
    requires OpenFile(disk, fds, fname).0 != -1
    ensures
      var (fd, after) := OpenFile(disk, fds, fname);
      var (r, closed) := CloseFile(after, fd);
      && r == 0 && 2 <= fd < MAX_OPEN_FILES && closed == fds[fd := closed[fd]] && !closed[fd].InUse()
      && OpenFile(disk, closed, fname) == (fd, after)
      && CloseFile(closed, fd) == (-1, closed)
  {
    var (fd, after) := OpenFile(disk, fds, fname);
    var closed := CloseFile(after, fd).1;
    assert FirstFree(closed, 2) == fd;
    assert closed[fd := after[fd]] == after;
  }

  /** A directory read delivers the start of an entry's name: exactly the bytes asked for up to 32,
      padding included, and the name without its padding when more are asked for. */
  lemma ListedNameIsPrefix(disk: Disk, pos: nat, nbytes: nat)
    requires disk.Ok() && pos < |disk.entries|
    ensures
      var name, r := disk.entries[pos].name, EntryData(disk, pos, nbytes);
      && r <= name
      && if nbytes <= FILENAME_SIZE then |r| == nbytes
         else NUL !in r && (|r| == FILENAME_SIZE || name[|r|] == NUL)
  {
  }

  /** The name a directory read of 32 bytes or more delivers opens what the entry's own name opens:
      that entry, or an earlier one of the same name. */
  lemma ListedNameOpens(disk: Disk, pos: nat, nbytes: nat)
    requires disk.Ok() && pos < |disk.entries| && nbytes >= FILENAME_SIZE
    ensures
      var found := Lookup(disk.entries, EntryData(disk, pos, nbytes), 0);
      found == Lookup(disk.entries, disk.entries[pos].name, 0) && found.Some? && found.value <= pos
  {
    var name := disk.entries[pos].name;
    WordIsCString(CString(name, FILENAME_SIZE), CString(name, FILENAME_SIZE));
    SameLookup(disk.entries, EntryData(disk, pos, nbytes), name, 0);
    LookupFindsEntry(disk, pos);
  }

  /** In an image the pointer leads back exactly for the inodes within 2 GB of its start. */
  lemma DiskPointersLeadBack(img: Image, inode: uint32)
    requires img.Ok()
    ensures img.Disk().inodeOf(img.Disk().inodePtr(inode)) == inode
       <==> inode + 1 < 0x8_0000 || inode + 1 >= 0x1_0000_0000 - 0x8_0000
  {
    InodePtrRoundTrip(img.start, inode);
  }

  /** An inode number no image has: `open` does not compare it with the inode count, and its pointer
      leads back to inode 0. So an entry with this number opens the file of inode 0. */
  lemma ForeignInodeOpensFirstFile(img: Image, fds: Fds, fname: seq<byte>)
    requires img.Ok() && Lookup(img.Disk().entries, fname, 0).Some?
    requires
      var entry := img.Disk().entries[Lookup(img.Disk().entries, fname, 0).value];
      entry.filetype == NORMAL_FILE_TYPE && entry.inode == 0x10_0000
    ensures 0x10_0000 >= img.NumInodes()
    ensures
      var (fd, fds') := OpenFile(img.Disk(), fds, fname);
      if fd == -1 then forall i :: 2 <= i < MAX_OPEN_FILES ==> fds[i].InUse()
      else 2 <= fd < MAX_OPEN_FILES && fds'[fd].InUse() && InodeOf(img.Disk(), fds'[fd]) == 0
  {
    ForeignPointer(img.start);
  }

  lemma ForeignPointer(start: uint32)
    ensures GetInodeFromPtr(start, GetInodePtr(start, 0x10_0000)) == 0
  {
  }

  /** There are such images: this one has the single entry "a", and `open` gives it descriptor 2. */
  lemma ForeignInodeImage(fds: Fds) returns (img: Image)
    requires !fds[2].InUse()
    ensures img.Ok() && img.NumInodes() == 1
    ensures
      var (fd, fds') := OpenFile(img.Disk(), fds, [0x61, NUL]);
      fd == 2 && fds'[2].InUse() && fds'[2].FileType() == NORMAL_FILE_TYPE && InodeOf(img.Disk(), fds'[2]) == 0
  {
    var bytes: seq<byte> := seq(0x2000, i =>
      if i == 0 || i == 4 then 1 else if i == 64 then 0x61 else if i == 96 then 2 else if i == 102 then 0x10 else 0);
    img := Image(bytes, KERNEL_MEM_START, _ => 0);
    assert img.Word(0) == 1 && img.Word(4) == 1 && img.Word(96) == NORMAL_FILE_TYPE && img.Word(100) == 0x10_0000;
    var entry := img.Disk().entries[0];
    assert entry.inode == 0x10_0000 && entry.filetype == NORMAL_FILE_TYPE;
    assert entry.name[0] == 0x61 && entry.name[1] == NUL;
    CStringAgree([0x61, NUL], entry.name, FILENAME_SIZE, 1);
    ForeignPointer(img.start);
  }
}
