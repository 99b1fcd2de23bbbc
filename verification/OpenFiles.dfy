/** The file descriptors of a process, and reading through them (src/syscalls/syscalls.c,
    src/filesystem.c). */
module OpenFiles {
  import opened Layout
  import opened Filesystem
  import opened Files

  datatype FileOps = NoOps | StdinOps | StdoutOps | RtcOps | FsOps

  datatype FileDesc = FileDesc(ops: FileOps, inodePtr: uint32, pos: uint32, flags: uint32) {
    predicate InUse() { flags % 2 == 1 }

    function FileType(): nat { flags / 2 % 4 }
  }

  type Fds = f: seq<FileDesc> | |f| == MAX_OPEN_FILES witness seq(MAX_OPEN_FILES, _ => FileDesc(NoOps, 0, 0, 0))

  /** The flags word `open` builds for a file type. */
  function OpenFlags(filetype: uint32): uint32 { filetype % 4 * 2 + 1 }

  /** First descriptor from `i` on that is not in use, or 8. */
  function FirstFree(fds: Fds, i: nat): (r: nat)
    requires i <= MAX_OPEN_FILES
    ensures i <= r <= MAX_OPEN_FILES
    ensures r < MAX_OPEN_FILES ==> !fds[r].InUse()
    ensures forall j :: i <= j < r ==> fds[j].InUse()
    decreases MAX_OPEN_FILES - i
  {
    if i == MAX_OPEN_FILES || !fds[i].InUse() then i else FirstFree(fds, i + 1)
  }

  function DescFor(inodePtr: uint32 -> uint32, d: Dentry): Option<FileDesc> {
    var flags := OpenFlags(d.filetype);
    if d.filetype == RTC_FILE_TYPE then Some(FileDesc(RtcOps, NULL, 0, flags))
    else if d.filetype == DIR_FILE_TYPE then Some(FileDesc(FsOps, NULL, 0, flags))
    else if d.filetype == NORMAL_FILE_TYPE then Some(FileDesc(FsOps, inodePtr(d.inode), 0, flags))
    else None
  }

  function OpenFile(disk: Disk, fds: Fds, fname: seq<byte>): (int, Fds) {
    match Lookup(disk.entries, fname, 0)
    case None => (-1, fds)
    case Some(entry) =>
      var fd := FirstFree(fds, 2);
      var desc := DescFor(disk.inodePtr, disk.entries[entry]);
      if fd == MAX_OPEN_FILES || desc.None? then (-1, fds) else (fd, fds[fd := desc.value])
  }

  function CloseFile(fds: Fds, fd: int): (int, Fds) {
    if 2 <= fd < MAX_OPEN_FILES && fds[fd].InUse() then
      (0, fds[fd := fds[fd].(flags := 0, ops := NoOps)])
    else (-1, fds)
  }

  /** The inode number a descriptor's pointer stands for. */
  function InodeOf(disk: Disk, d: FileDesc): uint32 { disk.inodeOf(d.inodePtr) }

  /** The file behind a descriptor can be read. */
  ghost predicate Readable(disk: Disk, d: FileDesc) {
    d.FileType() == NORMAL_FILE_TYPE && InodeOf(disk, d) < |disk.files| ==> disk.files[InodeOf(disk, d)].Ok()
  }

  /** What a read of `nbytes` takes of an entry's name: as many of its 32 bytes as asked for, or
      the whole C string when more is asked for. */
  function NamePart(name: seq<byte>, nbytes: nat): seq<byte>
    requires |name| == FILENAME_SIZE
  {
    if nbytes <= FILENAME_SIZE then name[..nbytes] else CString(name, FILENAME_SIZE)
  }

  /** The name a directory read at position `pos` delivers. */
  function EntryData(disk: Disk, pos: nat, nbytes: nat): seq<byte>
    requires disk.Ok()
  {
    if pos >= |disk.entries| then [] else NamePart(disk.entries[pos].name, nbytes)
  }

  /** The bytes a file read at position `pos` delivers; none when a block is missing. */
  ghost function FileData(f: File, pos: uint32, nbytes: nat): (r: seq<byte>)
    requires f.Ok()
    ensures r == [] || pos + |r| <= f.length
  {
    var n := f.Available(pos, nbytes);
    if n == 0 || f.Misses(pos, pos + n) then [] else f.Contents()[pos..pos + n]
  }

  /** Bytes `fs_read` delivers through a descriptor. */
  ghost function Delivered(disk: Disk, d: FileDesc, nbytes: nat): (r: seq<byte>)
    requires disk.Ok() && Readable(disk, d)
  {
    if d.FileType() == DIR_FILE_TYPE then EntryData(disk, d.pos, nbytes)
    else if d.FileType() == NORMAL_FILE_TYPE && InodeOf(disk, d) < |disk.files| then
      FileData(disk.files[InodeOf(disk, d)], d.pos, nbytes)
    else []
  }

  /** How far the read moves the descriptor: one entry, or as many bytes as were delivered. */
  ghost function Advance(disk: Disk, d: FileDesc, nbytes: nat): (r: FileDesc)
    requires disk.Ok() && Readable(disk, d)
  {
    if d.FileType() == DIR_FILE_TYPE then
      if d.pos < |disk.entries| then d.(pos := d.pos + 1) else d
    else if d.FileType() == NORMAL_FILE_TYPE then d.(pos := d.pos + |Delivered(disk, d, nbytes)|)
    else d
  }

  /** Room the read needs: a directory entry longer than a name is copied with its terminator. */
  ghost function Room(disk: Disk, d: FileDesc, nbytes: nat): nat
    requires Readable(disk, d)
  {
    if d.FileType() == DIR_FILE_TYPE then Min(nbytes, FILENAME_SIZE + 1)
    else if d.FileType() == NORMAL_FILE_TYPE && InodeOf(disk, d) < |disk.files| then
      disk.files[InodeOf(disk, d)].Available(d.pos, nbytes)
    else 0
  }

  class FdTable {
    const fds: array<FileDesc>

    /** A descriptor in use has operations, so `close` has something to call. */
    ghost predicate Valid()
      reads this, fds
    {
      fds.Length == MAX_OPEN_FILES && forall i :: 0 <= i < MAX_OPEN_FILES && fds[i].InUse() ==> fds[i].ops != NoOps
    }

    /** The descriptors `execute` gives a new process. */
    constructor ()
      ensures Valid() && fresh(fds)
      ensures forall i :: 0 <= i < MAX_OPEN_FILES ==>
                fds[i].pos == 0 && (fds[i].InUse() <==> i < 2)
                && fds[i].ops == if i == 0 then StdinOps else if i == 1 then StdoutOps else NoOps
    {
      fds := new FileDesc[MAX_OPEN_FILES](i =>
        FileDesc(if i == 0 then StdinOps else if i == 1 then StdoutOps else NoOps, NULL, 0, if i < 2 then 1 else 0));
    }

    method Open(img: Image, fname: seq<byte>) returns (r: int)
      requires Valid() && img.Ok() && Terminated(fname, FILENAME_SIZE)
      modifies fds
      ensures Valid() && (r, fds[..]) == OpenFile(img.Disk(), old(fds[..]), fname)
    {
      var d := ReadDentryByName(img, fname);
      if d.None? {
        return -1;
      }
      var i := 2;
      while fds[i].InUse()
        invariant 2 <= i < MAX_OPEN_FILES && FirstFree(fds[..], 2) == FirstFree(fds[..], i)
        decreases MAX_OPEN_FILES - i
      {
        i := i + 1;
        if i >= MAX_OPEN_FILES {
          return -1;
        }
      }
      var desc := DescFor(inode => GetInodePtr(img.start, inode), d.value);
      if desc.None? {
        return -1;
      }
      fds[i] := desc.value;
      return i;
    }

    method Close(fd: int) returns (r: int)
      requires Valid()
      modifies fds
      ensures Valid() && (r, fds[..]) == CloseFile(old(fds[..]), fd)
    {
      if fd < 2 || fd >= MAX_OPEN_FILES {
        return -1;
      }
      if fds[fd].InUse() {
        fds[fd] := fds[fd].(flags := 0, ops := NoOps);
        return 0;
      }
      return -1;
    }

    /** `fs_read`. A file read takes its size as an unsigned word, so that a negative one asks for
        all the rest; a directory read copies as many bytes as its signed size says. */
    method FsRead(img: Image, fd: nat, buf: array<byte>, nbytes: int32) returns (r: nat)
      requires Valid() && img.Ok() && fd < MAX_OPEN_FILES && (fds[fd].FileType() == DIR_FILE_TYPE ==> nbytes >= 0)
      requires Readable(img.Disk(), fds[fd]) && Room(img.Disk(), fds[fd], Wrap32(nbytes)) <= buf.Length
      modifies fds, buf
      ensures Valid() && fds[..] == old(fds[..])[fd := Advance(img.Disk(), old(fds[fd]), Wrap32(nbytes))]
      ensures r == |Delivered(img.Disk(), old(fds[fd]), Wrap32(nbytes))| <= buf.Length
      ensures buf[..r] == Delivered(img.Disk(), old(fds[fd]), Wrap32(nbytes))
    {
      if fds[fd].FileType() == DIR_FILE_TYPE {
        r := ReadDirectory(img, fd, buf, nbytes);
      } else if fds[fd].FileType() == NORMAL_FILE_TYPE {
        r := ReadFile(img, fd, buf, Wrap32(nbytes));
      } else {
        r := 0;
      }
    }

    method ReadDirectory(img: Image, fd: nat, buf: array<byte>, nbytes: nat) returns (r: nat)
      requires Valid() && img.Ok() && fd < MAX_OPEN_FILES && fds[fd].FileType() == DIR_FILE_TYPE
      requires Room(img.Disk(), fds[fd], nbytes) <= buf.Length
      modifies fds, buf
      ensures Valid() && fds[..] == old(fds[..])[fd := Advance(img.Disk(), old(fds[fd]), nbytes)]
      ensures r == |Delivered(img.Disk(), old(fds[fd]), nbytes)| <= buf.Length
      ensures buf[..r] == Delivered(img.Disk(), old(fds[fd]), nbytes)
    {
      var d := fds[fd];
      var entry := ReadDentryByIndex(img, d.pos);
      if entry.None? {
        return 0;
      }
      fds[fd] := d.(pos := d.pos + 1);
      var name := entry.value.name + [NUL];
      if nbytes <= FILENAME_SIZE {
        forall i | 0 <= i < nbytes { buf[i] := name[i]; }
        return nbytes;
      }
      forall i | 0 <= i < FILENAME_SIZE + 1 { buf[i] := name[i]; }
      return |CString(entry.value.name, FILENAME_SIZE)|;
    }

    method ReadFile(img: Image, fd: nat, buf: array<byte>, nbytes: uint32) returns (r: nat)
      requires Valid() && img.Ok() && fd < MAX_OPEN_FILES
      requires fds[fd].FileType() == NORMAL_FILE_TYPE
      requires Readable(img.Disk(), fds[fd]) && Room(img.Disk(), fds[fd], nbytes) <= buf.Length
      modifies fds, buf
      ensures Valid() && fds[..] == old(fds[..])[fd := Advance(img.Disk(), old(fds[fd]), nbytes)]
      ensures r == |Delivered(img.Disk(), old(fds[fd]), nbytes)| <= buf.Length
      ensures buf[..r] == Delivered(img.Disk(), old(fds[fd]), nbytes)
    {
      var d := fds[fd];
      var inode := GetInodeFromPtr(img.start, d.inodePtr);
      var bytesRead := ReadData(img, inode, d.pos, buf, 0, nbytes);
      DeliveredByRead(img.Disk(), d, nbytes, old(buf[..]), buf[..], bytesRead);
      if bytesRead == -1 {
        assert fds[..] == fds[..][fd := d];
        return 0;
      }
      fds[fd] := d.(pos := d.pos + bytesRead);
      return bytesRead;
    }
  }

  /** What a read of a normal file leaves in the buffer is what the descriptor delivers. */
  lemma DeliveredByRead(disk: Disk, d: FileDesc, nbytes: nat, b: seq<byte>, b': seq<byte>, r: int)
    requires disk.Ok() && Readable(disk, d) && d.FileType() == NORMAL_FILE_TYPE
    requires Room(disk, d, nbytes) <= |b|
    requires
      if InodeOf(disk, d) >= |disk.files| then r == -1
      else ReadOutcome(disk.files[InodeOf(disk, d)], d.pos, nbytes, b, b', 0, r)
    ensures r == -1 ==> Delivered(disk, d, nbytes) == [] && Advance(disk, d, nbytes) == d
    ensures r != -1 ==> r == |Delivered(disk, d, nbytes)| <= |b'| && b'[..r] == Delivered(disk, d, nbytes)
    ensures r != -1 ==> Advance(disk, d, nbytes) == d.(pos := d.pos + r)
  {
  }
}
