/** From files laid out in an image to what `open`, `read` and `execute` find there
    (src/filesystem.c, src/syscalls/syscalls.c). */
module Volumes {
  import opened Layout
  import opened Filesystem
  import opened Files
  import opened OpenFiles
  import opened FileSessions
  import opened Programs
  import opened ImageWriter
  import Command

  /** Entry `i` is the first with the name. */
  predicate FirstNamed(entries: seq<Dentry>, fname: seq<byte>, i: nat) {
    i < |entries| && Named(entries[i], fname) && forall j :: 0 <= j < i ==> !Named(entries[j], fname)
  }

  lemma FirstIsFound(entries: seq<Dentry>, fname: seq<byte>, i: nat)
    requires FirstNamed(entries, fname, i)
    ensures Lookup(entries, fname, 0) == Some(i)
  {
  }

  /** A file that was laid out is read back: through the descriptor `open` gives, reads of any sizes,
      whatever else the session does, deliver its bytes in order, as many as asked for or all. */
  lemma WrittenFileIsReadBack(v: Volume, disk: Disk, outside: uint32 -> byte, fds: Fds, fname: seq<byte>, i: nat,
                              fds': Fds, fd: nat, ops: seq<Op>)
    requires v.Ok() && v.Written(outside).Ok() && disk == v.Written(outside).Disk()
    requires FirstNamed(v.entries, fname, i) && v.entries[i].filetype == NORMAL_FILE_TYPE
    requires v.entries[i].inode < |v.plans| && v.entries[i].inode + 1 < 0x8_0000
    requires OpenFile(disk, fds, fname) == (fd, fds') && Session(disk, fds', ops)
    requires forall k :: 0 <= k < |ops| ==> ops[k] != OpClose(fd)
    ensures
      var content := v.plans[v.entries[i].inode].content;
      Flatten(Gather(disk, fds', ops, fd)) == content[..Min(|content|, Sum(Sizes(ops, fd)))]
  {
    var img, inode := v.Written(outside), v.entries[i].inode;
    ImageRoundTrip(v, outside);
    FirstIsFound(v.entries, fname, i);
    DiskPointersLeadBack(img, inode);
    OpenedDescriptorFindsFile(disk, fds, fname, v.entries[i]);
    ChunkedReadsRebuildFile(disk, fds', ops, fd, disk.files[inode]);
  }

  const MAGIC: seq<byte> := [0x7F, 0x45, 0x4C, 0x46]

  /** The program a command line starts, from what was laid out: that of the first entry named by the
      first word, if the pointer is in the user's or the kernel's window and the file starts with the
      magic number; and none otherwise. */
  lemma CommandFindsWrittenProgram(v: Volume, outside: uint32 -> byte, addr: uint32, command: seq<byte>, i: nat)
    requires v.Ok() && v.Written(outside).Ok() && Command.Terminated(command)
    requires FirstNamed(v.entries, Command.Name(command), i)
    ensures
      var inode := v.entries[i].inode;
      Program(v.Written(outside), addr, command)
      == if (0x800_0000 <= addr < 0x840_0000 || 0x40_0000 <= addr < 0x80_0000)
            && inode < |v.plans| && MAGIC <= v.plans[inode].content
         then Some(inode) else None
  {
    var img, inode := v.Written(outside), v.entries[i].inode;
    ImageRoundTrip(v, outside);
    FirstIsFound(v.entries, Command.Name(command), i);
    if inode < |v.plans| {
      MagicIsElf(img.FileAt(inode), v.plans[inode].content);
    }
  }

  lemma NoEntryNoProgram(v: Volume, outside: uint32 -> byte, addr: uint32, command: seq<byte>)
    requires v.Ok() && v.Written(outside).Ok() && Command.Terminated(command)
    requires forall j :: 0 <= j < |v.entries| ==> !Named(v.entries[j], Command.Name(command))
    ensures Program(v.Written(outside), addr, command) == None
  {
    ImageRoundTrip(v, outside);
  }

  lemma MagicIsElf(f: File, content: seq<byte>)
    requires f.Complete() && f.Contents() == content
    ensures IsElf(f) <==> MAGIC <= content
  {
    if f.length >= 4 {
      CompleteFileNeverMisses(f, 0, 4);
      assert MAGIC <= content <==> content[..4] == MAGIC;
    }
  }
}
