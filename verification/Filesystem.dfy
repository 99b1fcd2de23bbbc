/** The read-only block file system (src/filesystem.c). An image is the byte string between
    `fs_start_addr` and `fs_end_addr` in 32-bit memory; pointers are 32-bit words. */
module Filesystem {
  import opened Layout

  const BLOCK_SIZE := 4096
  const DENTRY_SIZE := 64
  const MAX_DATA_BLOCK_COUNT := 63

  /** One file as the block array of its inode presents it: `ptrs[k]` is the address of its
      `k`-th data block. The array has a slot past the last byte when the length is a multiple
      of the block size. `mem` is the memory, and `end` the end of the image in it. */
  datatype File = File(mem: uint32 -> byte, end: uint32, length: uint32, ptrs: seq<uint32>) {
    /** The driver accepts block `k`: it does not start behind the image. */
    predicate Present(k: nat)
      requires k < |ptrs|
    {
      ptrs[k] <= end
    }

    /** The block array fits its 63 slots. */
    ghost predicate Ok() { |ptrs| == length / BLOCK_SIZE + 1 <= MAX_DATA_BLOCK_COUNT }

    /** No block that holds file bytes is missing. */
    ghost predicate Complete() {
      Ok() && forall k :: 0 <= k < |ptrs| && k * BLOCK_SIZE < length ==> Present(k)
    }

    /** Byte `i` of the flat file; no read delivers the bytes of a missing block. */
    ghost function FileByte(i: nat): byte
      requires Ok() && i < length
    {
      mem(Wrap32(ptrs[i / BLOCK_SIZE] + i % BLOCK_SIZE))
    }

    /** The first `n` bytes of the flat file. */
    ghost function Prefix(n: nat): (data: seq<byte>)
      requires Ok() && n <= length
      ensures |data| == n
    {
      if n == 0 then [] else Prefix(n - 1) + [FileByte(n - 1)]
    }

    /** The flat file, gathered from its blocks. */
    ghost function Contents(): (data: seq<byte>)
      requires Ok()
      ensures |data| == length
    {
      Prefix(length)
    }

    lemma {:induction false} PrefixByte(n: nat, i: nat)
      requires Ok() && i < n <= length
      ensures Prefix(n)[i] == FileByte(i)
    {
      if i < n - 1 {
        PrefixByte(n - 1, i);
      }
    }

    /** Bytes a read of `n` at `offset` can deliver. */
    function Available(offset: nat, n: nat): nat {
      if length <= offset then 0 else Min(n, length - offset)
    }

    /** A read of the bytes from `offset` up to `end` meets a missing block. The block of
        `offset` itself is inspected even when no byte is wanted. */
    predicate Misses(offset: nat, end: nat)
      requires offset / BLOCK_SIZE < |ptrs|
    {
      !Present(offset / BLOCK_SIZE) || MissesFrom(offset / BLOCK_SIZE + 1, end)
    }

    /** Some block from `first` on that holds bytes below `end` is missing. */
    predicate MissesFrom(first: nat, end: nat) {
      exists k :: first <= k < |ptrs| && k * BLOCK_SIZE < end && !Present(k)
    }
  }

  /** The little-endian word at an offset. */
  function WordAt(bytes: seq<byte>, at: nat): uint32
    requires at + 4 <= |bytes|
  {
    (bytes[at] as int) + 0x100 * (bytes[at + 1] as int)
    + 0x1_0000 * (bytes[at + 2] as int) + 0x100_0000 * (bytes[at + 3] as int)
  }

  /** `outside` is the memory around the image. */
  datatype Image = Image(bytes: seq<byte>, start: uint32, outside: uint32 -> byte) {
    function End(): int { start + |bytes| }

    function Mem(a: uint32): byte { if start <= a < End() then bytes[a - start] else outside(a) }

    function Word(at: nat): uint32
      requires at + 4 <= |bytes|
    {
      WordAt(bytes, at)
    }

    predicate Mapped() { BLOCK_SIZE <= |bytes| && End() < 0x1_0000_0000 }

    function NumDentries(): uint32 requires Mapped() { Word(0) }

    function NumInodes(): uint32 requires Mapped() { Word(4) }

    /** All directory entries are in the boot block and all inode blocks are in the image. */
    predicate Ok() {
      && Mapped()
      && (NumDentries() + 1) * DENTRY_SIZE <= BLOCK_SIZE
      && (NumInodes() + 1) * BLOCK_SIZE <= |bytes|
    }

    /** Address of a data block, in 32-bit arithmetic. */
    function BlockPtr(number: uint32): uint32
      requires Ok()
    {
      Wrap32((number + NumInodes() + 1) * BLOCK_SIZE + start)
    }

    function FileLength(inode: uint32): uint32
      requires Ok() && inode < NumInodes()
    {
      Word((inode + 1) * BLOCK_SIZE)
    }

    function BlockNumber(inode: uint32, k: nat): uint32
      requires Ok() && inode < NumInodes() && k < 1023
    {
      Word((inode + 1) * BLOCK_SIZE + 4 + 4 * k)
    }

    /** The file of an inode; one too long for the block array has no blocks and is not Ok. */
    function FileAt(inode: uint32): File
      requires Ok() && inode < NumInodes()
    {
      var n := FileLength(inode);
      var count := if n / BLOCK_SIZE < MAX_DATA_BLOCK_COUNT then n / BLOCK_SIZE + 1 else 0;
      File((a: uint32) => Mem(a), End(), n, seq(count, k requires 0 <= k < count => BlockPtr(BlockNumber(inode, k))))
    }

    /** Entry `i`; its name is padded or cut to 32 bytes. */
    function DentryAt(i: nat): Dentry
      requires Ok() && i < NumDentries()
    {
      var at := (i + 1) * DENTRY_SIZE;
      Dentry(bytes[at..at + FILENAME_SIZE], Word(at + FILENAME_SIZE), Word(at + FILENAME_SIZE + 4))
    }

    /** Everything the driver can find in the image. */
    function Disk(): (d: Disk)
      requires Ok()
      ensures |d.entries| == NumDentries() && |d.files| == NumInodes() && d.Ok()
    {
      DiskOf(inode => GetInodePtr(start, inode),
              ptr => GetInodeFromPtr(start, ptr),
              seq(NumDentries(), i requires 0 <= i < NumDentries() => DentryAt(i)),
              seq(NumInodes(), i requires 0 <= i < NumInodes() => FileAt(i)))
    }
  }

  datatype Dentry = Dentry(name: seq<byte>, filetype: uint32, inode: uint32)

  /** An image parsed: the two conversions between inode numbers and the pointers kept in file
      descriptors, the directory in order, and the file of every inode. */
  datatype Disk = DiskOf(inodePtr: uint32 -> uint32, inodeOf: uint32 -> uint32, entries: seq<Dentry>,
                         files: seq<File>) {
    predicate Ok() {
      && |entries| < 0x1_0000_0000 && |files| < 0x1_0000_0000
      && forall i :: 0 <= i < |entries| ==> |entries[i].name| == FILENAME_SIZE
    }
  }

  function GetInodePtr(start: uint32, inode: uint32): uint32 {
    Wrap32(Wrap32(inode + 1) * BLOCK_SIZE + start)
  }

  /** C division, toward zero. */
  function TruncDiv(a: int, b: int): int
    requires b > 0
  {
    if a >= 0 then a / b else -(-a / b)
  }

  function GetInodeFromPtr(start: uint32, ptr: uint32): uint32 {
    Wrap32(TruncDiv(Signed32(Wrap32(ptr - start)), BLOCK_SIZE) - 1)
  }

  /** The pointer stored in a descriptor leads back to its inode exactly for the inode numbers
      whose block lies within 2 GB of the image start, on either side. */
  lemma InodePtrRoundTrip(start: uint32, inode: uint32)
    ensures GetInodeFromPtr(start, GetInodePtr(start, inode)) == inode
       <==> inode + 1 < 0x8_0000 || inode + 1 >= 0x1_0000_0000 - 0x8_0000
  {
    var m := (inode + 1) % 0x10_0000;
    InodePtrOffset(start, inode);
    var k := if m < 0x8_0000 then m else m - 0x10_0000;
    assert Signed32(m * BLOCK_SIZE) == k * BLOCK_SIZE;
    TruncDivMultiple(k);
    assert GetInodeFromPtr(start, GetInodePtr(start, inode)) == Wrap32(k - 1);
    SignedBlockNumber(inode, m, k);
  }

  lemma SignedBlockNumber(inode: uint32, m: nat, k: int)
    requires m == (inode + 1) % 0x10_0000 && k == if m < 0x8_0000 then m else m - 0x10_0000
    ensures Wrap32(k - 1) == inode <==> inode + 1 < 0x8_0000 || inode + 1 >= 0x1_0000_0000 - 0x8_0000
  {
  }

  lemma TruncDivMultiple(k: int)
    ensures TruncDiv(k * BLOCK_SIZE, BLOCK_SIZE) == k
  {
  }

  lemma InodePtrOffset(start: uint32, inode: uint32)
    ensures Wrap32(GetInodePtr(start, inode) - start) == (inode + 1) % 0x10_0000 * BLOCK_SIZE
  {
  }

  /** Which block numbers the driver accepts, where its 32-bit arithmetic does not wrap: those of the
      data blocks in the image, and one more. */
  lemma AcceptedNumbers(img: Image, inode: uint32, k: nat)
    requires img.Ok() && inode < img.NumInodes() && k < |img.FileAt(inode).ptrs| && |img.bytes| % BLOCK_SIZE == 0
    requires img.start + (img.NumInodes() + 1 + img.BlockNumber(inode, k)) * BLOCK_SIZE < 0x1_0000_0000
    ensures
      var dataBlocks := |img.bytes| / BLOCK_SIZE - 1 - img.NumInodes();
      img.FileAt(inode).Present(k) <==> img.BlockNumber(inode, k) <= dataBlocks
  {
  }

  /** `b'` is `b` with the bytes `data[lo..hi]` written over it from `at` on. */
  ghost predicate Placed(b: seq<byte>, b': seq<byte>, at: nat, data: seq<byte>, lo: nat, hi: nat)
    requires lo <= hi <= |data| && at + (hi - lo) <= |b|
  {
    && |b'| == |b|
    && forall i :: 0 <= i < |b| ==> b'[i] == if at <= i < at + (hi - lo) then data[lo + (i - at)] else b[i]
  }

  /** Writing the next stretch of `data` right behind the previous one. */
  lemma PlacedExtends(b: seq<byte>, b': seq<byte>, b'': seq<byte>, at: nat, data: seq<byte>, lo: nat, mid: nat, hi: nat)
    requires lo <= mid <= hi <= |data| && at + (hi - lo) <= |b|
    requires Placed(b, b', at, data, lo, mid) && Placed(b', b'', at + (mid - lo), data, mid, hi)
    ensures Placed(b, b'', at, data, lo, hi)
  {
  }

  /** Some prefix of `data[lo..hi]` has been written at `at`. */
  ghost predicate PrefixPlaced(b: seq<byte>, b': seq<byte>, at: nat, data: seq<byte>, lo: nat, hi: nat)
    requires lo <= hi <= |data| && at + (hi - lo) <= |b|
  {
    exists mid | lo <= mid <= hi :: Placed(b, b', at, data, lo, mid)
  }

  /** Gathers file bytes from scattered blocks into `buf` at `at`: a partial first block, whole
      middle blocks, a partial last block. The result is the flat slice. A missing block makes
      the read fail after a correct prefix. */
  method ReadData(img: Image, inode: uint32, offset: uint32, buf: array<byte>, at: nat, length: uint32)
    returns (r: int)
    requires img.Ok()
    requires inode < img.NumInodes() ==>
               img.FileAt(inode).Ok() && at + img.FileAt(inode).Available(offset, length) <= buf.Length
    modifies buf
    ensures inode >= img.NumInodes() ==> r == -1 && buf[..] == old(buf[..])
    ensures inode < img.NumInodes() ==> ReadOutcome(img.FileAt(inode), offset, length, old(buf[..]), buf[..], at, r)
  {
    if inode >= img.NumInodes() {
      return -1;
    }
    var fileLength := img.FileLength(inode);
    if fileLength <= offset {
      return 0;
    }
    var want := length;
    if want > fileLength - offset {
      want := fileLength - offset;
    }
    var dataBlocks := LoadBlockNumbers(img, inode, fileLength / BLOCK_SIZE + 1);
    r := ReadFirstBlock(img, img.FileAt(inode), dataBlocks, offset, buf, at, want);
  }

  /** What `read_data` of `n` bytes at `offset` returns and leaves in the buffer. */
  ghost predicate ReadOutcome(f: File, offset: nat, n: nat, b: seq<byte>, b': seq<byte>, at: nat, r: int)
    requires f.Ok() && at + f.Available(offset, n) <= |b|
  {
    var got := f.Available(offset, n);
    if f.length <= offset then r == 0 && b' == b
    else if f.Misses(offset, offset + got) then r == -1 && PrefixPlaced(b, b', at, f.Contents(), offset, offset + got)
    else r == got && Placed(b, b', at, f.Contents(), offset, offset + got)
  }

  /** The file's blocks are read from the memory around and in the image. */
  ghost predicate InMemory(img: Image, f: File) { f.end == img.End() && forall a: uint32 :: f.mem(a) == img.Mem(a) }

  /** The array holds the block numbers behind the file's pointers. */
  ghost predicate BlocksLoaded(img: Image, f: File, dataBlocks: array<uint32>)
    requires img.Ok()
    reads dataBlocks
  {
    && InMemory(img, f) && dataBlocks.Length == MAX_DATA_BLOCK_COUNT
    && forall k :: 0 <= k < |f.ptrs| && k < dataBlocks.Length ==> img.BlockPtr(dataBlocks[k]) == f.ptrs[k]
  }

  /** The part of `read_data` after clipping: 0 or more bytes that exist in the file. */
  method ReadFirstBlock(img: Image, ghost f: File, dataBlocks: array<uint32>, offset: uint32,
                        buf: array<byte>, at: nat, want: nat)
    returns (r: int)
    requires img.Ok() && f.Ok() && BlocksLoaded(img, f, dataBlocks) && dataBlocks as object != buf
    requires offset < f.length && offset + want <= f.length && at + want <= buf.Length
    modifies buf
    ensures
      if f.Misses(offset, offset + want) then
        r == -1 && PrefixPlaced(old(buf[..]), buf[..], at, f.Contents(), offset, offset + want)
      else
        r == want && Placed(old(buf[..]), buf[..], at, f.Contents(), offset, offset + want)
  {
    var curr, skip := offset / BLOCK_SIZE, offset % BLOCK_SIZE;
    assert offset == curr * BLOCK_SIZE + skip;
    var ptr := img.BlockPtr(dataBlocks[curr]);
    if ptr > img.End() {
      assert Placed(buf[..], buf[..], at, f.Contents(), offset, offset);
      return -1;
    }
    assert f.Present(curr);
    var blockEnd := Wrap32(ptr + BLOCK_SIZE);
    RestOfBlock(ptr, skip);
    ptr := Wrap32(ptr + skip);
    var rem := Wrap32(blockEnd - ptr);

    if want < rem {
      CopyFileBytes(img, f, curr, skip, ptr, buf, at, want);
      return want;
    }
    CopyFileBytes(img, f, curr, skip, ptr, buf, at, rem);
    assert offset + rem == (curr + 1) * BLOCK_SIZE;
    r := ReadBlocks(img, f, dataBlocks, curr + 1, buf, at, at + rem, want - rem, offset, old(buf[..]));
    if r != -1 {
      r := rem + r;
    }
  }

  /** The block-by-block part of `read_data`: `n` bytes from the start of block `first`, after
      the bytes from `offset` on have been placed from `base` on. Every entry of the block
      array it looks at, the one past the last byte included, was loaded. */
  method ReadBlocks(img: Image, ghost f: File, dataBlocks: array<uint32>, first: nat, buf: array<byte>,
                    ghost base: nat, at: nat, n: nat, ghost offset: nat, ghost before: seq<byte>)
    returns (r: int)
    requires img.Ok() && f.Ok() && BlocksLoaded(img, f, dataBlocks) && dataBlocks as object != buf
    requires first * BLOCK_SIZE + n <= f.length && at + n <= buf.Length == |before|
    requires offset <= first * BLOCK_SIZE && at == base + (first * BLOCK_SIZE - offset)
    requires Placed(before, buf[..], base, f.Contents(), offset, first * BLOCK_SIZE)
    modifies buf
    ensures
      var end := first * BLOCK_SIZE + n;
      if f.MissesFrom(first, end) then
        r == -1 && PrefixPlaced(before, buf[..], base, f.Contents(), offset, end)
      else
        r == n && Placed(before, buf[..], base, f.Contents(), offset, end)
  {
    var curr := first;
    var ptr := img.BlockPtr(dataBlocks[curr]);
    var bytesRead := 0;
    while bytesRead < n
      invariant bytesRead <= n && curr < |f.ptrs|
      invariant first * BLOCK_SIZE + bytesRead == curr * BLOCK_SIZE
      invariant ptr == f.ptrs[curr]
      invariant forall k :: first <= k < curr ==> f.Present(k)
      invariant Placed(before, buf[..], base, f.Contents(), offset, curr * BLOCK_SIZE)
    {
      if ptr > img.End() {
        assert !f.Present(curr);
        return -1;
      }
      assert f.Present(curr);
      var rem := n - bytesRead;
      if rem < BLOCK_SIZE {
        AppendFileBytes(img, f, curr, ptr, buf, base, at + bytesRead, rem, offset, before);
        return n;
      }
      AppendFileBytes(img, f, curr, ptr, buf, base, at + bytesRead, BLOCK_SIZE, offset, before);
      bytesRead := bytesRead + BLOCK_SIZE;
      curr := curr + 1;
      ptr := img.BlockPtr(dataBlocks[curr]);
    }
    return bytesRead;
  }

  /** The loop that fills the inode's block array. */
  method LoadBlockNumbers(img: Image, inode: uint32, count: nat) returns (dataBlocks: array<uint32>)
    requires img.Ok() && inode < img.NumInodes() && count <= MAX_DATA_BLOCK_COUNT
    ensures fresh(dataBlocks) && dataBlocks.Length == MAX_DATA_BLOCK_COUNT
    ensures forall k :: 0 <= k < count ==> dataBlocks[k] == img.BlockNumber(inode, k)
  {
    dataBlocks := new uint32[MAX_DATA_BLOCK_COUNT];
    var inodePtr := (inode + 1) * BLOCK_SIZE + 4;
    for i := 0 to count
      invariant inodePtr == (inode + 1) * BLOCK_SIZE + 4 + 4 * i
      invariant forall k :: 0 <= k < i ==> dataBlocks[k] == img.BlockNumber(inode, k)
    {
      dataBlocks[i] := img.Word(inodePtr);
      inodePtr := inodePtr + 4;
    }
  }

  /** A `memcpy` of `n` file bytes that lie in block `k`, from its byte `skip` on. */
  method CopyFileBytes(img: Image, ghost f: File, k: nat, skip: nat, ptr: uint32, buf: array<byte>, at: nat, n: nat)
    requires f.Ok() && InMemory(img, f)
    requires k < |f.ptrs| && k * BLOCK_SIZE + skip + n <= f.length
    requires skip + n <= BLOCK_SIZE && f.Present(k) && ptr == Wrap32(f.ptrs[k] + skip)
    requires at + n <= buf.Length
    modifies buf
    ensures Placed(old(buf[..]), buf[..], at, f.Contents(), k * BLOCK_SIZE + skip, k * BLOCK_SIZE + skip + n)
  {
    forall i | 0 <= i < n {
      buf[at + i] := img.Mem(Wrap32(ptr + i));
    }
    forall j | k * BLOCK_SIZE + skip <= j < k * BLOCK_SIZE + skip + n
      ensures f.Contents()[j] == f.mem(Wrap32(ptr + (j - (k * BLOCK_SIZE + skip))))
    {
      BlockByte(f, k, j - k * BLOCK_SIZE, skip);
    }
  }

  /** Byte `i` of block `k`, reached from byte `skip` of the block. */
  lemma BlockByte(f: File, k: nat, i: nat, skip: nat)
    requires f.Ok() && k < |f.ptrs| && skip <= i < BLOCK_SIZE && k * BLOCK_SIZE + i < f.length
    ensures f.Contents()[k * BLOCK_SIZE + i] == f.mem(Wrap32(Wrap32(f.ptrs[k] + skip) + (i - skip)))
  {
    InBlock(k, i);
    f.PrefixByte(f.length, k * BLOCK_SIZE + i);
    WrapSum(f.ptrs[k] + skip, i - skip);
  }

  /** Copies `n` bytes from the start of block `k` right behind the bytes placed so far. */
  method AppendFileBytes(img: Image, ghost f: File, k: nat, ptr: uint32, buf: array<byte>,
                         ghost base: nat, at: nat, n: nat, ghost offset: nat, ghost before: seq<byte>)
    requires f.Ok() && InMemory(img, f)
    requires k < |f.ptrs| && k * BLOCK_SIZE + n <= f.length
    requires n <= BLOCK_SIZE && f.Present(k) && ptr == f.ptrs[k]
    requires at + n <= buf.Length == |before|
    requires offset <= k * BLOCK_SIZE && at == base + (k * BLOCK_SIZE - offset)
    requires Placed(before, buf[..], base, f.Contents(), offset, k * BLOCK_SIZE)
    modifies buf
    ensures Placed(before, buf[..], base, f.Contents(), offset, k * BLOCK_SIZE + n)
  {
    CopyFileBytes(img, f, k, 0, ptr, buf, at, n);
    PlacedExtends(before, old(buf[..]), buf[..], base, f.Contents(), offset, k * BLOCK_SIZE, k * BLOCK_SIZE + n);
  }

  lemma InBlock(k: nat, i: nat)
    requires i < BLOCK_SIZE
    ensures (k * BLOCK_SIZE + i) / BLOCK_SIZE == k && (k * BLOCK_SIZE + i) % BLOCK_SIZE == i
  {
  }

  lemma WrapSum(a: nat, b: nat)
    ensures Wrap32(Wrap32(a) + b) == Wrap32(a + b)
  {
  }

  /** From `skip` bytes into a block to its end, wherever in memory the block is. */
  lemma RestOfBlock(ptr: uint32, skip: nat)
    requires skip < BLOCK_SIZE
    ensures Wrap32(Wrap32(ptr + BLOCK_SIZE) - Wrap32(ptr + skip)) == BLOCK_SIZE - skip
  {
  }
}
