/** Laying a directory and files out as an image, and reading them back: what the driver finds in an
    image is what was put there (src/filesystem.c, include/filesystem.h). */
module ImageWriter {
  import opened Layout
  import opened Filesystem
  import FileSessions

  type Block = b: seq<byte> | |b| == BLOCK_SIZE witness seq(BLOCK_SIZE, _ => 0)

  // ---- Words and blocks ----

  /** A word, lowest byte first. */
  function LittleEndian(w: uint32): (s: seq<byte>)
    ensures |s| == 4
  {
    var w1 := w / 0x100;
    var w2 := w1 / 0x100;
    [w % 0x100, w1 % 0x100, w2 % 0x100, w2 / 0x100]
  }

  lemma WordRoundTrip(s: seq<byte>, at: nat, w: uint32)
    requires at + 4 <= |s| && s[at..at + 4] == LittleEndian(w)
    ensures WordAt(s, at) == w
  {
    var t := s[at..at + 4];
    assert t[0] == s[at] && t[1] == s[at + 1] && t[2] == s[at + 2] && t[3] == s[at + 3];
  }

  function Words(ws: seq<uint32>): (s: seq<byte>)
    ensures |s| == 4 * |ws|
  {
    if ws == [] then [] else LittleEndian(ws[0]) + Words(ws[1..])
  }

  lemma {:induction false} WordsAt(ws: seq<uint32>, i: nat)
    requires i < |ws|
    ensures Words(ws)[4 * i..4 * i + 4] == LittleEndian(ws[i])
  {
    if i > 0 {
      WordsAt(ws[1..], i - 1);
      assert Words(ws)[4 * i..4 * i + 4] == Words(ws[1..])[4 * (i - 1)..4 * (i - 1) + 4];
    }
  }

  /** A block that starts with the given bytes. */
  function Padded(s: seq<byte>): (b: Block)
    requires |s| <= BLOCK_SIZE
    ensures s <= b
  {
    s + seq(BLOCK_SIZE - |s|, _ => 0)
  }

  function Flat(blocks: seq<Block>): (s: seq<byte>)
    ensures |s| == BLOCK_SIZE * |blocks|
  {
    if blocks == [] then [] else blocks[0] + Flat(blocks[1..])
  }

  lemma {:induction false} FlatAt(blocks: seq<Block>, i: nat)
    requires i < |blocks|
    ensures Flat(blocks)[BLOCK_SIZE * i..BLOCK_SIZE * i + BLOCK_SIZE] == blocks[i]
  {
    if i > 0 {
      FlatAt(blocks[1..], i - 1);
      assert Flat(blocks)[BLOCK_SIZE * i..BLOCK_SIZE * i + BLOCK_SIZE]
          == Flat(blocks[1..])[BLOCK_SIZE * (i - 1)..BLOCK_SIZE * (i - 1) + BLOCK_SIZE];
    }
  }

  // ---- The image ----

  /** The entry as the directory stores it: name, type, inode number, and spare bytes. */
  function EntryBytes(d: Dentry): (s: seq<byte>)
    requires |d.name| == FILENAME_SIZE
    ensures |s| == DENTRY_SIZE
  {
    d.name + Words([d.filetype, d.inode]) + seq(24, _ => 0)
  }

  function Entries(entries: seq<Dentry>): (s: seq<byte>)
    requires forall i :: 0 <= i < |entries| ==> |entries[i].name| == FILENAME_SIZE
    ensures |s| == DENTRY_SIZE * |entries|
  {
    if entries == [] then [] else EntryBytes(entries[0]) + Entries(entries[1..])
  }

  /** A file to be written: its bytes, and the numbers of its data blocks. */
  datatype Plan = Plan(content: seq<byte>, numbers: seq<uint32>)

  /** Every byte of the content is in the data block its number names. Any placement will do. */
  ghost predicate StoredIn(p: Plan, data: seq<Block>) {
    && |p.numbers| == |p.content| / BLOCK_SIZE + 1 <= MAX_DATA_BLOCK_COUNT
    && forall i :: 0 <= i < |p.content| ==> ByteStored(p, data, i)
  }

  predicate ByteStored(p: Plan, data: seq<Block>, i: nat)
    requires |p.numbers| == |p.content| / BLOCK_SIZE + 1 && i < |p.content|
  {
    && p.numbers[i / BLOCK_SIZE] < |data|
    && data[p.numbers[i / BLOCK_SIZE]][i % BLOCK_SIZE] == p.content[i]
  }

  datatype Volume = Volume(entries: seq<Dentry>, plans: seq<Plan>, data: seq<Block>, start: uint32) {
    /** The directory fits the boot block, and the image ends below 4 GB. */
    ghost predicate Ok() {
      && (|entries| + 1) * DENTRY_SIZE <= BLOCK_SIZE
      && (forall i :: 0 <= i < |entries| ==> |entries[i].name| == FILENAME_SIZE)
      && (forall i :: 0 <= i < |plans| ==> StoredIn(plans[i], data))
      && start + (1 + |plans| + |data|) * BLOCK_SIZE < 0x1_0000_0000
    }

    ghost function BootBlock(): Block
      requires Ok()
    {
      Padded(Words([|entries|, |plans|, |data|]) + seq(52, _ => 0) + Entries(entries))
    }

    ghost function Blocks(): seq<Block>
      requires Ok()
    {
      [BootBlock()] + seq(|plans|, i requires 0 <= i < |plans| && Ok() => InodeBlock(plans[i], data)) + data
    }

    /** The image, in whatever memory. */
    ghost function Written(outside: uint32 -> byte): Image
      requires Ok()
    {
      Image(Flat(Blocks()), start, outside)
    }
  }

  ghost function InodeBlock(p: Plan, data: seq<Block>): Block
    requires StoredIn(p, data)
  {
    Padded(Words([|p.content|] + p.numbers))
  }

  // ---- Reading it back ----

  lemma PrefixSlice(a: seq<byte>, b: seq<byte>, lo: nat, hi: nat)
    requires a <= b && lo <= hi <= |a|
    ensures b[lo..hi] == a[lo..hi]
  {
    assert a == b[..|a|];
  }

  lemma SuffixSlice(a: seq<byte>, b: seq<byte>, lo: nat, hi: nat)
    requires lo <= hi <= |b|
    ensures (a + b)[|a| + lo..|a| + hi] == b[lo..hi]
  {
  }

  lemma PaddedSlice(a: seq<byte>, rest: seq<byte>, lo: nat, hi: nat)
    requires lo <= hi <= |a| && |a| + |rest| <= BLOCK_SIZE
    ensures Padded(a + rest)[lo..hi] == a[lo..hi]
  {
    PrefixSlice(a + rest, Padded(a + rest), lo, hi);
    PrefixSlice(a, a + rest, lo, hi);
  }

  lemma SliceOfSlice(s: seq<byte>, at: nat, n: nat, lo: nat, hi: nat)
    requires lo <= hi <= n && at + n <= |s|
    ensures s[at..at + n][lo..hi] == s[at + lo..at + hi]
  {
    var t := s[at..at + n];
    forall i | 0 <= i < hi - lo
      ensures t[lo..hi][i] == s[at + lo..at + hi][i]
    {
      assert t[lo + i] == s[at + lo + i];
    }
  }

  lemma PaddedWord(ws: seq<uint32>, rest: seq<byte>, i: nat)
    requires i < |ws| && 4 * |ws| + |rest| <= BLOCK_SIZE
    ensures Padded(Words(ws) + rest)[4 * i..4 * i + 4] == LittleEndian(ws[i])
  {
    WordsAt(ws, i);
    PaddedSlice(Words(ws), rest, 4 * i, 4 * i + 4);
  }

  /** A stretch of block `b` in the image. */
  lemma ImageSlice(v: Volume, img: Image, b: nat, lo: nat, hi: nat)
    requires v.Ok() && img == v.Written(img.outside) && b < |v.Blocks()| && lo <= hi <= BLOCK_SIZE
    ensures BLOCK_SIZE * b + hi <= |img.bytes|
    ensures img.bytes[BLOCK_SIZE * b + lo..BLOCK_SIZE * b + hi] == v.Blocks()[b][lo..hi]
  {
    FlatAt(v.Blocks(), b);
    SliceOfSlice(img.bytes, BLOCK_SIZE * b, BLOCK_SIZE, lo, hi);
  }

  lemma ImageWord(v: Volume, img: Image, b: nat, at: nat, w: uint32)
    requires v.Ok() && img == v.Written(img.outside) && b < |v.Blocks()| && at + 4 <= BLOCK_SIZE
    requires v.Blocks()[b][at..at + 4] == LittleEndian(w)
    ensures BLOCK_SIZE * b + at + 4 <= |img.bytes| && img.Word(BLOCK_SIZE * b + at) == w
  {
    ImageSlice(v, img, b, at, at + 4);
    WordRoundTrip(img.bytes, BLOCK_SIZE * b + at, w);
  }

  lemma HeaderReads(v: Volume, img: Image)
    requires v.Ok() && img == v.Written(img.outside)
    ensures img.Ok() && img.NumDentries() == |v.entries| && img.NumInodes() == |v.plans|
  {
    var ws := [|v.entries|, |v.plans|, |v.data|];
    var rest := seq(52, _ => 0) + Entries(v.entries);
    assert Words(ws) + rest == Words(ws) + seq(52, _ => 0) + Entries(v.entries);
    assert v.Blocks()[0] == Padded(Words(ws) + rest);
    PaddedWord(ws, rest, 0);
    PaddedWord(ws, rest, 1);
    ImageWord(v, img, 0, 0, |v.entries|);
    ImageWord(v, img, 0, 4, |v.plans|);
  }

  lemma {:induction false} EntriesAt(entries: seq<Dentry>, i: nat)
    requires i < |entries| && forall j :: 0 <= j < |entries| ==> |entries[j].name| == FILENAME_SIZE
    ensures Entries(entries)[DENTRY_SIZE * i..DENTRY_SIZE * i + DENTRY_SIZE] == EntryBytes(entries[i])
  {
    if i > 0 {
      EntriesAt(entries[1..], i - 1);
      assert Entries(entries)[DENTRY_SIZE * i..DENTRY_SIZE * i + DENTRY_SIZE]
          == Entries(entries[1..])[DENTRY_SIZE * (i - 1)..DENTRY_SIZE * (i - 1) + DENTRY_SIZE];
    }
  }

  lemma EntryReads(s: seq<byte>, at: nat, d: Dentry)
    requires |d.name| == FILENAME_SIZE && at + DENTRY_SIZE <= |s| && s[at..at + DENTRY_SIZE] == EntryBytes(d)
    ensures s[at..at + FILENAME_SIZE] == d.name
    ensures WordAt(s, at + FILENAME_SIZE) == d.filetype && WordAt(s, at + FILENAME_SIZE + 4) == d.inode
  {
    var e := s[at..at + DENTRY_SIZE];
    WordsAt([d.filetype, d.inode], 0);
    WordsAt([d.filetype, d.inode], 1);
    assert e[..FILENAME_SIZE] == d.name;
    assert e[FILENAME_SIZE..FILENAME_SIZE + 8] == Words([d.filetype, d.inode]);
    SliceOfSlice(s, at, DENTRY_SIZE, FILENAME_SIZE, FILENAME_SIZE + 4);
    SliceOfSlice(s, at, DENTRY_SIZE, FILENAME_SIZE + 4, FILENAME_SIZE + 8);
    SliceOfSlice(e, FILENAME_SIZE, 8, 0, 4);
    SliceOfSlice(e, FILENAME_SIZE, 8, 4, 8);
    WordRoundTrip(s, at + FILENAME_SIZE, d.filetype);
    WordRoundTrip(s, at + FILENAME_SIZE + 4, d.inode);
  }

  lemma DirectoryReads(v: Volume, img: Image, i: nat)
    requires v.Ok() && img == v.Written(img.outside) && i < |v.entries|
    ensures img.Ok() && i < img.NumDentries() && img.DentryAt(i) == v.entries[i]
  {
    HeaderReads(v, img);
    var head := Words([|v.entries|, |v.plans|, |v.data|]) + seq(52, _ => 0);
    var boot, at := v.BootBlock(), DENTRY_SIZE * (i + 1);
    EntriesAt(v.entries, i);
    PrefixSlice(head + Entries(v.entries), boot, at, at + DENTRY_SIZE);
    SuffixSlice(head, Entries(v.entries), DENTRY_SIZE * i, DENTRY_SIZE * i + DENTRY_SIZE);
    ImageSlice(v, img, 0, at, at + DENTRY_SIZE);
    EntryReads(img.bytes, at, v.entries[i]);
  }

  /** Word `j` of inode block `i`: the length, then the block numbers. */
  lemma InodeWord(v: Volume, img: Image, i: nat, j: nat)
    requires v.Ok() && img == v.Written(img.outside) && i < |v.plans|
    requires j <= |v.plans[i].numbers| && StoredIn(v.plans[i], v.data)
    ensures BLOCK_SIZE * (i + 1) + 4 * j + 4 <= |img.bytes|
    ensures img.Word(BLOCK_SIZE * (i + 1) + 4 * j) == ([|v.plans[i].content|] + v.plans[i].numbers)[j]
  {
    var ws: seq<uint32> := [|v.plans[i].content|] + v.plans[i].numbers;
    assert Words(ws) + [] == Words(ws);
    PaddedWord(ws, [], j);
    assert v.Blocks()[i + 1] == InodeBlock(v.plans[i], v.data);
    ImageWord(v, img, i + 1, 4 * j, ws[j]);
  }

  lemma InodeReads(v: Volume, img: Image, i: nat)
    requires v.Ok() && img == v.Written(img.outside) && i < |v.plans|
    ensures img.Ok() && i < img.NumInodes() && img.FileLength(i) == |v.plans[i].content|
    ensures forall k :: 0 <= k < |v.plans[i].numbers| ==> img.BlockNumber(i, k) == v.plans[i].numbers[k]
  {
    HeaderReads(v, img);
    InodeWord(v, img, i, 0);
    forall k | 0 <= k < |v.plans[i].numbers|
      ensures img.BlockNumber(i, k) == v.plans[i].numbers[k]
    {
      InodeWord(v, img, i, k + 1);
    }
  }

  lemma InSlice(s: seq<byte>, at: nat, n: nat, o: nat)
    requires at + n <= |s| && o < n
    ensures s[at..at + n][0..n][o] == s[at + o]
  {
  }

  /** A block number below the number of data blocks leads to that data block. */
  lemma BlockReads(v: Volume, img: Image, number: uint32, o: nat)
    requires v.Ok() && img == v.Written(img.outside) && number < |v.data| && o < BLOCK_SIZE
    ensures img.Ok() && img.BlockPtr(number) <= img.End()
    ensures img.Mem(Wrap32(img.BlockPtr(number) + o)) == v.data[number][o]
  {
    HeaderReads(v, img);
    var b := 1 + |v.plans| + number;
    assert v.Blocks()[b] == v.data[number];
    ImageSlice(v, img, b, 0, BLOCK_SIZE);
    InSlice(img.bytes, BLOCK_SIZE * b, BLOCK_SIZE, o);
    assert img.BlockPtr(number) == v.start + BLOCK_SIZE * b;
    assert Wrap32(img.BlockPtr(number) + o) == v.start + BLOCK_SIZE * b + o;
  }

  lemma FileReads(v: Volume, img: Image, i: nat)
    requires v.Ok() && img == v.Written(img.outside) && i < |v.plans|
    ensures img.Ok() && i < img.NumInodes() && img.FileAt(i).Complete()
    ensures img.FileAt(i).Contents() == v.plans[i].content
  {
    InodeReads(v, img, i);
    var f, p := img.FileAt(i), v.plans[i];
    forall j | 0 <= j < f.length
      ensures f.Present(j / BLOCK_SIZE) && f.FileByte(j) == p.content[j]
    {
      ByteReads(v, img, i, f, j);
    }
    forall k | 0 <= k < |f.ptrs| && k * BLOCK_SIZE < f.length
      ensures f.Present(k)
    {
      InBlock(k, 0);
    }
    forall j | 0 <= j < f.length
      ensures f.Contents()[j] == p.content[j]
    {
      f.PrefixByte(f.length, j);
    }
  }

  lemma ByteReads(v: Volume, img: Image, i: nat, f: File, j: nat)
    requires v.Ok() && img == v.Written(img.outside) && i < |v.plans| && j < |v.plans[i].content|
    requires img.Ok() && InMemory(img, f) && f.Ok() && f.length == |v.plans[i].content|
    requires forall k :: 0 <= k < |f.ptrs| && k < |v.plans[i].numbers| ==>
               f.ptrs[k] == img.BlockPtr(v.plans[i].numbers[k])
    ensures f.Present(j / BLOCK_SIZE) && f.FileByte(j) == v.plans[i].content[j]
  {
    var number := v.plans[i].numbers[j / BLOCK_SIZE];
    assert StoredIn(v.plans[i], v.data) && ByteStored(v.plans[i], v.data, j);
    BlockReads(v, img, number, j % BLOCK_SIZE);
  }

  /** What is written is what the driver finds: the directory, and for every inode the file. */
  lemma ImageRoundTrip(v: Volume, outside: uint32 -> byte)
    requires v.Ok()
    ensures
      var img := v.Written(outside);
      && img.Ok() && img.Disk().entries == v.entries && |img.Disk().files| == |v.plans|
      && forall i :: 0 <= i < |v.plans| ==>
           img.Disk().files[i].Complete() && img.Disk().files[i].Contents() == v.plans[i].content
  {
    var img := v.Written(outside);
    HeaderReads(v, img);
    forall i | 0 <= i < |v.entries|
      ensures img.Disk().entries[i] == v.entries[i]
    {
      DirectoryReads(v, img, i);
    }
    forall i | 0 <= i < |v.plans|
      ensures img.Disk().files[i].Complete() && img.Disk().files[i].Contents() == v.plans[i].content
    {
      FileReads(v, img, i);
    }
  }

  lemma PlacedSlices(b: seq<byte>, b': seq<byte>, at: nat, data: seq<byte>, lo: nat, hi: nat)
    requires lo <= hi <= |data| && at + (hi - lo) <= |b| && Filesystem.Placed(b, b', at, data, lo, hi)
    ensures |b'| == |b| && b'[at..at + (hi - lo)] == data[lo..hi]
    ensures b'[..at] == b[..at] && b'[at + (hi - lo)..] == b[at + (hi - lo)..]
  {
  }

  /** So `read_data` delivers slices of what was written, at any offset and for any size. */
  lemma ReadsDeliverWritten(v: Volume, img: Image, i: nat, offset: nat, n: nat,
                            b: seq<byte>, b': seq<byte>, at: nat, r: int)
    requires v.Ok() && img == v.Written(img.outside) && img.Ok() && i < img.NumInodes() && img.FileAt(i).Ok()
    requires i < |v.plans| && at + img.FileAt(i).Available(offset, n) <= |b|
    requires ReadOutcome(img.FileAt(i), offset, n, b, b', at, r)
    ensures
      var content := v.plans[i].content;
      && r == (if |content| <= offset then 0 else Min(n, |content| - offset)) && |b'| == |b|
      && (r > 0 ==> b'[at..at + r] == content[offset..offset + r])
      && b'[..at] == b[..at] && b'[at + r..] == b[at + r..]
  {
    FileReads(v, img, i);
    var f := img.FileAt(i);
    if offset < f.length {
      FileSessions.CompleteFileNeverMisses(f, offset, offset + f.Available(offset, n));
      PlacedSlices(b, b', at, f.Contents(), offset, offset + f.Available(offset, n));
    }
  }

  // ---- Every set of files has an image ----

  function BlockCount(content: seq<byte>): nat { |content| / BLOCK_SIZE + 1 }

  function Chunk(content: seq<byte>, k: nat): Block
    requires k < BlockCount(content)
  {
    Padded(content[k * BLOCK_SIZE..Min(|content|, (k + 1) * BLOCK_SIZE)])
  }

  function Chunks(content: seq<byte>): (bs: seq<Block>) {
    seq(BlockCount(content), k requires 0 <= k < BlockCount(content) => Chunk(content, k))
  }

  /** The files one behind the other. */
  function Data(contents: seq<seq<byte>>): seq<Block> {
    if contents == [] then [] else Chunks(contents[0]) + Data(contents[1..])
  }

  /** Their block numbers, from `first` on. */
  function Plans(contents: seq<seq<byte>>, first: nat): (ps: seq<Plan>)
    requires first + |Data(contents)| < 0x1_0000_0000
    ensures |ps| == |contents| && forall i :: 0 <= i < |ps| ==> ps[i].content == contents[i]
  {
    if contents == [] then []
    else
      var n := BlockCount(contents[0]);
      [Plan(contents[0], seq(n, k requires 0 <= k < n && first + n < 0x1_0000_0000 => first + k))]
      + Plans(contents[1..], first + n)
  }

  lemma ChunkStores(content: seq<byte>, data: seq<Block>, first: uint32, i: nat)
    requires i < |content| && first + BlockCount(content) <= |data| < 0x1_0000_0000
    requires data[first..first + BlockCount(content)] == Chunks(content)
    ensures
      var p := Plan(content, seq(BlockCount(content), k requires 0 <= k < BlockCount(content) => first + k));
      ByteStored(p, data, i)
  {
    var k, o := i / BLOCK_SIZE, i % BLOCK_SIZE;
    assert data[first + k] == data[first..first + BlockCount(content)][k] == Chunk(content, k);
    var part := content[k * BLOCK_SIZE..Min(|content|, (k + 1) * BLOCK_SIZE)];
    assert part <= Padded(part) && part[o] == content[k * BLOCK_SIZE + o];
  }

  lemma {:induction false} PlansStored(contents: seq<seq<byte>>, before: seq<Block>, i: nat)
    requires |before| + |Data(contents)| < 0x1_0000_0000 && i < |contents|
    requires forall j :: 0 <= j < |contents| ==> BlockCount(contents[j]) <= MAX_DATA_BLOCK_COUNT
    ensures StoredIn(Plans(contents, |before|)[i], before + Data(contents))
    decreases i
  {
    var data := before + Data(contents);
    if i == 0 {
      var c := contents[0];
      assert data[|before|..|before| + BlockCount(c)] == Chunks(c);
      forall j | 0 <= j < |c|
        ensures ByteStored(Plans(contents, |before|)[0], data, j)
      {
        ChunkStores(c, data, |before|, j);
      }
    } else {
      var before' := before + Chunks(contents[0]);
      PlansStored(contents[1..], before', i - 1);
      assert data == before' + Data(contents[1..]);
    }
  }

  /** Any files of at most 63 blocks that fit into memory together can be written, under any directory
      that fits the boot block. */
  lemma AnyFilesCanBeWritten(entries: seq<Dentry>, contents: seq<seq<byte>>, start: uint32) returns (v: Volume)
    requires (|entries| + 1) * DENTRY_SIZE <= BLOCK_SIZE
    requires forall i :: 0 <= i < |entries| ==> |entries[i].name| == FILENAME_SIZE
    requires forall i :: 0 <= i < |contents| ==> BlockCount(contents[i]) <= MAX_DATA_BLOCK_COUNT
    requires start + (1 + |contents| + |Data(contents)|) * BLOCK_SIZE < 0x1_0000_0000
    ensures v.Ok() && v.entries == entries && v.start == start && |v.plans| == |contents|
    ensures forall i :: 0 <= i < |contents| ==> v.plans[i].content == contents[i]
  {
    v := Volume(entries, Plans(contents, 0), Data(contents), start);
    forall i | 0 <= i < |contents|
      ensures StoredIn(v.plans[i], v.data)
    {
      PlansStored(contents, [], i);
      assert [] + Data(contents) == Data(contents);
    }
  }
}
