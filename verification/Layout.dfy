/** Machine words, sizes, and the memory map of the kernel (include/lib.h, include/paging.h,
    include/process.h, include/filesystem.h), with the arithmetic that keeps its regions apart. */
module Layout {

  type byte = x: int | 0 <= x < 0x100
  type uint32 = x: int | 0 <= x < 0x1_0000_0000
  type int32 = x: int | -0x8000_0000 <= x < 0x8000_0000

  datatype Option<T> = None | Some(value: T)

  function Min(a: int, b: int): int { if a < b then a else b }

  function Max(a: int, b: int): int { if a > b then a else b }

  const NUL: byte := 0
  const NL: byte := 0x0A
  const SPACE: byte := 0x20

  const FILENAME_SIZE := 32

  const KB1 := 0x400
  const KB4 := 0x1000
  const KB8 := 0x2000
  const MB4 := 0x40_0000
  const MB8 := 0x80_0000
  const MB64 := 0x400_0000
  const MB128 := 0x800_0000

  const NULL: nat := 0
  const MAX_PROCESSES := 6
  const MAX_TERMINALS := 3

  /** The PID table may grow to this size before a user frame meets the backup pages. */
  const PID_LIMIT := 14
  /** One page table holds this many backup pages. */
  const TERM_LIMIT := 1024

  const VIDEO_MEM_START := 0xB8000
  const VIDEO_MEM_INDEX := 0xB8
  const KERNEL_MEM_START := MB4
  const VID_BKUP_MEM_START_VIRT := MB128 + MB8
  const VID_BKUP_MEM_START_PHYS := MB64
  const USER_VIDEO_MEM_ADDR := MB128 + MB4
  const IMAGE_LOAD_OFFSET := 0x48000

  const ESP_PCB_MASK: uint32 := 0xFFFF_E000

  /** The addresses of the page a user process runs in. */
  predicate InUserWindow(addr: uint32) { MB128 <= addr < MB128 + MB4 }

  /** `x` reduced to the machine's 32-bit words. */
  function Wrap32(x: int): uint32 { x % 0x1_0000_0000 }

  /** The signed reading of a 32-bit word. */
  function Signed32(x: uint32): int32 { if x < 0x8000_0000 then x else x - 0x1_0000_0000 }

  /** `esp & ESP_PCB_MASK`, the way the kernel finds the PCB below its stack. */
  function MaskEsp(esp: uint32): uint32 { esp - esp % KB8 }

  /** Bitwise and. */
  function BitAnd(a: nat, b: nat): nat {
    if a == 0 || b == 0 then 0 else 2 * BitAnd(a / 2, b / 2) + (if a % 2 == 1 && b % 2 == 1 then 1 else 0)
  }

  function ShiftLeft(a: nat, n: nat): (r: nat)
    ensures a > 0 ==> r > 0
  {
    if n == 0 then a else 2 * ShiftLeft(a, n - 1)
  }

  function ShiftRight(a: nat, n: nat): nat { if n == 0 then a else ShiftRight(a / 2, n - 1) }

  /** A mask of ones keeps a number that fits it. */
  lemma {:induction false} AndOnes(a: nat, n: nat)
    requires ShiftRight(a, n) == 0
    ensures BitAnd(a, ShiftLeft(1, n) - 1) == a
  {
    if n > 0 {
      AndOnes(a / 2, n - 1);
    }
  }

  /** A mask with `n` zeros at its low end clears the `n` low bits. */
  lemma {:induction false} AndShifted(a: nat, mask: nat, n: nat)
    ensures BitAnd(a, ShiftLeft(mask, n)) == ShiftLeft(BitAnd(ShiftRight(a, n), mask), n)
  {
    if n > 0 {
      AndShifted(a / 2, mask, n - 1);
    }
  }

  lemma {:induction false} ShiftLeftIs(a: nat, n: nat)
    ensures ShiftLeft(a, n) == a * ShiftLeft(1, n)
  {
    if n > 0 {
      ShiftLeftIs(a, n - 1);
      assert 2 * (a * ShiftLeft(1, n - 1)) == a * (2 * ShiftLeft(1, n - 1));
    }
  }

  lemma {:induction false} ShiftRightIs(a: nat, n: nat)
    ensures ShiftRight(a, n) == a / ShiftLeft(1, n)
  {
    if n > 0 {
      ShiftRightIs(a / 2, n - 1);
      Halved(a, ShiftLeft(1, n - 1));
    }
  }

  lemma DivisionIs(w: nat, unit: nat, q: nat, r: nat)
    requires w == q * unit + r && r < unit
    ensures w / unit == q && w % unit == r
  {
    var d := w / unit;
    assert d + 1 <= q ==> (d + 1) * unit <= q * unit;
    assert q + 1 <= d ==> (q + 1) * unit <= d * unit;
  }

  lemma Halved(a: nat, p: nat)
    requires p > 0
    ensures a / 2 / p == a / (2 * p)
  {
    var q, r := a / 2 / p, a / 2 % p;
    assert a / 2 == q * p + r;
    assert 2 * (q * p) == q * (2 * p);
    DivisionIs(a, 2 * p, q, 2 * r + a % 2);
  }

  /** The subtraction in `MaskEsp` is the masking of the code, on every 32-bit word. */
  lemma MaskIsBitwiseAnd(esp: uint32)
    ensures BitAnd(esp, ESP_PCB_MASK) == MaskEsp(esp)
  {
    assert ShiftLeft(1, 4) == 0x10;
    assert ShiftLeft(1, 8) == 0x100;
    assert ShiftLeft(1, 13) == KB8;
    assert ShiftLeft(1, 19) == 0x8_0000;
    ShiftRightIs(esp, 13);
    ShiftRightIs(esp / KB8, 19);
    AndOnes(esp / KB8, 19);
    ShiftLeftIs(0x7_FFFF, 13);
    AndShifted(esp, 0x7_FFFF, 13);
    ShiftLeftIs(esp / KB8, 13);
  }

  type Pid = p: int | 1 <= p <= PID_LIMIT witness 1

  /** Initial kernel stack pointer of a process, also its `esp0`. */
  function KernelStackTop(pid: Pid): uint32 { MB8 - 4 - (pid - 1) * KB8 }

  /** The PCB sits at the low end of the 8 KB block that holds the kernel stack. */
  function PcbAddr(pid: Pid): uint32 { MB8 - pid * KB8 }

  /** Physical base of the 4 MB user frame. */
  function UserFrame(pid: Pid): uint32 { MB8 + MB4 * (pid - 1) }

  function VirtBackup(term: nat): nat { VID_BKUP_MEM_START_VIRT + term * KB4 }

  function PhysBackup(term: nat): nat { VID_BKUP_MEM_START_PHYS + term * KB4 }

  predicate InKernelStack(esp: uint32, pid: Pid) {
    PcbAddr(pid) <= esp < PcbAddr(pid) + KB8
  }

  /** Masking recovers the PCB from any stack pointer of the process, and from no other word:
      the stack pointers of a process are exactly those that mask to its PCB. */
  lemma StackPointerFindsPcb(esp: uint32, pid: Pid)
    ensures InKernelStack(esp, pid) <==> MaskEsp(esp) == PcbAddr(pid)
    ensures InKernelStack(KernelStackTop(pid), pid)
    ensures MaskEsp(KernelStackTop(pid)) == PcbAddr(pid) != NULL
  {
  }

  /** So the bitwise mask of the code finds the PCB from exactly the stack pointers of its process. */
  lemma MaskedStackPointer(esp: uint32, pid: Pid)
    ensures InKernelStack(esp, pid) <==> BitAnd(esp, ESP_PCB_MASK) == PcbAddr(pid)
  {
    MaskIsBitwiseAnd(esp);
    StackPointerFindsPcb(esp, pid);
  }

  predicate Disjoint(start: nat, size: nat, start': nat, size': nat) {
    start + size <= start' || start' + size' <= start
  }

  /** Kernel stacks lie in the kernel page and do not overlap; user frames do not overlap and
      avoid the low 4 MB (with the video page), the kernel page and every backup page. */
  lemma RegionsAreDisjoint(p: Pid, q: Pid, term: nat)
    requires term < TERM_LIMIT
    ensures KERNEL_MEM_START <= PcbAddr(p) && PcbAddr(p) + KB8 <= KERNEL_MEM_START + MB4
    ensures KernelStackTop(p) + 4 == PcbAddr(p) + KB8
    ensures p != q ==> Disjoint(PcbAddr(p), KB8, PcbAddr(q), KB8)
    ensures p != q ==> Disjoint(UserFrame(p), MB4, UserFrame(q), MB4)
    ensures Disjoint(UserFrame(p), MB4, 0, KERNEL_MEM_START + MB4)
    ensures Disjoint(UserFrame(p), MB4, PhysBackup(term), KB4)
    ensures Disjoint(PhysBackup(term), KB4, 0, KERNEL_MEM_START + MB4)
    ensures Disjoint(VIDEO_MEM_START, KB4, KERNEL_MEM_START, MB4)
  {
  }
}
