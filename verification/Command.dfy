/** Splitting a command line into program name and arguments, and handing the arguments back
    (`execute` and `getargs` in src/syscalls/syscalls.c). */
module Command {
  import opened Layout

  const ARGS_LENGTH := 128

  predicate EndsLine(c: byte) { c == NL || c == NUL }

  /** The command string ends, within reach of the 16-bit index. */
  predicate Terminated(command: seq<byte>) {
    exists i :: 0 <= i < |command| && i < 0x1_0000 && EndsLine(command[i])
  }

  /** First position from `i` on that ends the line. */
  function LineEnd(command: seq<byte>, i: nat): (r: nat)
    requires i <= |command|
    ensures i <= r <= |command| && (r < |command| ==> EndsLine(command[r]))
    ensures forall j :: i <= j < r ==> !EndsLine(command[j])
    decreases |command| - i
  {
    if i == |command| || EndsLine(command[i]) then i else LineEnd(command, i + 1)
  }

  /** End of the program name: a space, the end of the line, or 32 bytes. */
  function NameEnd(command: seq<byte>, i: nat): (r: nat)
    requires i <= |command| && i <= FILENAME_SIZE
    ensures i <= r <= |command| && r <= FILENAME_SIZE
    ensures forall j :: i <= j < r ==> command[j] != SPACE && !EndsLine(command[j])
    ensures r == |command| || r == FILENAME_SIZE || command[r] == SPACE || EndsLine(command[r])
    decreases |command| - i
  {
    if i == |command| || i == FILENAME_SIZE || command[i] == SPACE || EndsLine(command[i]) then i
    else NameEnd(command, i + 1)
  }

  /** First position from `i` on that is not a space. */
  function SkipEnd(command: seq<byte>, i: nat): (r: nat)
    requires i <= |command|
    ensures i <= r <= |command| && (r < |command| ==> command[r] != SPACE)
    ensures forall j :: i <= j < r ==> command[j] == SPACE
    decreases |command| - i
  {
    if i == |command| || command[i] != SPACE then i else SkipEnd(command, i + 1)
  }

  /** Last position from `hi` down to `lo` with no space before it. */
  function StripEnd(command: seq<byte>, lo: nat, hi: nat): (r: nat)
    requires lo <= hi <= |command|
    ensures lo <= r <= hi && (lo < r ==> command[r - 1] != SPACE)
    ensures forall j :: r <= j < hi ==> command[j] == SPACE
    decreases hi
  {
    if lo < hi && command[hi - 1] == SPACE then StripEnd(command, lo, hi - 1) else hi
  }

  /** Where the arguments start: behind the name and the spaces that follow it. */
  function ArgsStart(command: seq<byte>): (r: nat)
    ensures r <= |command|
  {
    SkipEnd(command, NameEnd(command, 0))
  }

  /** How far argument bytes are copied: to the end of the line, or 128 of them. */
  function CopyEnd(command: seq<byte>): (r: nat)
    ensures ArgsStart(command) <= r <= |command|
  {
    var end := LineEnd(command, ArgsStart(command));
    if end - ArgsStart(command) < ARGS_LENGTH then end else ArgsStart(command) + ARGS_LENGTH
  }

  function ArgsEnd(command: seq<byte>): (r: nat)
    ensures ArgsStart(command) <= r <= CopyEnd(command)
  {
    StripEnd(command, ArgsStart(command), CopyEnd(command))
  }

  function Name(command: seq<byte>): seq<byte> { command[..NameEnd(command, 0)] }

  /** The arguments kept. */
  function Args(command: seq<byte>): seq<byte> { command[ArgsStart(command)..ArgsEnd(command)] }

  /** When at most 128 bytes follow the name and its spaces, the line is exactly the name,
      spaces, the arguments, spaces; and the arguments neither start nor end in a space. When
      more follow, the arguments stop at byte 128 or before the spaces there. */
  lemma ArgumentsAreTrimmedTail(command: seq<byte>)
    ensures
      var n, s, e, l := NameEnd(command, 0), ArgsStart(command), ArgsEnd(command), LineEnd(command, 0);
      && 0 <= n <= s <= e <= l
      && (forall j :: 0 <= j < n ==> command[j] != SPACE)
      && (forall j :: n <= j < s ==> command[j] == SPACE)
      && (s < e ==> command[s] != SPACE && command[e - 1] != SPACE)
      && (l - s <= ARGS_LENGTH ==> forall j :: e <= j < l ==> command[j] == SPACE)
      && (l - s > ARGS_LENGTH ==> forall j :: e <= j < s + ARGS_LENGTH ==> command[j] == SPACE)
  {
  }

  /** The terminator has room in the buffer unless the tail has 128 bytes or more and its 128th is
      not a space. */
  lemma ArgumentsFit(command: seq<byte>)
    ensures
      var s := ArgsStart(command);
      var tail := LineEnd(command, s) - s;
      |Args(command)| < ARGS_LENGTH <==> tail < ARGS_LENGTH || command[s + ARGS_LENGTH - 1] == SPACE
  {
  }

  /** The parsing loops of `execute`. Writing the terminator stays inside the buffer exactly when
      fewer than 128 argument bytes are kept. */
  method ParseCommand(command: seq<byte>) returns (filename: array<byte>, args: array<byte>, argsLength: nat)
    requires Terminated(command) && |Args(command)| < ARGS_LENGTH
    ensures fresh(filename) && filename.Length == FILENAME_SIZE
    ensures fresh(args) && args.Length == ARGS_LENGTH
    ensures forall j :: 0 <= j < FILENAME_SIZE ==>
              filename[j] == if j < |Name(command)| then Name(command)[j] else NUL
    ensures argsLength == |Args(command)| && args[argsLength] == NUL
    ensures forall j :: 0 <= j < argsLength ==> args[j] == Args(command)[j]
  {
    filename := new byte[FILENAME_SIZE](_ => NUL);
    args := new byte[ARGS_LENGTH](_ => NUL);
    var i := CopyName(command, filename);
    i, argsLength := CopyTail(command, i, args);
    if argsLength != 0 {
      argsLength := StripSpaces(command, i, argsLength);
      args[argsLength] := NUL;
    }
  }

  method CopyName(command: seq<byte>, filename: array<byte>) returns (i: nat)
    requires Terminated(command) && filename.Length == FILENAME_SIZE
    requires forall j :: 0 <= j < FILENAME_SIZE ==> filename[j] == NUL
    modifies filename
    ensures i == NameEnd(command, 0)
    ensures forall j :: 0 <= j < FILENAME_SIZE ==> filename[j] == if j < i then command[j] else NUL
  {
    i := 0;
    while command[i] != SPACE && command[i] != NL && command[i] != NUL && i < FILENAME_SIZE
      invariant i < |command| && i <= NameEnd(command, 0)
      invariant forall j :: 0 <= j < FILENAME_SIZE ==> filename[j] == if j < i then command[j] else NUL
      decreases FILENAME_SIZE - i
    {
      filename[i] := command[i];
      i := i + 1;
    }
  }

  /** Skips the spaces behind the name, then copies argument bytes. */
  method CopyTail(command: seq<byte>, from: nat, args: array<byte>) returns (i: nat, n: nat)
    requires Terminated(command) && from == NameEnd(command, 0)
    requires args.Length == ARGS_LENGTH && forall j :: 0 <= j < ARGS_LENGTH ==> args[j] == NUL
    modifies args
    ensures i == CopyEnd(command) && n == i - ArgsStart(command)
    ensures forall j :: 0 <= j < ARGS_LENGTH ==> args[j] == if j < n then command[ArgsStart(command) + j] else NUL
  {
    i := from;
    while command[i] == SPACE
      invariant from <= i <= ArgsStart(command) && i < |command|
      decreases |command| - i
    {
      i := i + 1;
    }
    ghost var start, end := ArgsStart(command), LineEnd(command, ArgsStart(command));
    n := 0;
    while command[i] != NL && command[i] != NUL && n < ARGS_LENGTH
      invariant start <= i <= end < |command| && n == i - start <= ARGS_LENGTH
      invariant forall j :: 0 <= j < ARGS_LENGTH ==> args[j] == if j < n then command[start + j] else NUL
      decreases ARGS_LENGTH - n
    {
      args[n] := command[i];
      n := n + 1;
      i := i + 1;
    }
  }

  /** The stripping loop walks back over the command string; the first argument byte, never a
      space, stops it. */
  method StripSpaces(command: seq<byte>, end: nat, taken: nat) returns (n: nat)
    requires end == CopyEnd(command) && taken == end - ArgsStart(command) > 0
    ensures n == |Args(command)| <= taken
  {
    ghost var start := ArgsStart(command);
    n := taken;
    var i := end - 1;
    while command[i] == SPACE
      invariant start <= i < end && i + 1 == start + n
      invariant StripEnd(command, start, i + 1) == ArgsEnd(command)
      decreases i
    {
      n := n - 1;
      i := i - 1;
    }
  }

  // ---- getargs ----

  /** The two checks of `getargs`; the size comparison is unsigned. */
  predicate Accepts(addr: uint32, nbytes: int32, argsLength: uint32) {
    InUserWindow(addr) && Wrap32(nbytes) >= argsLength + 1
  }

  /** The call succeeds exactly for a user buffer and a size that is large enough or negative.
      So "fails when the arguments do not fit" holds exactly for sizes that are not negative. */
  lemma AcceptedSizes(addr: uint32, nbytes: int32, argsLength: uint32)
    requires argsLength < ARGS_LENGTH
    ensures Accepts(addr, nbytes, argsLength) <==> InUserWindow(addr) && (nbytes < 0 || nbytes > argsLength)
    ensures InUserWindow(addr) ==>
              ((Accepts(addr, nbytes, argsLength) <==> nbytes > argsLength) <==> nbytes >= 0)
  {
  }

  /** A size of -1 holds nothing, and is accepted. */
  lemma NegativeSizeAccepted()
    ensures Accepts(MB128, -1, 5)
  {
  }

  /** The argument fields of a PCB. */
  class PcbArgs {
    const args: array<byte>
    var argsLength: uint32

    ghost predicate Valid()
      reads this, args
    {
      args.Length == ARGS_LENGTH && argsLength < ARGS_LENGTH && args[argsLength] == NUL
    }

    /** The arguments kept for the process. */
    ghost function Kept(): seq<byte>
      requires Valid()
      reads this, args
    {
      args[..argsLength]
    }

    /** The PCB is cleared, then takes the arguments and their terminator when there are any. */
    constructor (command: seq<byte>)
      requires Terminated(command) && |Args(command)| < ARGS_LENGTH
      ensures Valid() && fresh(args) && Kept() == Args(command)
    {
      args := new byte[ARGS_LENGTH](_ => NUL);
      new;
      var filename, parsed, n := ParseCommand(command);
      if n != 0 {
        forall i | 0 <= i < n + 1 { args[i] := parsed[i]; }
      }
      argsLength := n;
      assert args[..n] == Args(command);
    }

    /** Copies the arguments and their terminator into the process's window. */
    method GetArgs(window: array<byte>, addr: uint32, nbytes: int32) returns (r: int)
      requires Valid() && window.Length == MB4 && window != args
      requires InUserWindow(addr) ==> addr + argsLength < MB128 + MB4
      modifies window
      ensures r == if Accepts(addr, nbytes, argsLength) then 0 else -1
      ensures r == -1 ==> window[..] == old(window[..])
      ensures r == 0 ==>
                var at := addr - MB128;
                window[..] == old(window[..at]) + (Kept() + [NUL]) + old(window[at + argsLength + 1..])
    {
      if !InUserWindow(addr) {
        return -1;
      }
      if Wrap32(nbytes) < argsLength + 1 {
        return -1;
      }
      var at := addr - MB128;
      forall i | 0 <= i < argsLength + 1 { window[at + i] := args[i]; }
      assert window[at..at + argsLength + 1] == Kept() + [NUL];
      assert window[..] == window[..at] + window[at..at + argsLength + 1] + window[at + argsLength + 1..];
      return 0;
    }
  }
}
