/** The PID table (src/process.c). */
module Pids {
  import opened Layout

  /** First free entry from `i` on, or the table size. */
  function FirstFree(pids: seq<bool>, i: nat): (r: nat)
    requires i <= |pids|
    ensures i <= r <= |pids| && (r < |pids| ==> !pids[r])
    ensures forall j :: i <= j < r ==> pids[j]
    decreases |pids| - i
  {
    if i == |pids| || !pids[i] then i else FirstFree(pids, i + 1)
  }

  /** `get_available_pid`: the table afterwards, and the PID or -1. */
  function AllocPid(pids: seq<bool>): (seq<bool>, int) {
    var i := FirstFree(pids, 0);
    if i == |pids| then (pids, -1) else (pids[i := true], i + 1)
  }

  /** `free_pid`: the table afterwards, and 0 or -1. */
  function FreePid(pids: seq<bool>, pid: uint32): (seq<bool>, int) {
    if pid == 0 || pid > |pids| || !pids[pid - 1] then (pids, -1) else (pids[pid - 1 := false], 0)
  }

  /** Taking a PID and giving it back leaves the table as it was, also when it was full and the
      "PID" given back is -1 read as an unsigned word. Giving it back again fails. */
  lemma PeekLeavesTable(pids: seq<bool>)
    requires |pids| <= PID_LIMIT
    ensures
      var (taken, pid) := AllocPid(pids);
      && FreePid(taken, Wrap32(pid)) == (pids, if AllUsed(pids) then -1 else 0)
      && FreePid(pids, Wrap32(pid)) == (pids, -1)
  {
    var i := FirstFree(pids, 0);
    if i < |pids| {
      assert pids[i := true][i := false] == pids;
    } else {
      assert AllUsed(pids);
    }
  }

  predicate AllUsed(pids: seq<bool>) { forall p :: 0 <= p < |pids| ==> pids[p] }

  /** Allocation fails exactly when every PID is used, and otherwise takes the least free one. */
  lemma AllocationTakesLeastFree(pids: seq<bool>)
    ensures
      var (taken, pid) := AllocPid(pids);
      if AllUsed(pids) then pid == -1 && taken == pids
      else
        && 1 <= pid <= |pids| && !pids[pid - 1] && taken == pids[pid - 1 := true]
        && forall p :: 0 <= p < pid - 1 ==> pids[p]
  {
  }

  /** Number of PIDs in use. */
  function UsedCount(pids: seq<bool>): nat {
    if pids == [] then 0 else UsedCount(pids[..|pids| - 1]) + (if pids[|pids| - 1] then 1 else 0)
  }

  /** The table in place. */
  class PidTable {
    const used: array<bool>

    constructor (size: nat)
      requires 1 <= size <= PID_LIMIT
      ensures fresh(used) && used[..] == seq(size, _ => false)
    {
      used := new bool[size](_ => false);
    }

    ghost function View(): seq<bool>
      reads used
    {
      used[..]
    }

    /** `get_available_pid`. */
    method GetAvailablePid() returns (pid: int)
      modifies used
      ensures (View(), pid) == AllocPid(old(View()))
    {
      for i := 0 to used.Length
        invariant View() == old(View()) && FirstFree(View(), 0) == FirstFree(View(), i)
      {
        if !used[i] {
          used[i] := true;
          return i + 1;
        }
      }
      return -1;
    }

    /** `free_pid`. */
    method Free(pid: uint32) returns (status: int)
      modifies used
      ensures (View(), status) == FreePid(old(View()), pid)
    {
      if pid == 0 || pid > used.Length {
        return -1;
      }
      if !used[pid - 1] {
        return -1;
      }
      used[pid - 1] := false;
      return 0;
    }
  }
}
