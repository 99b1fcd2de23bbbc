/** Counting: the processes on the terminals' stacks are exactly the PIDs in use. */
module Conservation {
  import opened Layout
  import opened Pids
  import opened Processes
  import opened Invariant

  function Elements(s: seq<nat>): set<nat> { set a | a in s }

  lemma {:induction false} DistinctCount(s: seq<nat>)
    requires forall i, j :: 0 <= i < |s| && 0 <= j < |s| && s[i] == s[j] ==> i == j
    ensures |Elements(s)| == |s|
  {
    if s != [] {
      var n := |s| - 1;
      DistinctCount(s[..n]);
      assert Elements(s) == Elements(s[..n]) + {s[n]};
      assert s[n] !in s[..n];
    }
  }

  /** Number of processes on the first `n` stacks. */
  function Count(stacks: seq<seq<nat>>, n: nat): nat
    requires n <= |stacks|
  {
    if n == 0 then 0 else Count(stacks, n - 1) + |stacks[n - 1]|
  }

  /** Their PCB addresses. */
  function Addresses(stacks: seq<seq<nat>>, n: nat): set<nat>
    requires n <= |stacks|
  {
    if n == 0 then {} else Addresses(stacks, n - 1) + Elements(stacks[n - 1])
  }

  lemma {:induction false} InAddresses(stacks: seq<seq<nat>>, n: nat, a: nat)
    requires n <= |stacks|
    ensures a in Addresses(stacks, n) <==> exists t :: 0 <= t < n && a in stacks[t]
  {
    if n > 0 {
      InAddresses(stacks, n - 1, a);
    }
  }

  lemma {:induction false} CountAddresses(k: Kernel, n: nat)
    requires StacksOk(k) && n <= |k.stacks|
    ensures |Addresses(k.stacks, n)| == Count(k.stacks, n)
  {
    if n > 0 {
      CountAddresses(k, n - 1);
      var s := k.stacks[n - 1];
      forall i, j | 0 <= i < |s| && 0 <= j < |s| && s[i] == s[j]
        ensures i == j
      {
        assert Slot(k, n - 1, i) && Slot(k, n - 1, j);
      }
      DistinctCount(s);
      forall a | a in Addresses(k.stacks, n - 1)
        ensures a !in Elements(s)
      {
        InAddresses(k.stacks, n - 1, a);
        var t :| 0 <= t < n - 1 && a in k.stacks[t];
        var i :| 0 <= i < |k.stacks[t]| && k.stacks[t][i] == a;
        assert Slot(k, t, i);
        forall j | 0 <= j < |s|
          ensures s[j] != a
        {
          assert Slot(k, n - 1, j);
        }
      }
      assert Addresses(k.stacks, n - 1) !! Elements(s);
    }
  }

  /** PCB addresses of the used PIDs up to `n`. */
  function UsedAddresses(pids: seq<bool>, n: nat): set<nat>
    requires n <= |pids| <= PID_LIMIT
  {
    if n == 0 then {} else UsedAddresses(pids, n - 1) + (if pids[n - 1] then {PcbAddr(n) as nat} else {})
  }

  lemma {:induction false} InUsedAddresses(pids: seq<bool>, n: nat, a: nat)
    requires n <= |pids| <= PID_LIMIT
    ensures a in UsedAddresses(pids, n) <==> exists p: Pid :: p <= n && pids[p - 1] && PcbAddr(p) == a
  {
    if n > 0 {
      InUsedAddresses(pids, n - 1, a);
    }
  }

  lemma AddressIsNew(pids: seq<bool>, n: nat)
    requires 1 <= n <= |pids| <= PID_LIMIT
    ensures PcbAddr(n) !in UsedAddresses(pids, n - 1)
  {
    InUsedAddresses(pids, n - 1, PcbAddr(n));
  }

  lemma {:induction false} CountUsed(pids: seq<bool>, n: nat)
    requires n <= |pids| <= PID_LIMIT
    ensures |UsedAddresses(pids, n)| == UsedCount(pids[..n]) <= n
  {
    if n > 0 {
      CountUsed(pids, n - 1);
      AddressIsNew(pids, n);
      assert pids[..n][..n - 1] == pids[..n - 1];
    }
  }

  lemma LiveIsUsed(k: Kernel, a: nat)
    requires StacksOk(k)
    ensures Live(k, a) <==> exists p: Pid :: p <= |k.pids| && k.pids[p - 1] && PcbAddr(p) == a
  {
  }

  lemma SameAddresses(k: Kernel)
    requires StacksOk(k)
    ensures Addresses(k.stacks, |k.stacks|) == UsedAddresses(k.pids, |k.pids|)
  {
    forall a
      ensures a in Addresses(k.stacks, |k.stacks|) <==> a in UsedAddresses(k.pids, |k.pids|)
    {
      InAddresses(k.stacks, |k.stacks|, a);
      InUsedAddresses(k.pids, |k.pids|, a);
      LiveIsUsed(k, a);
      OnStackIsLive(k, a);
    }
  }

  lemma OnStackIsLive(k: Kernel, a: nat)
    ensures Live(k, a) <==> exists t :: 0 <= t < |k.stacks| && a in k.stacks[t]
  {
    if Live(k, a) {
      var t, i :| Slot(k, t, i) && k.stacks[t][i] == a;
      assert a in k.stacks[t];
    }
    if t :| 0 <= t < |k.stacks| && a in k.stacks[t] {
      var i :| 0 <= i < |k.stacks[t]| && k.stacks[t][i] == a;
      assert Slot(k, t, i);
    }
  }

  /** PID conservation: in every reachable state the processes on all stacks are as many as the
      PIDs in use, never more than the table holds; a PID is used exactly when its PCB is on a
      stack. */
  lemma PidsConserved(k: Kernel, pid: Pid)
    requires StacksOk(k) && pid <= |k.pids|
    ensures Count(k.stacks, |k.stacks|) == UsedCount(k.pids) <= |k.pids|
    ensures k.pids[pid - 1] <==> Live(k, PcbAddr(pid))
  {
    CountAddresses(k, |k.stacks|);
    CountUsed(k.pids, |k.pids|);
    assert k.pids[..|k.pids|] == k.pids;
    SameAddresses(k);
    LiveIsUsed(k, PcbAddr(pid));
    if Live(k, PcbAddr(pid)) {
      var p: Pid :| p <= |k.pids| && k.pids[p - 1] && PcbAddr(p) == PcbAddr(pid);
      PcbAddrInjective(p, pid);
    }
  }

  lemma {:induction false} StackWithinCount(stacks: seq<seq<nat>>, n: nat, t: nat)
    requires t < n <= |stacks|
    ensures |stacks[t]| <= Count(stacks, n)
  {
    if t < n - 1 {
      StackWithinCount(stacks, n - 1, t);
    }
  }

  lemma {:induction false} FreeBoundsCount(pids: seq<bool>, i: nat)
    requires i < |pids| && !pids[i]
    ensures UsedCount(pids) < |pids|
    decreases |pids|
  {
    var n := |pids| - 1;
    UsedBound(pids[..n]);
    if i < n {
      FreeBoundsCount(pids[..n], i);
    }
  }

  lemma {:induction false} UsedBound(pids: seq<bool>)
    ensures UsedCount(pids) <= |pids|
    decreases |pids|
  {
    if pids != [] {
      UsedBound(pids[..|pids| - 1]);
    }
  }

  /** By counting, the slot `child_procs[num_procs]` a new process is stored in is always within
      the array of `MAX_PROCESSES` entries, whatever terminal it starts on. */
  lemma PushInBounds(k: Kernel, t: nat)
    requires StacksOk(k) && t < |k.stacks|
    ensures |k.stacks[t]| <= |k.pids|
    ensures AllocPid(k.pids).1 >= 1 ==> |k.stacks[t]| < |k.pids|
  {
    PidsConserved(k, 1);
    StackWithinCount(k.stacks, |k.stacks|, t);
    var i := FirstFree(k.pids, 0);
    if i < |k.pids| {
      FreeBoundsCount(k.pids, i);
    }
  }

  /** Freeing the PID of the running process never fails. */
  lemma HaltFreesItsPid(k: Kernel)
    requires Inv(k)
    ensures
      var pid := k.pcbs[k.Top(k.exec)].pid;
      pid <= |k.pids| && FreePid(k.pids, pid) == (k.pids[pid - 1 := false], 0)
  {
    assert Slot(k, k.exec, |k.stacks[k.exec]| - 1);
  }
}
