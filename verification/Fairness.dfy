/** Whole runs of the scheduler: transparent preemption, terminals that never become empty, and
    bounded waiting. */
module Fairness {
  import opened Layout
  import opened Processes
  import opened Invariant
  import opened Steps
  import opened Scheduling

  /** One step as the scheduler sees it, for any event. */
  lemma StepOutline(k: Kernel, e: Event)
    requires Inv(k) && Enabled(k, e)
    ensures
      var k' := Step(k, e).0;
      if Launches(k, e) then Launched(k, k', e.esp, e.term) && k.stacks[e.term] == []
      else Schedules(k, k', if e.Timer? then NextTerm(k.stacks, k.exec, 1) else k.exec)
  {
    if Launches(k, e) {
      LaunchSchedules(k, e.esp, e.term);
      assert Step(k, e).0 == AfterSwitch(k, e.esp, e.term).0;
    } else {
      StepSchedules(k, e);
    }
  }

  /** A started terminal that is not executing is frozen by every step, and stays started. */
  lemma StepFreezesOthers(k: Kernel, e: Event, t: nat)
    requires Inv(k) && Enabled(k, e) && t < |k.stacks| && k.stacks[t] != []
    ensures Step(k, e).0.stacks[t] != []
    ensures t != k.exec ==> Frozen(k, Step(k, e).0, t)
  {
    StepOutline(k, e);
  }

  /** A terminal once started never becomes empty again. */
  lemma {:induction false} StartedStaysStarted(k: Kernel, es: seq<Event>, t: nat)
    requires Inv(k) && Feasible(k, es) && t < |k.stacks| && k.stacks[t] != []
    ensures Run(k, es).stacks[t] != []
    decreases |es|
  {
    if es != [] {
      StepFreezesOthers(k, es[0], t);
      StartedStaysStarted(Step(k, es[0]).0, es[1..], t);
    }
  }

  /** Terminal `t` is not the executing one at any time of the run. */
  ghost predicate Waits(k: Kernel, es: seq<Event>, t: nat)
    requires Inv(k) && Feasible(k, es)
    decreases |es|
  {
    k.exec != t && (es != [] ==> Waits(Step(k, es[0]).0, es[1..], t))
  }

  lemma {:induction false} WaitingIsFrozen(k: Kernel, es: seq<Event>, t: nat)
    requires Inv(k) && Feasible(k, es) && t < |k.stacks| && k.stacks[t] != [] && Waits(k, es, t)
    ensures Frozen(k, Run(k, es), t) && Run(k, es).exec != t
    decreases |es|
  {
    if es == [] {
      SameStacksFrozen(k, k, t);
    } else {
      var k' := Step(k, es[0]).0;
      StepFreezesOthers(k, es[0], t);
      WaitingIsFrozen(k', es[1..], t);
      FrozenTransitive(k, k', Run(k', es[1..]), t);
    }
  }

  /** The step with result `r` resumes terminal `t`'s newest process of `k` at its saved context,
      on its own kernel stack. */
  ghost predicate Continues(k: Kernel, t: nat, r: (Kernel, Outcome)) {
    && t < |k.stacks| && k.stacks[t] != [] && k.Top(t) in k.pcbs
    && r.1 == Resumed(k.pcbs[k.Top(t)].context, 0)
    && OnStack(r.0, r.1.context.esp) && t < |r.0.stacks| && r.0.stacks[t] == k.stacks[t]
  }

  lemma TickContinues(k: Kernel, k1: Kernel, t: nat, esp: uint32)
    requires Inv(k1) && Frozen(k, k1, t) && k.stacks[t] != [] && k1.exec != t
    requires OnStack(k1, esp) && AfterTick(k1, esp).0.exec == t
    ensures Continues(k, t, AfterTick(k1, esp))
  {
    assert k1.Top(t) == k.stacks[t][|k.stacks[t]| - 1] == k.Top(t);
    assert k.Top(t) in k.pcbs && k1.pcbs[k.Top(t)] == k.pcbs[k.Top(t)];
    TickResumes(k1, esp);
  }

  /** A tick to another terminal resumes its newest process at the saved context. */
  lemma TickResumes(k: Kernel, esp: uint32)
    requires Inv(k) && OnStack(k, esp) && AfterTick(k, esp).0.exec != k.exec
    ensures
      var r := AfterTick(k, esp);
      && r.0.stacks == k.stacks && k.stacks[r.0.exec] != [] && k.Top(r.0.exec) in k.pcbs
      && r.1 == Resumed(k.pcbs[k.Top(r.0.exec)].context, 0) && OnStack(r.0, r.1.context.esp)
  {
    TickKeepsInv(k, esp);
  }

  /** The tick that ends a wait resumes the terminal's newest process at the context it had when
      the wait began. */
  lemma WaitEndsWhereItBegan(k: Kernel, es: seq<Event>, t: nat, esp: uint32)
    requires Inv(k) && Feasible(k, es) && t < |k.stacks| && k.stacks[t] != [] && Waits(k, es, t)
    requires OnStack(Run(k, es), esp) && AfterTick(Run(k, es), esp).0.exec == t
    ensures Continues(k, t, AfterTick(Run(k, es), esp))
  {
    WaitingIsFrozen(k, es, t);
    TickContinues(k, Run(k, es), t, esp);
  }

  /** The running process of terminal `t` has been suspended at `esp`. */
  ghost predicate SuspendedAt(k: Kernel, t: nat, esp: uint32, point: ResumePoint) {
    && t < |k.stacks| && k.stacks[t] != [] && k.exec != t && k.Top(t) in k.pcbs
    && k.pcbs[k.Top(t)].context == Context(esp, point)
  }

  /** A tick to another terminal suspends the running process where it is. */
  lemma TickSuspends(k: Kernel, esp: uint32)
    requires Inv(k) && OnStack(k, esp) && AfterTick(k, esp).0.exec != k.exec
    ensures SuspendedAt(AfterTick(k, esp).0, k.exec, esp, InContextSwitch)
    ensures AfterTick(k, esp).0.Top(k.exec) == k.Top(k.exec)
  {
    RunningIsTop(k, esp);
    TickKeepsInv(k, esp);
  }

  /** So does the launch of a shell on another terminal. */
  lemma LaunchSuspends(k: Kernel, esp: uint32, term: nat)
    requires Inv(k) && OnStack(k, esp) && Launches(k, SwitchKey(esp, term))
    ensures SuspendedAt(AfterSwitch(k, esp, term).0, k.exec, esp, InTerminalSwitch)
    ensures AfterSwitch(k, esp, term).0.Top(k.exec) == k.Top(k.exec)
  {
    LaunchSchedules(k, esp, term);
    LaunchedSuspends(k, AfterSwitch(k, esp, term).0, esp, term);
  }

  lemma LaunchedSuspends(k: Kernel, k': Kernel, esp: uint32, term: nat)
    requires k.exec < |k.stacks| && k.stacks[k.exec] != [] && Launched(k, k', esp, term) && term != k.exec
    ensures SuspendedAt(k', k.exec, esp, InTerminalSwitch) && k'.Top(k.exec) == k.Top(k.exec)
  {
  }

  /** Preemption is transparent: a process suspended at `esp` continues exactly there, whatever
      run comes between, as soon as a tick comes round to its terminal. */
  lemma SuspendedContinues(k: Kernel, t: nat, esp: uint32, point: ResumePoint, es: seq<Event>, esp': uint32)
    requires Inv(k) && SuspendedAt(k, t, esp, point) && Feasible(k, es) && Waits(k, es, t)
    requires OnStack(Run(k, es), esp') && AfterTick(Run(k, es), esp').0.exec == t
    ensures AfterTick(Run(k, es), esp').1 == Resumed(Context(esp, point), 0)
  {
    WaitEndsWhereItBegan(k, es, t, esp');
  }

  // ---- Round robin ----

  /** Places from terminal `exec` to terminal `t` in cyclic order. */
  function Distance(exec: nat, t: nat, terms: nat): nat
    requires exec < terms && t < terms
  {
    if t >= exec then t - exec else t + terms - exec
  }

  /** The scan finds a terminal with a process no farther away than any other. */
  lemma {:induction false} NearestIsNext(stacks: seq<seq<nat>>, exec: nat, d: nat, t: nat)
    requires exec < |stacks| && t < |stacks| && t != exec && stacks[t] != []
    requires 1 <= d <= Distance(exec, t, |stacks|)
    ensures
      var n := NextTerm(stacks, exec, d);
      n != exec && stacks[n] != [] && d <= Distance(exec, n, |stacks|) <= Distance(exec, t, |stacks|)
    decreases |stacks| - d
  {
    if stacks[After(exec, d, |stacks|)] == [] {
      NearestIsNext(stacks, exec, d + 1, t);
    }
  }

  /** A tick brings every waiting terminal strictly nearer, or runs it. */
  lemma TickApproaches(stacks: seq<seq<nat>>, exec: nat, t: nat)
    requires exec < |stacks| && t < |stacks| && t != exec && stacks[t] != []
    ensures
      var n := NextTerm(stacks, exec, 1);
      n == t || Distance(n, t, |stacks|) < Distance(exec, t, |stacks|)
  {
    NearestIsNext(stacks, exec, 1, t);
  }

  /** Number of terminals without a process. */
  function Empties(stacks: seq<seq<nat>>): nat {
    if stacks == [] then 0 else (if stacks[0] == [] then 1 else 0) + Empties(stacks[1..])
  }

  lemma {:induction false} SameEmpties(a: seq<seq<nat>>, b: seq<seq<nat>>)
    requires |a| == |b| && forall t :: 0 <= t < |a| ==> (a[t] == [] <==> b[t] == [])
    ensures Empties(a) == Empties(b)
  {
    if a != [] {
      assert forall t :: 0 <= t < |a[1..]| ==> a[1..][t] == a[t + 1] && b[1..][t] == b[t + 1];
      SameEmpties(a[1..], b[1..]);
    }
  }

  lemma {:induction false} OneEmptyLess(a: seq<seq<nat>>, b: seq<seq<nat>>, term: nat)
    requires |a| == |b| && term < |a| && a[term] == [] && b[term] != []
    requires forall t :: 0 <= t < |a| && t != term ==> a[t] == b[t]
    ensures Empties(a) == Empties(b) + 1
  {
    assert forall t :: 0 <= t < |a[1..]| ==> a[1..][t] == a[t + 1] && b[1..][t] == b[t + 1];
    if term == 0 {
      SameEmpties(a[1..], b[1..]);
    } else {
      OneEmptyLess(a[1..], b[1..], term - 1);
    }
  }

  function Ticks(es: seq<Event>): nat {
    if es == [] then 0 else (if es[0].Timer? then 1 else 0) + Ticks(es[1..])
  }

  /** Between `k` and `k'` the `ticks` ticks a waiting terminal saw are paid for by the distance it
      has come nearer; each launch, an empty terminal less, takes it back at most N - 2 places. */
  ghost predicate PaidFor(k: Kernel, k': Kernel, t: nat, ticks: nat) {
    && |k'.stacks| == |k.stacks| && t < |k.stacks| && k.exec < |k.stacks| && k'.exec < |k.stacks|
    && Empties(k'.stacks) <= Empties(k.stacks)
    && ticks + Distance(k'.exec, t, |k.stacks|)
       <= Distance(k.exec, t, |k.stacks|) + (|k.stacks| - 2) * (Empties(k.stacks) - Empties(k'.stacks))
  }

  lemma PaidForAdds(k: Kernel, k': Kernel, k'': Kernel, t: nat, m: nat, n: nat)
    requires PaidFor(k, k', t, m) && PaidFor(k', k'', t, n)
    ensures PaidFor(k, k'', t, m + n)
  {
    Distributes(|k.stacks| - 2, Empties(k.stacks) - Empties(k'.stacks), Empties(k'.stacks) - Empties(k''.stacks));
  }

  lemma Distributes(w: int, a: int, b: int)
    ensures w * (a + b) == w * a + w * b
  {
  }

  lemma StepPaidFor(k: Kernel, e: Event, t: nat)
    requires Inv(k) && Enabled(k, e) && t < |k.stacks| && k.stacks[t] != [] && k.exec != t && Step(k, e).0.exec != t
    ensures PaidFor(k, Step(k, e).0, t, if e.Timer? then 1 else 0)
  {
    StepOutline(k, e);
    OutlinePaidFor(k, Step(k, e).0, e, t);
  }

  lemma OutlinePaidFor(k: Kernel, k': Kernel, e: Event, t: nat)
    requires k.Shape() && k'.Shape() && t < |k.stacks| && k.stacks[t] != [] && k.exec != t && k'.exec != t
    requires k.stacks[k.exec] != []
    requires
      if Launches(k, e) then Launched(k, k', e.esp, e.term) && k.stacks[e.term] == []
      else Schedules(k, k', if e.Timer? then NextTerm(k.stacks, k.exec, 1) else k.exec)
    ensures PaidFor(k, k', t, if e.Timer? then 1 else 0)
  {
    var w, m := |k.stacks| - 2, Empties(k.stacks) - Empties(k'.stacks);
    if Launches(k, e) {
      OneEmptyLess(k.stacks, k'.stacks, e.term);
      assert w * 1 == w;
    } else {
      SameEmpties(k.stacks, k'.stacks);
      assert w * 0 == 0;
      if e.Timer? {
        TickApproaches(k.stacks, k.exec, t);
      }
    }
  }

  lemma {:induction false} WaitIsPaidFor(k: Kernel, es: seq<Event>, t: nat)
    requires Inv(k) && Feasible(k, es) && t < |k.stacks| && k.stacks[t] != [] && Waits(k, es, t)
    ensures PaidFor(k, Run(k, es), t, Ticks(es)) && Run(k, es).exec != t
    decreases |es|
  {
    if es != [] {
      StepPaidFor(k, es[0], t);
      StepFreezesOthers(k, es[0], t);
      WaitIsPaidFor(Step(k, es[0]).0, es[1..], t);
      PaidForAdds(k, Step(k, es[0]).0, Run(k, es), t, if es[0].Timer? then 1 else 0, Ticks(es[1..]));
    } else {
      assert (|k.stacks| - 2) * (Empties(k.stacks) - Empties(k.stacks)) == 0;
    }
  }

  /** Two started terminals are not empty. */
  lemma {:induction false} EmptiesBound(stacks: seq<seq<nat>>, i: nat, j: nat)
    requires i < j < |stacks| && stacks[i] != [] && stacks[j] != []
    ensures Empties(stacks) <= |stacks| - 2
  {
    if i > 0 {
      EmptiesBound(stacks[1..], i - 1, j - 1);
    } else {
      OneStarted(stacks[1..], j - 1);
    }
  }

  lemma {:induction false} OneStarted(stacks: seq<seq<nat>>, i: nat)
    requires i < |stacks| && stacks[i] != []
    ensures Empties(stacks) <= |stacks| - 1
  {
    if i > 0 {
      OneStarted(stacks[1..], i - 1);
    } else {
      EmptiesAtMost(stacks[1..]);
    }
  }

  lemma {:induction false} EmptiesAtMost(stacks: seq<seq<nat>>)
    ensures Empties(stacks) <= |stacks|
  {
    if stacks != [] {
      EmptiesAtMost(stacks[1..]);
    }
  }

  /** Bounded waiting. Of N terminals, a started one that is still waiting has seen at most N - 2
      ticks when nothing was launched meanwhile, so it runs by tick N - 1; in any run at most
      N - 2 for itself and for each terminal that was empty; and never more than (N - 2) * (N - 1). */
  lemma WaitIsBounded(k: Kernel, es: seq<Event>, t: nat)
    requires Inv(k) && Feasible(k, es) && t < |k.stacks| && k.stacks[t] != [] && Waits(k, es, t)
    ensures
      var n := |k.stacks|;
      && (Empties(Run(k, es).stacks) == Empties(k.stacks) ==> Ticks(es) <= n - 2)
      && Ticks(es) <= (n - 2) * (1 + Empties(k.stacks))
      && Ticks(es) <= (n - 2) * (n - 1)
  {
    assert Slot(k, k.exec, |k.stacks[k.exec]| - 1);
    if k.exec < t {
      EmptiesBound(k.stacks, k.exec, t);
    } else {
      EmptiesBound(k.stacks, t, k.exec);
    }
    WaitIsPaidFor(k, es, t);
    BoundFromPayment(k, Run(k, es), t, Ticks(es));
  }

  lemma BoundFromPayment(k: Kernel, k': Kernel, t: nat, ticks: nat)
    requires PaidFor(k, k', t, ticks) && k.exec != t && k'.exec != t && Empties(k.stacks) <= |k.stacks| - 2
    ensures Empties(k'.stacks) == Empties(k.stacks) ==> ticks <= |k.stacks| - 2
    ensures ticks <= (|k.stacks| - 2) * (1 + Empties(k.stacks)) <= (|k.stacks| - 2) * (|k.stacks| - 1)
  {
    Weights(|k.stacks| - 2, Empties(k.stacks), Empties(k'.stacks));
  }

  lemma Weights(w: nat, e: nat, e': nat)
    requires e' <= e <= w
    ensures w + w * (e - e') <= w * (1 + e) <= w * (w + 1)
    ensures e == e' ==> w * (e - e') == 0
  {
    AtMost(w, e - e', e);
    AtMost(w, 1 + e, w + 1);
    Distributes(w, 1, e);
  }

  lemma AtMost(w: nat, a: nat, b: nat)
    requires a <= b
    ensures w * a <= w * b
  {
    Distributes(w, a, b - a);
  }
}
