/**
 * mutex.c as code over the kernel's process table; each call is a burst of the instructions of MutexSpec with no tick
 * in between.
 */
module Mutexes {
  import opened SchedSpec
  import ContextSpec
  import ContextLaws
  import Kernels
  import opened MutexSpec

  /** k instructions of the current worker, uninterrupted. */
  function Burst(n: nat, s: Shared, t: Thread, k: nat): (r: (Shared, Thread))
    requires Shape(s.sched) && |s.mutex.waiters| == MAX_PROCESSES
    ensures Shape(r.0.sched) && |r.0.mutex.waiters| == MAX_PROCESSES && r.1.pid == t.pid
    decreases k
  {
    if k == 0 then (s, t) else var r := Execute(n, s, t); Burst(n, r.0, r.1, k - 1)
  }

  lemma Unfold(n: nat, s: Shared, t: Thread, k: nat)
    requires Shape(s.sched) && |s.mutex.waiters| == MAX_PROCESSES
    ensures var r := Execute(n, s, t); Burst(n, s, t, k + 1) == Burst(n, r.0, r.1, k)
    ensures Burst(n, s, t, 0) == (s, t)
  {
  }

  lemma Acquires(n: nat, s: Shared, t: Thread)
    requires Shape(s.sched) && |s.mutex.waiters| == MAX_PROCESSES && t.pc == Xchg && s.mutex.locked != 1
    ensures Burst(n, s, t, 2) == (s.(mutex := s.mutex.(locked := 1, owner := s.sched.cur)), t.(pc := Load))
  {
    hide Burst;
    var r := Execute(n, s, t);
    Unfold(n, s, t, 1);
    Unfold(n, r.0, r.1, 0);
    var q := Execute(n, r.0, r.1);
    Unfold(n, q.0, q.1, 0);
  }

  /** Seven instructions from the failed exchange to the switch: only the last one looks at the other processes. */
  lemma Sleeps(n: nat, s: Shared, t: Thread)
    requires Shape(s.sched) && |s.mutex.waiters| == MAX_PROCESSES && t.pc == Xchg && s.mutex.locked == 1
    requires 0 <= s.mutex.nwaiters < MAX_PROCESSES && Next(Block(s.sched), 1) != s.sched.cur
    ensures Burst(n, s, t, 7) ==
            (s.(mutex := Enlist(s.mutex, s.sched.cur), sched := Switch(Block(s.sched)), interrupts := true),
                t.(pc := Back))
  {
    hide Burst, Next, Switch;
    var r, k := (s, t), 7;
    while k > 0
      invariant 0 <= k <= 7 && Shape(r.0.sched) && |r.0.mutex.waiters| == MAX_PROCESSES
      invariant Burst(n, s, t, 7) == Burst(n, r.0, r.1, k)
      invariant r.1 == t.(pc := [Back, Pick, YieldCli, Sti, Mark, Enqueue, Cli, Xchg][k])
      invariant r.0.mutex == if k >= 5 then s.mutex else Enlist(s.mutex, s.sched.cur)
      invariant r.0.sched == if k >= 4 then s.sched else if k > 0 then Block(s.sched) else Switch(Block(s.sched))
      invariant r.0.counter == s.counter && (k == 0 ==> r.0.interrupts)
    {
      k := k - 1;
      Unfold(n, r.0, r.1, k);
      r := Execute(n, r.0, r.1);
    }
    Unfold(n, r.0, r.1, 0);
  }

  /** The instructions of mutex_unlock: three when nobody waits, four or five more when somebody does. */
  lemma Wakes(n: nat, s: Shared, t: Thread) returns (k: nat)
    requires Shape(s.sched) && |s.mutex.waiters| == MAX_PROCESSES && t.pc == ClearOwner
        && s.mutex.nwaiters <= MAX_PROCESSES
    ensures var r := Burst(n, s, t, k);
            r.0 == Unlocked(s) && r.1 == Again(n, t).(reg := r.1.reg, popped := r.1.popped)
  {
    hide Burst;
    var r := (s, t);
    k := 0;
    Unfold(n, s, t, 0);
    while r.1.pc != Head(n, t.i + 1)
      invariant Shape(r.0.sched) && |r.0.mutex.waiters| == MAX_PROCESSES && r == Burst(n, s, t, k)
      invariant UnlockAt(n, s, t, r)
      decreases Left(r.1.pc)
    {
      Last(n, s, t, k);
      hide UnlockAt, Execute, Left;
      UnlockStep(n, s, t, r);
      r := Execute(n, r.0, r.1);
      k := k + 1;
    }
  }

  lemma UnlockStep(n: nat, s: Shared, t: Thread, r: (Shared, Thread))
    requires Shape(s.sched) && |s.mutex.waiters| == MAX_PROCESSES && s.mutex.nwaiters <= MAX_PROCESSES
    requires Shape(r.0.sched) && |r.0.mutex.waiters| == MAX_PROCESSES
    requires UnlockAt(n, s, t, r) && r.1.pc != Head(n, t.i + 1)
    ensures UnlockAt(n, s, t, Execute(n, r.0, r.1)) && Left(Execute(n, r.0, r.1).1.pc) < Left(r.1.pc)
  {
  }

  lemma {:induction false} Last(n: nat, s: Shared, t: Thread, k: nat)
    requires Shape(s.sched) && |s.mutex.waiters| == MAX_PROCESSES
    ensures var r := Burst(n, s, t, k); Burst(n, s, t, k + 1) == Execute(n, r.0, r.1)
    decreases k
  {
    hide Execute;
    if k > 0 {
      var r := Execute(n, s, t);
      Last(n, r.0, r.1, k - 1);
    }
  }

  function Left(pc: Pc): nat {
    match pc
    case ClearOwner => 8
    case ClearLocked => 7
    case Test => 6
    case PopLoad => 5
    case PopStore => 4
    case PopRead => 3
    case WakeTest => 2
    case Wake => 1
    case _ => 0
  }

  /** How far mutex_unlock has come from (s, t). */
  ghost predicate UnlockAt(n: nat, s: Shared, t: Thread, r: (Shared, Thread))
    requires Shape(s.sched) && |s.mutex.waiters| == MAX_PROCESSES && s.mutex.nwaiters <= MAX_PROCESSES
  {
    var m, pc := s.mutex, r.1.pc;
    var off := m.(owner := -1, locked := 0);
    var popped := off.(nwaiters := m.nwaiters - 1);
    match pc
    case ClearOwner => r == (s, t)
    case ClearLocked => r == (s.(mutex := m.(owner := -1)), t.(pc := pc))
    case Test => r == (s.(mutex := off), t.(pc := pc))
    case PopLoad => m.nwaiters > 0 && r == (s.(mutex := off), t.(pc := pc))
    case PopStore => m.nwaiters > 0 && r == (s.(mutex := off), t.(pc := pc, reg := m.nwaiters - 1))
    case PopRead => m.nwaiters > 0 && r == (s.(mutex := popped), t.(pc := pc, reg := m.nwaiters - 1))
    case WakeTest =>
      m.nwaiters > 0 && r == (s.(mutex := popped), t.(pc := pc, reg := m.nwaiters - 1,
          popped := m.waiters[m.nwaiters - 1]))
    case Wake =>
      && m.nwaiters > 0 && m.waiters[m.nwaiters - 1] < MAX_PROCESSES
      && s.sched.states[m.waiters[m.nwaiters - 1]] == BLOCKED
      && r == (s.(mutex := popped), t.(pc := pc, reg := m.nwaiters - 1, popped := m.waiters[m.nwaiters - 1]))
    case _ =>
      && r.1 == Again(n, t).(reg := r.1.reg, popped := r.1.popped)
      && r.0 == Unlocked(s)
  }

  /** What mutex_unlock does, uninterrupted. */
  function Unlocked(s: Shared): Shared
    requires Shape(s.sched) && |s.mutex.waiters| == MAX_PROCESSES && s.mutex.nwaiters <= MAX_PROCESSES
  {
    var m := s.mutex.(owner := -1, locked := 0);
    if m.nwaiters <= 0 then s.(mutex := m)
    else s.(mutex := m.(nwaiters := m.nwaiters - 1), sched := SchedSpec.Unblock(s.sched, m.waiters[m.nwaiters - 1]))
  }

  /**
   * mutex_unlock in any state: the mutex is free; the last waiter, if any, is off the list, and READY if it was
   * BLOCKED.
   */
  lemma UnlockResult(s: Shared)
    requires Shape(s.sched) && |s.mutex.waiters| == 16 && s.mutex.nwaiters <= 16
    ensures var u, n := Unlocked(s), s.mutex.nwaiters;
            && u.mutex.locked == 0 && u.mutex.owner == -1 && u.mutex.waiters == s.mutex.waiters
            && u.counter == s.counter && u.interrupts == s.interrupts
            && u.mutex.nwaiters == (if n > 0 then n - 1 else n)
            && |u.sched.states| == 16 && u.sched.cur == s.sched.cur
            && forall p | 0 <= p < 16 ::
                 u.sched.states[p] ==
                 if n > 0 && s.mutex.waiters[n - 1] == p && s.sched.states[p] == BLOCKED then READY
                     else s.sched.states[p]
  {
  }

  /** Listing puts the process after those already listed, and keeps them and the rest of the mutex. */
  lemma EnlistResult(m: MutexSpec.Mutex, pid: nat)
    requires 0 <= m.nwaiters < |m.waiters|
    ensures var e := Enlist(m, pid);
            && e.nwaiters == m.nwaiters + 1 && e.waiters[m.nwaiters] == pid && |e.waiters| == |m.waiters|
            && (forall i | 0 <= i < |m.waiters| && i != m.nwaiters :: e.waiters[i] == m.waiters[i])
            && e.locked == m.locked && e.owner == m.owner
  {
  }

  // ---- the order of waking ---------------------------------------------------------------------------------------

  /** A list of different BLOCKED waiters. */
  ghost predicate Queued(s: Shared) {
    && Shape(s.sched) && |s.mutex.waiters| == MAX_PROCESSES && 0 < s.mutex.nwaiters <= MAX_PROCESSES
    && (forall i | 0 <= i < s.mutex.nwaiters ::
        s.mutex.waiters[i] < MAX_PROCESSES && s.sched.states[s.mutex.waiters[i]] == BLOCKED)
    && (forall i, j | 0 <= i < j < s.mutex.nwaiters :: s.mutex.waiters[i] != s.mutex.waiters[j])
  }

  /** mutex_unlock wakes the waiter that came last and nobody else, and keeps the others in order. */
  lemma WakesLast(s: Shared)
    requires Queued(s)
    ensures var u, m := Unlocked(s), s.mutex;
            && u.mutex.waiters == m.waiters && u.mutex.nwaiters == m.nwaiters - 1
            && (forall i | 0 <= i < m.nwaiters :: u.sched.states[m.waiters[i]] == READY <==> i == m.nwaiters - 1)
            && (forall p | 0 <= p < MAX_PROCESSES && p != m.waiters[m.nwaiters - 1] ::
                u.sched.states[p] == s.sched.states[p])
  {
  }

  /** So the first to come is the first woken exactly when nobody else waits. */
  lemma FirstWokenFirst(s: Shared)
    requires Queued(s)
    ensures Unlocked(s).sched.states[s.mutex.waiters[0]] == READY <==> s.mutex.nwaiters == 1
  {
    WakesLast(s);
  }

  /** Process 1 came before process 2, and process 2 is woken. */
  lemma NotFifo() returns (s: Shared)
    ensures Queued(s) && s.mutex.nwaiters == 2 && s.mutex.waiters[0] == 1 && s.mutex.waiters[1] == 2
    ensures var u := Unlocked(s); u.sched.states[1] == BLOCKED && u.sched.states[2] == READY
  {
    var states := [READY, BLOCKED, BLOCKED, RUNNING] + seq(MAX_PROCESSES - 4, _ => FREE);
    var waiters := [1, 2] + seq(MAX_PROCESSES - 2, _ => 0);
    s := Shared(Sched(states, 3), true, MutexSpec.Mutex(1, 3, waiters, 2), 0);
    WakesLast(s);
  }

  /** Marking the current thread BLOCKED keeps the kernel's invariant, and there is a process to switch to. */
  lemma Sleepy(l: ContextSpec.Layout, m: ContextSpec.Machine, ret: nat)
    requires ContextSpec.Inv(l, m) && ContextSpec.Room(l, m) && m.sched.cur != 0
        && m.sched.states[m.sched.cur] == RUNNING
    ensures var b := m.(sched := Block(m.sched), cpu := m.cpu.(interrupts := true));
            && ContextSpec.Inv(l, b) && ContextSpec.Room(l, b) && Next(b.sched, 1) != m.sched.cur
            && ContextSpec.Step(l, b, ContextSpec.Reschedule(ret)).sched == Switch(b.sched)
  {
    var e := ContextSpec.Other(BlockEv);
    ContextLaws.StepInv(l, m, e);
    var t := ContextSpec.Step(l, m, e);
    ContextLaws.Masked(l, t, true, ret);
    SwitchSucceeds(t.sched);
    ContextLaws.SchedPart(l, t.(cpu := t.cpu.(interrupts := true)), ContextSpec.Reschedule(ret));
    hide Next, ContextSpec.FrameIn, ContextSpec.Low, ContextSpec.High;
  }

  class Mutex {
    var locked: int
    var owner: int
    const waiters: array<nat>
    var nwaiters: int

    ghost predicate Valid() { waiters.Length == MAX_PROCESSES }

    ghost function View(): MutexSpec.Mutex
      reads this, waiters
    {
      MutexSpec.Mutex(locked, owner, waiters[..], nwaiters)
    }

    /** mutex_init. */
    constructor ()
      ensures Valid() && fresh(waiters) && View() == InitMutex(View())
      ensures locked == 0 && owner == -1 && nwaiters == 0
    {
      locked := 0;
      owner := -1;
      nwaiters := 0;
      waiters := new nat[MAX_PROCESSES];
    }

    method AtomicXchg(v: int) returns (was: int)
      modifies this`locked
      ensures was == old(locked) && locked == v
    {
      was := locked;
      locked := v;
    }

    /** The mutex and the kernel as one worker sees them. */
    ghost function World(kernel: Kernels.Kernel, counter: int): (s: Shared)
      requires Valid() && kernel.Valid()
      reads this, waiters, kernel, kernel.mem, kernel.states
      ensures Shape(s.sched) && |s.mutex.waiters| == MAX_PROCESSES
    {
      Shared(kernel.View().sched, kernel.interrupts, View(), counter)
    }

    /** The caller lists itself, marks itself BLOCKED and yields. */
    method Park(kernel: Kernels.Kernel, ret: nat)
      requires Valid() && kernel.Valid() && waiters != kernel.mem
      requires ContextSpec.Inv(kernel.layout, kernel.View()) && ContextSpec.Room(kernel.layout, kernel.View())
      requires kernel.currentPid != 0 && kernel.states[kernel.currentPid] == RUNNING && 0 <= nwaiters < MAX_PROCESSES
      modifies this`nwaiters, waiters, kernel, kernel.mem, kernel.states
      ensures kernel.Valid() && View() == Enlist(old(View()), old(kernel.currentPid))
      ensures kernel.View().sched == Switch(Block(old(kernel.View().sched))) && kernel.interrupts
    {
      Sleepy(kernel.layout, kernel.View(), ret);
      hide ContextSpec.Inv, ContextSpec.Room, ContextSpec.Step, Switch, Next;
      kernel.interrupts := false;
      waiters[nwaiters] := kernel.currentPid;
      nwaiters := nwaiters + 1;
      kernel.states[kernel.currentPid] := BLOCKED;
      kernel.interrupts := true;
      kernel.SchedulerYield(ret);
    }

    /** One turn of mutex_lock's loop: the mutex is taken, or the caller is listed, BLOCKED and switched away. */
    method LockAttempt(kernel: Kernels.Kernel, ret: nat, ghost n: nat, ghost counter: int, ghost t: Thread)
        returns (acquired: bool)
      requires Valid() && kernel.Valid() && waiters != kernel.mem
      requires ContextSpec.Inv(kernel.layout, kernel.View()) && ContextSpec.Room(kernel.layout, kernel.View())
      requires kernel.currentPid != 0 && kernel.states[kernel.currentPid] == RUNNING && 0 <= nwaiters < MAX_PROCESSES
      requires t.pc == Xchg
      modifies this, waiters, kernel, kernel.mem, kernel.states
      ensures Valid() && kernel.Valid() && acquired == (old(locked) != 1)
      ensures var r := Burst(n, old(World(kernel, counter)), t, if acquired then 2 else 7);
              World(kernel, counter) == r.0 && r.1.pc == (if acquired then Load else Back)
    {
      ghost var s := World(kernel, counter);
      hide Burst, Switch, Next, ContextSpec.Inv;
      if locked == 1 { Sleepy(kernel.layout, kernel.View(), ret); Sleeps(n, s, t); } else { Acquires(n, s, t); }
      var was := AtomicXchg(1);
      if was == 1 {
        Park(kernel, ret);
        return false;
      }
      owner := kernel.currentPid;
      acquired := true;
    }

    /** mutex_unlock. */
    method Unlock(kernel: Kernels.Kernel, ghost n: nat, ghost counter: int, ghost t: Thread) returns (ghost k: nat)
      requires Valid() && kernel.Valid() && waiters != kernel.mem
      requires nwaiters <= MAX_PROCESSES && t.pc == ClearOwner
      modifies this, kernel.states
      ensures Valid() && kernel.Valid()
      ensures var r := Burst(n, old(World(kernel, counter)), t, k);
              World(kernel, counter) == r.0 && r.1 == Again(n, t).(reg := r.1.reg, popped := r.1.popped)
    {
      k := Wakes(n, World(kernel, counter), t);
      hide Burst;
      owner := -1;
      locked := 0;
      if nwaiters > 0 {
        nwaiters := nwaiters - 1;
        var pid := waiters[nwaiters];
        kernel.SchedulerUnblock(pid);
      }
    }
  }
}
