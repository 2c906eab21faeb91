/** Process states and round-robin scheduling as values (kernel/process.c, kernel/scheduler.c). */
module SchedSpec {
  const MAX_PROCESSES: nat := 16

  datatype PState = FREE | READY | RUNNING | BLOCKED | TERMINATED

  datatype Sched = Sched(states: seq<PState>, cur: nat)

  function Boot(): Sched {
    Sched([RUNNING] + seq(MAX_PROCESSES - 1, _ => FREE), 0)
  }

  ghost predicate Shape(s: Sched) {
    |s.states| == MAX_PROCESSES && s.cur < MAX_PROCESSES
  }

  /** The process i places after the current one. */
  function After(cur: nat, i: nat): nat { (cur + i) % MAX_PROCESSES }

  /**
   * The first READY process at distance i or more, cyclically after the current one; the current one itself when there
   * is none.
   */
  function Next(s: Sched, i: nat): (p: nat)
    requires Shape(s) && 1 <= i <= MAX_PROCESSES
    ensures p < MAX_PROCESSES
    decreases MAX_PROCESSES - i
  {
    if i == MAX_PROCESSES then s.cur
    else if s.states[After(s.cur, i)] == READY then After(s.cur, i)
    else Next(s, i + 1)
  }

  /** pick_and_switch. */
  function Switch(s: Sched): Sched
    requires Shape(s)
  {
    var p := Next(s, 1);
    if p == s.cur then s
    else
      var away := if s.states[s.cur] == RUNNING then s.states[s.cur := READY] else s.states;
      Sched(away[p := RUNNING], p)
  }

  /** The lowest FREE slot from i on, never slot 0; MAX_PROCESSES when there is none. */
  function FreeSlot(s: Sched, i: nat): (p: nat)
    requires Shape(s) && i <= MAX_PROCESSES
    ensures i <= p <= MAX_PROCESSES
    ensures p < MAX_PROCESSES ==> s.states[p] == FREE
    ensures forall j | i <= j < p :: s.states[j] != FREE
    decreases MAX_PROCESSES - i
  {
    if i == MAX_PROCESSES || s.states[i] == FREE then i else FreeSlot(s, i + 1)
  }

  function Create(s: Sched): Sched
    requires Shape(s)
  {
    var p := FreeSlot(s, 1);
    if p == MAX_PROCESSES then s else s.(states := s.states[p := READY])
  }

  function Terminate(s: Sched, pid: nat): Sched
    requires Shape(s)
  {
    if pid == 0 || pid >= MAX_PROCESSES then s else s.(states := s.states[pid := TERMINATED])
  }

  /** mutex_lock marking its caller. */
  function Block(s: Sched): Sched
    requires Shape(s)
  {
    s.(states := s.states[s.cur := BLOCKED])
  }

  function Unblock(s: Sched, pid: nat): Sched
    requires Shape(s)
  {
    if pid < MAX_PROCESSES && s.states[pid] == BLOCKED then s.(states := s.states[pid := READY]) else s
  }

  // ---- steps --------------------------------------------------------------------------------------------

  datatype Event = SwitchEv | CreateEv | TerminateEv(pid: nat) | BlockEv | UnblockEv(pid: nat)

  /**
   * PID 0 never takes a mutex, and a thread that terminated itself only halts: only a RUNNING thread other than PID 0
   * blocks.
   */
  predicate Enabled(s: Sched, e: Event)
    requires Shape(s)
  {
    e.BlockEv? ==> s.cur != 0 && s.states[s.cur] == RUNNING
  }

  function Step(s: Sched, e: Event): (t: Sched)
    requires Shape(s)
    ensures Shape(t)
  {
    match e
    case SwitchEv => Switch(s)
    case CreateEv => Create(s)
    case TerminateEv(pid) => Terminate(s, pid)
    case BlockEv => Block(s)
    case UnblockEv(pid) => Unblock(s, pid)
  }

  /** The state after the first k events. */
  function At(s: Sched, es: seq<Event>, k: nat): (t: Sched)
    requires Shape(s) && k <= |es|
    ensures Shape(t)
  {
    if k == 0 then s else Step(At(s, es, k - 1), es[k - 1])
  }

  ghost predicate Run(s: Sched, es: seq<Event>)
    requires Shape(s)
  {
    forall k | 0 <= k < |es| :: Enabled(At(s, es, k), es[k])
  }

  function Switches(es: seq<Event>, k: nat): nat
    requires k <= |es|
  {
    if k == 0 then 0 else Switches(es, k - 1) + (if es[k - 1].SwitchEv? then 1 else 0)
  }

  // ---- the state machine ------------------------------------------------------------------------------------

  /** No process but the current one is RUNNING; PID 0 is READY, or RUNNING when it is current. */
  ghost predicate Inv(s: Sched) {
    && Shape(s)
    && (forall p | 0 <= p < MAX_PROCESSES && p != s.cur :: s.states[p] != RUNNING)
    && s.states[s.cur] != FREE
    && s.states[0] == (if s.cur == 0 then RUNNING else READY)
  }

  lemma StepInv(s: Sched, e: Event)
    requires Inv(s) && Enabled(s, e)
    ensures Inv(Step(s, e))
  {
    if e.SwitchEv? && Next(s, 1) != s.cur { NextReady(s, 1); }
  }

  lemma {:induction false} NextReady(s: Sched, i: nat)
    requires Shape(s) && 1 <= i <= MAX_PROCESSES
    ensures var p := Next(s, i); p != s.cur ==> s.states[p] == READY
    ensures Next(s, i) == s.cur ==> forall j | i <= j < MAX_PROCESSES :: s.states[After(s.cur, j)] != READY
    decreases MAX_PROCESSES - i
  {
    if i < MAX_PROCESSES { NextReady(s, i + 1); }
  }

  lemma {:induction false} RunInv(s: Sched, es: seq<Event>, k: nat)
    requires Shape(s) && Inv(s) && Run(s, es) && k <= |es|
    ensures Inv(At(s, es, k))
  {
    hide Inv, Enabled, Step;
    if k > 0 {
      RunInv(s, es, k - 1);
      Taken(s, es, k - 1);
      StepInv(At(s, es, k - 1), es[k - 1]);
    }
  }

  /**
   * From boot, in every reachable state: at most the current process is RUNNING, PID 0 is READY or RUNNING, and a
   * switch away from any other process succeeds.
   */
  lemma FromBoot(es: seq<Event>, k: nat)
    requires Run(Boot(), es) && k <= |es|
    ensures var s := At(Boot(), es, k);
            && (forall p | 0 <= p < MAX_PROCESSES && p != s.cur :: s.states[p] != RUNNING)
            && (s.states[0] == READY || s.states[0] == RUNNING)
            && (s.cur != 0 ==> Switch(s).cur != s.cur && Switch(s).states[Switch(s).cur] == RUNNING)
  {
    assert Inv(Boot());
    RunInv(Boot(), es, k);
    var s := At(Boot(), es, k);
    if s.cur != 0 { SwitchSucceeds(s); }
  }

  lemma Taken(s: Sched, es: seq<Event>, k: nat)
    requires Shape(s) && Run(s, es) && k < |es|
    ensures Enabled(At(s, es, k), es[k]) && At(s, es, k + 1) == Step(At(s, es, k), es[k])
  {
    hide Enabled, Step;
  }

  /** When PID 0 is not current there is always a process to switch to. */
  lemma SwitchSucceeds(s: Sched)
    requires Inv(s) && s.cur != 0
    ensures Switch(s).cur != s.cur && Switch(s).states[Switch(s).cur] == RUNNING
  {
    NextReady(s, 1);
    assert After(s.cur, MAX_PROCESSES - s.cur) == 0;
  }

  /** A TERMINATED process that is not current stays TERMINATED and never runs again. */
  lemma {:induction false} TerminatedForever(s: Sched, es: seq<Event>, p: nat, k: nat)
    requires Shape(s) && Run(s, es) && k <= |es| && Gone(s, p)
    ensures Gone(At(s, es, k), p)
  {
    hide Gone, Enabled, Step;
    if k > 0 {
      TerminatedForever(s, es, p, k - 1);
      Taken(s, es, k - 1);
      TerminatedStep(At(s, es, k - 1), es[k - 1], p);
    }
  }

  ghost predicate Gone(s: Sched, p: nat)
    requires Shape(s)
  {
    p < MAX_PROCESSES && p != s.cur && s.states[p] == TERMINATED
  }

  lemma TerminatedStep(s: Sched, e: Event, p: nat)
    requires Shape(s) && Enabled(s, e) && Gone(s, p)
    ensures Gone(Step(s, e), p)
  {
    NextReady(s, 1);
  }

  /** A slot once in use is never FREE again, terminated or not, so no later creation gets it. */
  lemma {:induction false} SlotSpent(s: Sched, es: seq<Event>, p: nat, k: nat)
    requires Shape(s) && Run(s, es) && k <= |es| && p < MAX_PROCESSES && s.states[p] != FREE
    ensures At(s, es, k).states[p] != FREE && FreeSlot(At(s, es, k), 1) != p
  {
    hide Enabled, Step, Run;
    if k > 0 {
      SlotSpent(s, es, p, k - 1);
      Taken(s, es, k - 1);
      SlotSpentStep(At(s, es, k - 1), es[k - 1], p);
    }
  }

  lemma SlotSpentStep(s: Sched, e: Event, p: nat)
    requires Shape(s) && Enabled(s, e) && p < MAX_PROCESSES && s.states[p] != FREE
    ensures Step(s, e).states[p] != FREE
  {
    hide Next, FreeSlot;
  }

  lemma BlockedStep(s: Sched, e: Event, p: nat)
    requires Inv(s) && Enabled(s, e) && p < MAX_PROCESSES && s.states[p] == BLOCKED
    requires e != UnblockEv(p) && e != TerminateEv(p)
    ensures Step(s, e).states[p] == BLOCKED
    ensures s.cur != p || e == SwitchEv ==> Step(s, e).cur != p
  {
    if e.SwitchEv? {
      NextReady(s, 1);
      if s.cur == p { SwitchSucceeds(s); }
    }
  }

  /**
   * A BLOCKED process stays BLOCKED until somebody unblocks or terminates it, and from the first switch on it is not
   * current.
   */
  lemma {:induction false} BlockedStays(s: Sched, es: seq<Event>, p: nat, k: nat)
    requires Shape(s) && Inv(s) && Run(s, es) && k <= |es| && p < MAX_PROCESSES && s.states[p] == BLOCKED
    requires forall j | 0 <= j < |es| :: es[j] != UnblockEv(p) && es[j] != TerminateEv(p)
    ensures At(s, es, k).states[p] == BLOCKED
    ensures s.cur != p || Switches(es, k) > 0 ==> At(s, es, k).cur != p
  {
    hide Inv, Enabled, Step;
    if k > 0 {
      BlockedStays(s, es, p, k - 1);
      RunInv(s, es, k - 1);
      Taken(s, es, k - 1);
      BlockedStep(At(s, es, k - 1), es[k - 1], p);
    }
  }

  // ---- bounded waiting ----------------------------------------------------------------------------------------

  /** How many places after the current process p is. */
  function Distance(cur: nat, p: nat): nat
    requires cur < MAX_PROCESSES && p < MAX_PROCESSES
  {
    if cur <= p then p - cur else p + MAX_PROCESSES - cur
  }

  lemma Around(cur: nat, i: nat)
    requires cur < MAX_PROCESSES && i < MAX_PROCESSES
    ensures After(cur, i) < MAX_PROCESSES && Distance(cur, After(cur, i)) == i
    ensures forall p | 0 <= p < MAX_PROCESSES && Distance(cur, p) == i :: After(cur, i) == p
  {
  }

  lemma {:induction false} NextWithin(s: Sched, i: nat, p: nat)
    requires Shape(s) && p < MAX_PROCESSES && p != s.cur && s.states[p] == READY
    requires 1 <= i <= Distance(s.cur, p)
    ensures var q := Next(s, i); q != s.cur && Distance(s.cur, q) <= Distance(s.cur, p)
    ensures i <= Distance(s.cur, Next(s, i))
    decreases MAX_PROCESSES - i
  {
    Around(s.cur, i);
    Around(s.cur, Distance(s.cur, p));
    hide After;
    if s.states[After(s.cur, i)] != READY { NextWithin(s, i + 1, p); }
  }

  /** Every switch while p is READY brings p's turn strictly nearer, and is p's turn at the latest when it is next. */
  lemma SwitchNearer(s: Sched, p: nat)
    requires Shape(s) && p < MAX_PROCESSES && p != s.cur && s.states[p] == READY
    ensures var t := Switch(s);
            && t.cur != s.cur
            && (t.cur != p ==> t.states[p] == READY && 0 < Distance(t.cur, p) < Distance(s.cur, p))
  {
    NextWithin(s, 1, p);
    hide Next;
  }

  lemma WaitingStep(s: Sched, e: Event, p: nat)
    requires Shape(s) && Enabled(s, e) && p < MAX_PROCESSES && p != s.cur && s.states[p] == READY
    requires e != TerminateEv(p) && Step(s, e).cur != p
    ensures Step(s, e).states[p] == READY
    ensures Distance(Step(s, e).cur, p) + (if e.SwitchEv? then 1 else 0) <= Distance(s.cur, p)
  {
    if e.SwitchEv? { SwitchNearer(s, p); }
  }

  /** Up to the moment p is chosen it stays READY and its distance falls by at least one a switch. */
  lemma {:induction false} WaitingFalls(s: Sched, es: seq<Event>, p: nat, k: nat)
    requires Shape(s) && Run(s, es) && k <= |es| && p < MAX_PROCESSES && p != s.cur && s.states[p] == READY
    requires forall j | 0 <= j < |es| :: es[j] != TerminateEv(p)
    requires forall j | 0 <= j <= k :: At(s, es, j).cur != p
    ensures At(s, es, k).states[p] == READY
    ensures Distance(At(s, es, k).cur, p) + Switches(es, k) <= Distance(s.cur, p)
  {
    hide Enabled, Step, Distance, Run;
    if k > 0 {
      WaitingFalls(s, es, p, k - 1);
      Taken(s, es, k - 1);
      assert At(s, es, k).cur != p;
      WaitingStep(At(s, es, k - 1), es[k - 1], p);
    }
  }

  /** Bounded waiting: a READY process nobody terminates is chosen within its distance, at most 15 switches. */
  lemma BoundedWaiting(s: Sched, es: seq<Event>, p: nat)
    requires Shape(s) && Run(s, es) && p < MAX_PROCESSES && p != s.cur && s.states[p] == READY
    requires forall j | 0 <= j < |es| :: es[j] != TerminateEv(p)
    requires Switches(es, |es|) >= Distance(s.cur, p)
    ensures Distance(s.cur, p) <= MAX_PROCESSES - 1
    ensures exists k | 0 <= k <= |es| :: At(s, es, k).cur == p
  {
    if forall k | 0 <= k <= |es| :: At(s, es, k).cur != p {
      hide Run, Switches;
      WaitingFalls(s, es, p, |es|);
    }
  }

  /** Fifteen switches always suffice. */
  lemma FifteenSwitches(s: Sched, es: seq<Event>, p: nat)
    requires Shape(s) && Run(s, es) && p < MAX_PROCESSES && p != s.cur && s.states[p] == READY
    requires forall j | 0 <= j < |es| :: es[j] != TerminateEv(p)
    requires Switches(es, |es|) >= 15
    ensures exists k | 0 <= k <= |es| :: At(s, es, k).cur == p
  {
    BoundedWaiting(s, es, p);
  }
}
