/**
 * Two threads incrementing a counter under the mutex, instruction by instruction (kernel/mutex.c, kernel/scheduler.c,
 * kernel/kernel.c).
 */
module MutexSpec {
  import opened SchedSpec

  /**
   * Where a worker is: the instruction it executes next.
   * Xchg to SetOwner is mutex_lock, Load to Store the increment, ClearOwner to Wake mutex_unlock.
   */
  datatype Pc =
    | Unborn
    | Xchg
    | Cli | Enqueue | Mark | Sti | YieldCli | Pick | YieldSti | Back
    | SetOwner
    | Load | Add | Store
    | ClearOwner | ClearLocked | Test | PopLoad | PopStore | PopRead | WakeTest | Wake
    | Exit | Halted

  /** i counts finished iterations; reg and popped are the worker's own temporaries. */
  datatype Thread = Thread(pid: nat, pc: Pc, i: nat, reg: int, popped: nat)

  datatype Mutex = Mutex(locked: int, owner: int, waiters: seq<nat>, nwaiters: int)

  datatype Shared = Shared(sched: Sched, interrupts: bool, mutex: Mutex, counter: int)

  datatype World = World(s: Shared, a: Thread, b: Thread)

  ghost predicate Shaped(w: World) {
    && Shape(w.s.sched) && |w.s.mutex.waiters| == MAX_PROCESSES
    && 0 < w.a.pid < MAX_PROCESSES && 0 < w.b.pid < MAX_PROCESSES && w.a.pid != w.b.pid
  }

  /** mutex_init has run and neither worker has been created. */
  ghost predicate Initial(w: World) {
    && Shaped(w) && SchedSpec.Inv(w.s.sched)
    && w.s.sched.states[w.a.pid] == FREE && w.s.sched.states[w.b.pid] == FREE
    && w.s.mutex == InitMutex(w.s.mutex) && w.s.counter == 0
    && w.a == Thread(w.a.pid, Unborn, 0, 0, 0) && w.b == Thread(w.b.pid, Unborn, 0, 0, 0)
  }

  /** mutex_init leaves the waiter array as it is. */
  function InitMutex(m: Mutex): Mutex { Mutex(0, -1, m.waiters, 0) }

  /** The loop head: another iteration, or thread_exit. */
  function Head(n: nat, i: nat): Pc { if i < n then Xchg else Exit }

  // ---- steps ------------------------------------------------------------------------------------------------------

  /** The current worker executes its next instruction; n is how many times a worker increments. */
  function Execute(n: nat, s: Shared, t: Thread): (r: (Shared, Thread))
    requires Shape(s.sched) && |s.mutex.waiters| == MAX_PROCESSES
    ensures Shape(r.0.sched) && |r.0.mutex.waiters| == MAX_PROCESSES && r.1.pid == t.pid
  {
    if t.pc.Xchg? || Failed(t.pc) || t.pc.SetOwner? then Lock(s, t)
    else if t.pc.Load? || t.pc.Add? || t.pc.Store? then Increment(s, t)
    else if t.pc.Exit? then (s.(sched := Terminate(s.sched, s.sched.cur)), t.(pc := Halted))
    else Unlock(n, s, t)
  }

  /** mutex_lock, with scheduler_yield inside. */
  function Lock(s: Shared, t: Thread): (r: (Shared, Thread))
    requires Shape(s.sched) && |s.mutex.waiters| == MAX_PROCESSES
    ensures Shape(r.0.sched) && |r.0.mutex.waiters| == MAX_PROCESSES && r.1.pid == t.pid
  {
    var m := s.mutex;
    match t.pc
    case Xchg => (s.(mutex := m.(locked := 1)), t.(pc := if m.locked == 1 then Cli else SetOwner))
    case Cli => (s.(interrupts := false), t.(pc := Enqueue))
    case Enqueue =>
      if 0 <= m.nwaiters < MAX_PROCESSES
      then (s.(mutex := Enlist(m, s.sched.cur)), t.(pc := Mark))
      else (s, t)
    case Mark => (s.(sched := Block(s.sched)), t.(pc := Sti))
    case Sti => (s.(interrupts := true), t.(pc := YieldCli))
    case YieldCli => (s.(interrupts := false), t.(pc := Pick))
    case Pick =>
      if Next(s.sched, 1) == s.sched.cur then (s, t.(pc := YieldSti))
      else (s.(sched := Switch(s.sched), interrupts := true), t.(pc := Back))
    case YieldSti => (s.(interrupts := true), t.(pc := Back))
    case Back => (s, t.(pc := Xchg))
    case SetOwner => (s.(mutex := m.(owner := s.sched.cur)), t.(pc := Load))
    case _ => (s, t)
  }

  function Enlist(m: Mutex, pid: nat): Mutex
    requires 0 <= m.nwaiters < |m.waiters|
  {
    m.(waiters := m.waiters[m.nwaiters := pid], nwaiters := m.nwaiters + 1)
  }

  /** myglobal++ as three instructions. */
  function Increment(s: Shared, t: Thread): (Shared, Thread) {
    match t.pc
    case Load => (s, t.(pc := Add, reg := s.counter))
    case Add => (s, t.(pc := Store, reg := t.reg + 1))
    case Store => (s.(counter := t.reg), t.(pc := ClearOwner))
    case _ => (s, t)
  }

  /** mutex_unlock, with scheduler_unblock inside. */
  function Unlock(n: nat, s: Shared, t: Thread): (r: (Shared, Thread))
    requires Shape(s.sched) && |s.mutex.waiters| == MAX_PROCESSES
    ensures Shape(r.0.sched) && |r.0.mutex.waiters| == MAX_PROCESSES && r.1.pid == t.pid
  {
    var m := s.mutex;
    match t.pc
    case ClearOwner => (s.(mutex := m.(owner := -1)), t.(pc := ClearLocked))
    case ClearLocked => (s.(mutex := m.(locked := 0)), t.(pc := Test))
    case Test => (s, if m.nwaiters > 0 then t.(pc := PopLoad) else Again(n, t))
    case PopLoad => (s, t.(pc := PopStore, reg := m.nwaiters - 1))
    case PopStore => (s.(mutex := m.(nwaiters := t.reg)), t.(pc := PopRead))
    case PopRead => (s, if 0 <= t.reg < MAX_PROCESSES then t.(pc := WakeTest, popped := m.waiters[t.reg]) else t)
    case WakeTest =>
      (s, if t.popped < MAX_PROCESSES && s.sched.states[t.popped] == BLOCKED then t.(pc := Wake) else Again(n, t))
    case Wake =>
      if t.popped < MAX_PROCESSES
      then (s.(sched := s.sched.(states := s.sched.states[t.popped := READY])), Again(n, t))
      else (s, t)
    case _ => (s, t)
  }

  /** The end of mutex_unlock and of one iteration. */
  function Again(n: nat, t: Thread): Thread { t.(pc := Head(n, t.i + 1), i := t.i + 1) }

  datatype Event =
    | Tick                      // timer interrupt, between any two instructions
    | RunA | RunB               // the next instruction of a worker
    | BornA | BornB             // the shell creates a worker
    | Env(o: SchedSpec.Event)   // another process acts on the process table
    | Mask(on: bool)            // another process executes cli or sti

  ghost predicate Enabled(w: World, e: Event)
    requires Shaped(w)
  {
    match e
    case Tick => w.s.interrupts
    case RunA => CanRun(w.s, w.a)
    case RunB => CanRun(w.s, w.b)
    case BornA => CanStart(w.s, w.a)
    case BornB => CanStart(w.s, w.b)
    case Env(o) =>
      && Apart(w, w.a) && Apart(w, w.b) && SchedSpec.Enabled(w.s.sched, o)
      && Spares(w.s, o, w.a) && Spares(w.s, o, w.b)
    case Mask(on) => Apart(w, w.a) && Apart(w, w.b)
  }

  ghost predicate CanRun(s: Shared, t: Thread) { s.sched.cur == t.pid && !t.pc.Unborn? && !t.pc.Halted? }

  ghost predicate CanStart(s: Shared, t: Thread)
    requires Shape(s.sched)
  {
    s.sched.cur == 0 && t.pc.Unborn? && FreeSlot(s.sched, 1) == t.pid
  }

  ghost predicate Apart(w: World, t: Thread) { w.s.sched.cur != t.pid }

  /** No kills, no wake-ups from elsewhere, and the worker's slot is not given away. */
  ghost predicate Spares(s: Shared, o: SchedSpec.Event, t: Thread)
    requires Shape(s.sched)
  {
    match o
    case CreateEv => FreeSlot(s.sched, 1) != t.pid
    case TerminateEv(pid) => pid != t.pid
    case UnblockEv(pid) => pid != t.pid
    case _ => true
  }

  function Start(n: nat, t: Thread): Thread { t.(pc := Head(n, 0)) }

  ghost function Step(n: nat, w: World, e: Event): (v: World)
    requires Shaped(w) && Enabled(w, e)
    ensures Shaped(v)
  {
    match e
    case Tick => w.(s := w.s.(sched := Switch(w.s.sched), interrupts := true))
    case RunA => var (s, t) := Execute(n, w.s, w.a); World(s, t, w.b)
    case RunB => var (s, t) := Execute(n, w.s, w.b); World(s, w.a, t)
    case BornA => World(w.s.(sched := Create(w.s.sched)), Start(n, w.a), w.b)
    case BornB => World(w.s.(sched := Create(w.s.sched)), w.a, Start(n, w.b))
    case Env(o) => w.(s := w.s.(sched := SchedSpec.Step(w.s.sched, o), interrupts := w.s.interrupts || o.SwitchEv?))
    case Mask(on) => w.(s := w.s.(interrupts := on))
  }

  /** es leads from w to v by enabled steps. */
  ghost predicate Reaches(n: nat, w: World, es: seq<Event>, v: World)
    requires Shaped(w)
    decreases |es|
  {
    if es == [] then v == w else Enabled(w, es[0]) && Reaches(n, Step(n, w, es[0]), es[1..], v)
  }

  // ---- the invariant ----------------------------------------------------------------------------------------------

  /** Between a successful exchange and locked = 0. */
  predicate Critical(pc: Pc) { pc.SetOwner? || Owning(pc) || pc.ClearLocked? }

  predicate Owning(pc: Pc) { pc.Load? || pc.Add? || pc.Store? || pc.ClearOwner? }

  /** Between a failed exchange and the next attempt. */
  predicate Failed(pc: Pc) {
    pc.Cli? || pc.Enqueue? || pc.Mark? || pc.Sti? || pc.YieldCli? || pc.Pick? || pc.YieldSti? || pc.Back?
  }

  /** Interrupts are off exactly here. */
  predicate Masked(pc: Pc) { pc.Enqueue? || pc.Mark? || pc.Sti? || pc.Pick? || pc.YieldSti? }

  /** Taking a waiter off the list and waking it. */
  predicate Popping(pc: Pc) { pc.PopLoad? || pc.PopStore? || Removed(pc) }

  /** The waiter is off the list and not awake yet. */
  predicate Removed(pc: Pc) { pc.PopRead? || pc.WakeTest? || pc.Wake? }

  /** How a worker's place in the program fits its process state and the interrupt flag. */
  ghost predicate Placed(n: nat, s: Shared, t: Thread)
    requires Shape(s.sched) && t.pid < MAX_PROCESSES
  {
    var st, here := s.sched.states[t.pid], s.sched.cur == t.pid;
    && (Masked(t.pc) ==> here && !s.interrupts)
    && (here && !Masked(t.pc) ==> s.interrupts)
    && (t.pc.Unborn? <==> st == FREE)
    && (t.pc.Halted? <==> st == TERMINATED)
    && (st == BLOCKED ==> t.pc.Sti? || t.pc.YieldCli? || t.pc.Pick? || t.pc.Back?)
    && (here && st != BLOCKED && st != TERMINATED ==> st == RUNNING)
    && (here && t.pc.Back? ==> st == RUNNING)
    && !t.pc.YieldSti?
    && t.i <= n && (t.i == n <==> t.pc.Exit? || t.pc.Halted? || (t.pc.Unborn? && n == 0))
  }

  ghost predicate Locking(m: Mutex, a: Thread, b: Thread) {
    && !(Critical(a.pc) && Critical(b.pc))
    && !(Failed(a.pc) && Failed(b.pc))
    && (Failed(a.pc) ==> !b.pc.Unborn?) && (Failed(b.pc) ==> !a.pc.Unborn?)
    && m.locked == (if Critical(a.pc) || Critical(b.pc) then 1 else 0)
    && (Owning(a.pc) ==> m.owner == a.pid)
    && (Owning(b.pc) ==> m.owner == b.pid)
    && (!Owning(a.pc) && !Owning(b.pc) ==> m.owner == -1)
  }

  ghost predicate Listed(m: Mutex, t: Thread)
    requires |m.waiters| == MAX_PROCESSES
  {
    m.nwaiters == 1 && m.waiters[0] == t.pid
  }

  ghost predicate IsBlocked(s: Shared, t: Thread)
    requires Shape(s.sched) && t.pid < MAX_PROCESSES
  {
    s.sched.states[t.pid] == BLOCKED
  }

  /** The waiter list, as seen from worker t. */
  ghost predicate Waiting(s: Shared, t: Thread, other: Thread)
    requires Shape(s.sched) && t.pid < MAX_PROCESSES && other.pid < MAX_PROCESSES && |s.mutex.waiters| == MAX_PROCESSES
  {
    var m := s.mutex;
    && (m.nwaiters == 0 || Listed(m, t) || Listed(m, other))
    && (Listed(m, t) ==> t.pc.Mark? || IsBlocked(s, t))
    && (t.pc.Mark? ==> Listed(m, t))
    && (IsBlocked(s, t) ==> Listed(m, t) || Removed(other.pc))
    && (Popping(t.pc) ==> IsBlocked(s, other) && s.sched.cur != other.pid)
    && (t.pc.PopLoad? || t.pc.PopStore? ==> Listed(m, other))
    && (t.pc.PopStore? || t.pc.PopRead? ==> t.reg == 0)
    && (Removed(t.pc) ==> m.nwaiters == 0)
    && (t.pc.PopRead? ==> m.waiters[0] == other.pid)
    && (t.pc.WakeTest? || t.pc.Wake? ==> t.popped == other.pid)
  }

  /** How many times a worker has stored the counter. */
  function Stored(t: Thread): nat {
    t.i + (if t.pc.ClearOwner? || t.pc.ClearLocked? || t.pc.Test? || Popping(t.pc) then 1 else 0)
  }

  ghost predicate Counting(s: Shared, t: Thread, other: Thread) {
    && s.counter == Stored(t) + Stored(other)
    && (t.pc.Add? ==> t.reg == s.counter)
    && (t.pc.Store? ==> t.reg == s.counter + 1)
  }

  ghost predicate Inv(n: nat, w: World) {
    && Shaped(w) && SchedSpec.Inv(w.s.sched)
    && Placed(n, w.s, w.a) && Placed(n, w.s, w.b)
    && Locking(w.s.mutex, w.a, w.b)
    && Waiting(w.s, w.a, w.b) && Waiting(w.s, w.b, w.a)
    && Counting(w.s, w.a, w.b) && Counting(w.s, w.b, w.a)
  }
}
