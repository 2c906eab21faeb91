/** The mutex is safe but not live: a worker can sleep forever (kernel/mutex.c, lines 25-32). */
module LostWakeups {
  import opened SchedSpec
  import opened MutexSpec
  import MutexLaws

  predicate Over(pc: Pc) { pc.Exit? || pc.Halted? }

  /**
   * A worker that is BLOCKED when the other one has done its iterations stays BLOCKED, and the counter short, whatever
   * happens next.
   */
  lemma {:induction false} SleepsForever(n: nat, w: World, es: seq<MutexSpec.Event>, v: World)
    requires Shaped(w) && MutexSpec.Inv(n, w) && Reaches(n, w, es, v)
    requires Over(w.a.pc) && IsBlocked(w.s, w.b)
    ensures Shaped(v) && Over(v.a.pc) && IsBlocked(v.s, v.b) && v.s.counter < 2 * n
    decreases |es|
  {
    if es == [] {
      Short(n, w);
    } else {
      MutexLaws.StepInv(n, w, es[0]);
      SleepsStep(n, w, es[0]);
      hide MutexSpec.Inv, MutexSpec.Enabled, MutexSpec.Step;
      SleepsForever(n, MutexSpec.Step(n, w, es[0]), es[1..], v);
    }
  }

  lemma Short(n: nat, w: World)
    requires MutexSpec.Inv(n, w) && Over(w.a.pc) && IsBlocked(w.s, w.b)
    ensures w.s.counter < 2 * n
  {
    hide SchedSpec.Inv, Waiting, Locking;
  }

  lemma SleepsStep(n: nat, w: World, e: MutexSpec.Event)
    requires MutexSpec.Inv(n, w) && MutexSpec.Enabled(w, e)
    requires Over(w.a.pc) && IsBlocked(w.s, w.b)
    ensures var v := MutexSpec.Step(n, w, e); Over(v.a.pc) && IsBlocked(v.s, v.b)
  {
    hide Waiting, Counting, Locking, Next;
    NextReady(w.s.sched, 1);
  }

  // ---- exactly when a sleeper can wake ---------------------------------------------------------------------------

  /** How many instructions the other worker has to go until it wakes a listed sleeper. */
  function ToGo(pc: Pc): nat {
    match pc
    case Xchg => 13
    case SetOwner => 12
    case Load => 11
    case Add => 10
    case Store => 9
    case ClearOwner => 8
    case ClearLocked => 7
    case Test => 6
    case PopLoad => 5
    case PopStore => 4
    case PopRead => 3
    case WakeTest => 2
    case Wake => 1
    case _ => 0
  }

  lemma CanGo(n: nat, w: World)
    requires MutexSpec.Inv(n, w) && IsBlocked(w.s, w.b) && !Over(w.a.pc)
    ensures ToGo(w.a.pc) > 0
    ensures w.s.sched.cur != w.a.pid ==> w.s.sched.states[w.a.pid] == READY
    ensures w.s.sched.cur == w.a.pid ==> CanRun(w.s, w.a)
  {
    hide Counting;
  }

  /** Each instruction of the other worker brings the wake-up nearer. */
  lemma RunNearer(n: nat, w: World)
    requires MutexSpec.Inv(n, w) && IsBlocked(w.s, w.b) && CanRun(w.s, w.a) && !Over(w.a.pc)
    ensures var v := MutexSpec.Step(n, w, RunA);
            IsBlocked(v.s, v.b) ==> !Over(v.a.pc) && ToGo(v.a.pc) < ToGo(w.a.pc)
  {
    hide Counting, SchedSpec.Inv, Next, Switch;
  }

  /** The step to take while the other worker is not current. */
  function Towards(w: World): MutexSpec.Event {
    if w.s.interrupts then Tick else if w.s.sched.cur == w.b.pid then RunB else Mask(true)
  }

  lemma TowardsNearer(n: nat, w: World)
    requires MutexSpec.Inv(n, w) && IsBlocked(w.s, w.b)
    requires w.s.sched.cur != w.a.pid && w.s.sched.states[w.a.pid] == READY
    ensures MutexSpec.Enabled(w, Towards(w))
    ensures var v := MutexSpec.Step(n, w, Towards(w));
            && v.a == w.a && IsBlocked(v.s, v.b)
            && (|| Distance(v.s.sched.cur, w.a.pid) < Distance(w.s.sched.cur, w.a.pid)
                || (v.s.sched.cur == w.s.sched.cur && v.s.interrupts && !w.s.interrupts))
  {
    hide Counting, Locking, Next;
    NextReady(w.s.sched, 1);
    SwitchNearer(w.s.sched, w.a.pid);
  }

  lemma {:induction false} Wakeable(n: nat, w: World) returns (es: seq<MutexSpec.Event>, v: World)
    requires Shaped(w) && MutexSpec.Inv(n, w) && IsBlocked(w.s, w.b) && !Over(w.a.pc)
    ensures Shaped(v) && Reaches(n, w, es, v) && !IsBlocked(v.s, v.b)
    decreases ToGo(w.a.pc), Distance(w.s.sched.cur, w.a.pid), if w.s.interrupts then 0 else 1
  {
    hide MutexSpec.Inv, MutexSpec.Enabled, MutexSpec.Step, IsBlocked, ToGo, Distance, Over, CanRun, Towards;
    CanGo(n, w);
    var e: MutexSpec.Event;
    if w.s.sched.cur == w.a.pid {
      e := RunA;
      RunEnabled(w);
      RunNearer(n, w);
    } else {
      e := Towards(w);
      TowardsNearer(n, w);
    }
    MutexLaws.StepInv(n, w, e);
    v := MutexSpec.Step(n, w, e);
    es := [];
    if IsBlocked(v.s, v.b) { es, v := Wakeable(n, v); }
    es := [e] + es;
  }

  lemma RunEnabled(w: World)
    requires Shaped(w) && CanRun(w.s, w.a)
    ensures MutexSpec.Enabled(w, RunA)
  {
  }

  /** A sleeping worker can wake, in some continuation, if and only if the other one has iterations left. */
  lemma WakesIff(n: nat, w: World)
    requires Shaped(w) && MutexSpec.Inv(n, w) && IsBlocked(w.s, w.b)
    ensures (exists es, v :: Shaped(v) && Reaches(n, w, es, v) && !IsBlocked(v.s, v.b)) <==> !Over(w.a.pc)
  {
    hide MutexSpec.Inv, Over, IsBlocked, Reaches;
    if !Over(w.a.pc) {
      var es, v := Wakeable(n, w);
    } else {
      forall es, v | Shaped(v) && Reaches(n, w, es, v)
        ensures IsBlocked(v.s, v.b)
      {
        SleepsForever(n, w, es, v);
      }
    }
  }

  // ---- and when it does wake ---------------------------------------------------------------------------------------

  /** How many of the events are e. */
  function Turns(es: seq<MutexSpec.Event>, e: MutexSpec.Event): nat {
    if es == [] then 0 else (if es[0] == e then 1 else 0) + Turns(es[1..], e)
  }

  /** Process pid is BLOCKED from the first state of the run to the last. */
  ghost predicate Asleep(n: nat, w: World, es: seq<MutexSpec.Event>, v: World, pid: nat)
    requires Shaped(w) && Reaches(n, w, es, v) && pid < MAX_PROCESSES
    decreases |es|
  {
    && w.s.sched.states[pid] == BLOCKED
    && (es == [] || Asleep(n, MutexSpec.Step(n, w, es[0]), es[1..], v, pid))
  }

  lemma OthersKeep(n: nat, w: World, e: MutexSpec.Event)
    requires Shaped(w) && MutexSpec.Enabled(w, e) && e != RunA && !w.a.pc.Unborn?
    ensures MutexSpec.Step(n, w, e).a == w.a
  {
  }

  lemma Steadfast(n: nat, w: World)
    requires MutexSpec.Inv(n, w) && IsBlocked(w.s, w.b)
    ensures !w.a.pc.Unborn?
  {
    hide Counting;
  }

  /**
   * The boundary, over every run: a sleeper sleeps through a run that gives the other worker as many instructions as
   * it has to go, 13 at most, if and only if the other worker has done its iterations.
   */
  lemma {:induction false} SleepsThroughIff(n: nat, w: World, es: seq<MutexSpec.Event>, v: World)
    requires Shaped(w) && MutexSpec.Inv(n, w) && IsBlocked(w.s, w.b) && Reaches(n, w, es, v)
    requires Turns(es, RunA) >= ToGo(w.a.pc)
    ensures ToGo(w.a.pc) <= 13 && (Asleep(n, w, es, v, w.b.pid) <==> Over(w.a.pc))
    decreases |es|
  {
    hide MutexSpec.Inv, MutexSpec.Enabled, MutexSpec.Step;
    if es == [] {
      if !Over(w.a.pc) { CanGo(n, w); }
    } else {
      var e, u := es[0], MutexSpec.Step(n, w, es[0]);
      MutexLaws.StepInv(n, w, e);
      Advance(n, w, e);
      SamePids(n, w, e);
      if IsBlocked(u.s, u.b) { SleepsThroughIff(n, u, es[1..], v); }
    }
  }

  /** What one event does to a sleeper and to how far the other worker has to go. */
  lemma Advance(n: nat, w: World, e: MutexSpec.Event)
    requires Shaped(w) && MutexSpec.Inv(n, w) && IsBlocked(w.s, w.b) && MutexSpec.Enabled(w, e)
    ensures var u := MutexSpec.Step(n, w, e);
            && (Over(w.a.pc) ==> IsBlocked(u.s, u.b) && Over(u.a.pc))
            && (!Over(w.a.pc) && IsBlocked(u.s, u.b) ==>
                  !Over(u.a.pc) && ToGo(u.a.pc) <= ToGo(w.a.pc) - (if e == RunA then 1 else 0))
  {
    if Over(w.a.pc) {
      SleepsStep(n, w, e);
    } else if e == RunA {
      RunNearer(n, w);
    } else {
      Steadfast(n, w);
      OthersKeep(n, w, e);
    }
  }

  lemma SamePids(n: nat, w: World, e: MutexSpec.Event)
    requires Shaped(w) && MutexSpec.Enabled(w, e)
    ensures var u := MutexSpec.Step(n, w, e); u.a.pid == w.a.pid && u.b.pid == w.b.pid
  {
  }

  // ---- the other worker -------------------------------------------------------------------------------------------

  lemma {:induction false} AsleepMirrored(n: nat, w: World, es: seq<MutexSpec.Event>, v: World, pid: nat)
    requires Shaped(w) && Reaches(n, w, es, v) && pid < MAX_PROCESSES
    requires Shaped(MutexLaws.Swap(w)) && Reaches(n, MutexLaws.Swap(w), MutexLaws.Mirrored(es), MutexLaws.Swap(v))
    ensures Asleep(n, MutexLaws.Swap(w), MutexLaws.Mirrored(es), MutexLaws.Swap(v), pid) == Asleep(n, w, es, v, pid)
    ensures Turns(MutexLaws.Mirrored(es), RunA) == Turns(es, RunB)
    decreases |es|
  {
    hide MutexSpec.Enabled, MutexSpec.Step;
    if es != [] {
      var u := MutexSpec.Step(n, w, es[0]);
      MutexLaws.MirrorStep(n, w, es[0]);
      assert MutexLaws.Mirrored(es)[0] == MutexLaws.Mirror(es[0])
          && MutexLaws.Mirrored(es)[1..] == MutexLaws.Mirrored(es[1..]);
      MutexLaws.MirrorRun(n, u, es[1..], v);
      AsleepMirrored(n, u, es[1..], v, pid);
    }
  }

  /** The same boundary for the first worker. */
  lemma FirstSleepsThroughIff(n: nat, w: World, es: seq<MutexSpec.Event>, v: World)
    requires Shaped(w) && MutexSpec.Inv(n, w) && IsBlocked(w.s, w.a) && Reaches(n, w, es, v)
    requires Turns(es, RunB) >= ToGo(w.b.pc)
    ensures Asleep(n, w, es, v, w.a.pid) <==> Over(w.b.pc)
  {
    hide MutexSpec.Inv, Reaches, Asleep, Turns, MutexLaws.Mirrored;
    MutexLaws.Symmetric(n, w);
    MutexLaws.MirrorRun(n, w, es, v);
    AsleepMirrored(n, w, es, v, w.a.pid);
    SleepsThroughIff(n, MutexLaws.Swap(w), MutexLaws.Mirrored(es), MutexLaws.Swap(v));
  }

  /** And the same for whether it can wake at all. */
  lemma FirstWakesIff(n: nat, w: World)
    requires Shaped(w) && MutexSpec.Inv(n, w) && IsBlocked(w.s, w.a)
    ensures (exists es, v :: Shaped(v) && Reaches(n, w, es, v) && !IsBlocked(v.s, v.a)) <==> !Over(w.b.pc)
  {
    hide MutexSpec.Inv, Over, Reaches;
    MutexLaws.Symmetric(n, w);
    WakesIff(n, MutexLaws.Swap(w));
    if es, v :| Shaped(v) && Reaches(n, w, es, v) && !IsBlocked(v.s, v.a) {
      MutexLaws.MirrorRun(n, w, es, v);
      assert !IsBlocked(MutexLaws.Swap(v).s, MutexLaws.Swap(v).b) && Shaped(MutexLaws.Swap(v));
    }
    if es, v :| Shaped(v) && Reaches(n, MutexLaws.Swap(w), es, v) && !IsBlocked(v.s, v.b) {
      MutexLaws.MirrorRun(n, MutexLaws.Swap(w), es, v);
      assert !IsBlocked(MutexLaws.Swap(v).s, MutexLaws.Swap(v).a) && Shaped(MutexLaws.Swap(v))
          && MutexLaws.Swap(MutexLaws.Swap(w)) == w;
    }
  }

  // ---- a run that gets there ---------------------------------------------------------------------------------------

  lemma {:induction false} Extend(n: nat, w: World, es: seq<MutexSpec.Event>, v: World, e: MutexSpec.Event)
    requires Shaped(w) && Shaped(v) && Reaches(n, w, es, v) && MutexSpec.Enabled(v, e)
    ensures Reaches(n, w, es + [e], MutexSpec.Step(n, v, e))
    decreases |es|
  {
    hide MutexSpec.Enabled, MutexSpec.Step, Shaped;
    if es == [] {
      assert (es + [e])[1..] == [];
    } else {
      assert (es + [e])[1..] == es[1..] + [e];
      Extend(n, MutexSpec.Step(n, w, es[0]), es[1..], v, e);
    }
  }

  /** Processes 0, 1 and 2 in the given states, the other slots free. */
  function Three(p: PState, q: PState, r: PState, cur: nat): Sched {
    Sched([p, q, r] + seq(MAX_PROCESSES - 3, _ => FREE), cur)
  }

  lemma Chosen(s: Sched, q: nat)
    requires Shape(s) && q < MAX_PROCESSES && q != s.cur && s.states[q] == READY
    requires forall p | 0 <= p < MAX_PROCESSES && p != q && s.states[p] == READY ::
        Distance(s.cur, q) < Distance(s.cur, p)
    ensures Next(s, 1) == q
  {
    NextReady(s, 1);
    NextWithin(s, 1, q);
  }

  /** The tick that takes the CPU from one of the three to another. */
  lemma Turn(p: PState, q: PState, r: PState, cur: nat, next: nat)
    requires cur < 3 && next < 3 && next != cur
    requires forall i | 0 <= i < 3 && i != next && Three(p, q, r, cur).states[i] == READY ::
        Distance(cur, next) < Distance(cur, i)
    requires Three(p, q, r, cur).states[next] == READY
    ensures var s := Three(p, q, r, cur);
            var left := if s.states[cur] == RUNNING then READY else s.states[cur];
            Switch(s) == Sched(s.states[cur := left][next := RUNNING], next)
  {
    Chosen(Three(p, q, r, cur), next);
  }

  lemma Here(n: nat, w: World)
    requires Shaped(w)
    ensures Reaches(n, w, [], w)
  {
  }

  lemma Go(n: nat, w: World, es: seq<MutexSpec.Event>, v: World, e: MutexSpec.Event)
      returns (fs: seq<MutexSpec.Event>, u: World)
    requires Shaped(w) && Shaped(v) && Reaches(n, w, es, v) && MutexSpec.Enabled(v, e)
    ensures Shaped(u) && u == MutexSpec.Step(n, v, e) && Reaches(n, w, fs, u)
  {
    fs, u := es + [e], MutexSpec.Step(n, v, e);
    Extend(n, w, es, v, e);
  }

  function Zeros(): seq<nat> { seq(MAX_PROCESSES, _ => 0) }

  /** Worker a is process 1, worker b process 2; b has not stored anything yet. */
  function At(sched: Sched, locked: int, a: Thread, b: Pc): World {
    World(Shared(sched, true, Mutex(locked, -1, Zeros(), 0), 0), a, Thread(2, b, 0, 0, 0))
  }

  function Begin(): World { At(Three(RUNNING, FREE, FREE, 0), 0, Thread(1, Unborn, 0, 0, 0), Unborn) }

  /** Both workers have been created and neither has run. */
  function Born(n: nat): World { At(Three(RUNNING, READY, READY, 0), 0, Thread(1, Head(n, 0), 0, 0, 0), Head(n, 0)) }

  /** The first worker took the mutex and was interrupted. */
  function Taken(): World { At(Three(READY, READY, RUNNING, 2), 1, Thread(1, SetOwner, 0, 0, 0), Xchg) }

  /** The first worker took the mutex; the second one failed to, and was interrupted before it could say so. */
  function Middle(): World { At(Three(RUNNING, READY, READY, 0), 1, Thread(1, SetOwner, 0, 0, 0), Cli) }

  lemma BeginInitial()
    ensures Initial(Begin())
  {
  }

  lemma ToBorn(n: nat) returns (es: seq<MutexSpec.Event>)
    ensures Reaches(n, Begin(), es, Born(n))
  {
    Here(n, Begin());
    hide Reaches, Switch, Next;
    var v: World;
    es, v := Go(n, Begin(), [], Begin(), BornA);
    assert v.s.sched.states == Three(RUNNING, READY, FREE, 0).states;
    es, v := Go(n, Begin(), es, v, BornB);
    assert v.s.sched.states == Three(RUNNING, READY, READY, 0).states;
  }

  lemma ToTaken(w: World, es: seq<MutexSpec.Event>) returns (fs: seq<MutexSpec.Event>)
    requires Shaped(w) && Reaches(1, w, es, Born(1))
    ensures Reaches(1, w, fs, Taken())
  {
    hide Reaches, Switch, Next;
    var v := Born(1);
    Turn(RUNNING, READY, READY, 0, 1);
    fs, v := Go(1, w, es, v, Tick);
    assert v.s.sched.states == Three(READY, RUNNING, READY, 1).states;
    fs, v := Go(1, w, fs, v, RunA);
    Turn(READY, RUNNING, READY, 1, 2);
    fs, v := Go(1, w, fs, v, Tick);
    assert v.s.sched.states == Three(READY, READY, RUNNING, 2).states;
  }

  lemma ToMiddle(w: World, es: seq<MutexSpec.Event>) returns (fs: seq<MutexSpec.Event>)
    requires Shaped(w) && Reaches(1, w, es, Taken())
    ensures Reaches(1, w, fs, Middle())
  {
    hide Reaches, Switch, Next;
    var v := Taken();
    fs, v := Go(1, w, es, v, RunB);
    Turn(READY, READY, RUNNING, 2, 0);
    fs, v := Go(1, w, fs, v, Tick);
    assert v.s.sched.states == Three(RUNNING, READY, READY, 0).states;
  }

  /** The first worker increments. */
  lemma ToCounted(n: nat, w: World, es: seq<MutexSpec.Event>, v: World) returns (fs: seq<MutexSpec.Event>, u: World)
    requires Shaped(w) && Shaped(v) && Reaches(n, w, es, v)
    requires v.s.sched.cur == v.a.pid && v.a.pc.SetOwner?
    ensures Reaches(n, w, fs, u) && Shaped(u) && u.s.sched == v.s.sched && u.b == v.b
    ensures u.s.interrupts == v.s.interrupts && u.s.mutex.nwaiters == v.s.mutex.nwaiters
    ensures u.a.pid == v.a.pid && u.a.i == v.a.i && u.a.pc.ClearOwner?
  {
    hide Reaches, Switch, Next;
    fs, u := Go(n, w, es, v, RunA);
    fs, u := Go(n, w, fs, u, RunA);
    fs, u := Go(n, w, fs, u, RunA);
    fs, u := Go(n, w, fs, u, RunA);
  }

  /** It finishes before the second one puts itself on the list, and finds nobody to wake. */
  lemma ToDone(n: nat, w: World, es: seq<MutexSpec.Event>, v: World) returns (fs: seq<MutexSpec.Event>, u: World)
    requires Shaped(w) && Shaped(v) && Reaches(n, w, es, v)
    requires v.s.sched.cur == v.a.pid && v.a.pc.ClearOwner? && v.s.mutex.nwaiters == 0 && v.a.i + 1 == n
    ensures Reaches(n, w, fs, u) && Shaped(u) && u.s.sched == Terminate(v.s.sched, v.a.pid) && u.b == v.b
    ensures u.s.interrupts == v.s.interrupts && u.s.mutex.nwaiters == 0 && u.a.pc.Halted?
  {
    hide Reaches, Switch, Next;
    fs, u := Go(n, w, es, v, RunA);
    fs, u := Go(n, w, fs, u, RunA);
    fs, u := Go(n, w, fs, u, RunA);
    fs, u := Go(n, w, fs, u, RunA);
  }

  /** The second worker, past its failed exchange, lists itself and goes to sleep. */
  lemma ToSleep(n: nat, w: World, es: seq<MutexSpec.Event>, v: World) returns (fs: seq<MutexSpec.Event>, u: World)
    requires Shaped(w) && Shaped(v) && Reaches(n, w, es, v)
    requires v.s.sched.cur == v.b.pid && v.b.pc.Cli? && v.s.mutex.nwaiters == 0
    ensures Reaches(n, w, fs, u) && Shaped(u) && u.a == v.a && IsBlocked(u.s, u.b)
  {
    hide Reaches, Switch, Next;
    fs, u := Go(n, w, es, v, RunB);
    fs, u := Go(n, w, fs, u, RunB);
    fs, u := Go(n, w, fs, u, RunB);
  }

  /** The first worker gets the CPU, and keeps it until it is done; then the second one gets it. */
  lemma FirstFinishes(w: World, es: seq<MutexSpec.Event>) returns (fs: seq<MutexSpec.Event>, v: World)
    requires Shaped(w) && Reaches(1, w, es, Middle())
    ensures Reaches(1, w, fs, v) && Shaped(v) && v.a.pc.Halted?
    ensures v.s.sched.cur == v.b.pid && v.b.pc.Cli? && v.s.mutex.nwaiters == 0
  {
    hide Reaches, Switch, Next;
    Turn(RUNNING, READY, READY, 0, 1);
    fs, v := Go(1, w, es, Middle(), Tick);
    assert v.s.sched.states == Three(READY, RUNNING, READY, 1).states;
    fs, v := ToCounted(1, w, fs, v);
    fs, v := ToDone(1, w, fs, v);
    assert v.s.sched.states == Three(READY, TERMINATED, READY, 1).states;
    Turn(READY, TERMINATED, READY, 1, 2);
    fs, v := Go(1, w, fs, v, Tick);
  }

  /** The lost wake-up happens: from the moment mutex_init returns, a run leads to a worker that sleeps forever. */
  lemma LostWakeup() returns (w: World, es: seq<MutexSpec.Event>, v: World)
    ensures Initial(w) && Reaches(1, w, es, v) && MutexSpec.Inv(1, v)
    ensures v.a.pc.Halted? && IsBlocked(v.s, v.b)
  {
    hide Reaches, Begin, Born, Taken, Middle, At, SchedSpec.Inv, IsBlocked;
    w := Begin();
    es := ToBorn(1);
    BeginInitial();
    MutexLaws.InitialInv(1, w);
    MutexLaws.ShapedInv(1, w);
    es := ToTaken(w, es);
    es := ToMiddle(w, es);
    es, v := FirstFinishes(w, es);
    es, v := ToSleep(1, w, es, v);
    MutexLaws.ReachInv(1, w, es, v);
  }
}
