/** Mutual exclusion, the exact counter and the blocking discipline, over every interleaving. */
module MutexLaws {
  import opened SchedSpec
  import opened MutexSpec

  lemma InitialInv(n: nat, w: World)
    requires Initial(w)
    ensures MutexSpec.Inv(n, w)
  {
  }

  ghost predicate Ready(n: nat, w: World) { MutexSpec.Inv(n, w) && CanRun(w.s, w.a) }

  /** What worker a leaves, as a world. */
  ghost function After(n: nat, w: World): (v: World)
    requires Shaped(w)
    ensures Shaped(v)
  {
    var r := Execute(n, w.s, w.a);
    World(r.0, r.1, w.b)
  }

  /** An instruction of a worker is a scheduler step or leaves the process table alone. */
  lemma RunSched(n: nat, w: World)
    requires Ready(n, w)
    ensures SchedSpec.Inv(After(n, w).s.sched)
  {
    match w.a.pc {
      case Mark => SchedSpec.StepInv(w.s.sched, BlockEv);
      case Pick => SchedSpec.StepInv(w.s.sched, SwitchEv);
      case Wake => SchedSpec.StepInv(w.s.sched, UnblockEv(w.a.popped));
      case Exit => SchedSpec.StepInv(w.s.sched, TerminateEv(w.s.sched.cur));
      case _ =>
    }
  }

  lemma RunLocking(n: nat, w: World)
    requires Ready(n, w)
    ensures Locking(After(n, w).s.mutex, After(n, w).a, w.b)
  {
    hide SchedSpec.Inv, Waiting, Counting, Next, Switch, Block;
  }

  lemma RunCounting(n: nat, w: World)
    requires Ready(n, w)
    ensures var v := After(n, w); Counting(v.s, v.a, v.b) && Counting(v.s, v.b, v.a)
  {
    hide SchedSpec.Inv, Waiting, Placed, Next, Switch, Block;
  }

  lemma RunPlaced(n: nat, w: World)
    requires Ready(n, w)
    ensures var v := After(n, w); Placed(n, v.s, v.a) && Placed(n, v.s, v.b)
  {
    hide Counting, Locking, Next;
    if w.a.pc.Pick? { SwitchSucceeds(w.s.sched); NextReady(w.s.sched, 1); }
  }

  lemma RunWaitingSelf(n: nat, w: World)
    requires Ready(n, w)
    ensures var v := After(n, w); Waiting(v.s, v.a, v.b)
  {
    hide Counting, Next;
    if w.a.pc.Pick? { NextReady(w.s.sched, 1); }
  }

  lemma RunWaitingOther(n: nat, w: World)
    requires Ready(n, w)
    ensures var v := After(n, w); Waiting(v.s, v.b, v.a)
  {
    hide Counting, Next;
    if w.a.pc.Pick? { NextReady(w.s.sched, 1); }
  }

  lemma RunInv(n: nat, w: World)
    requires Ready(n, w)
    ensures MutexSpec.Inv(n, After(n, w))
  {
    hide After, SchedSpec.Inv, Placed, Locking, Waiting, Counting;
    RunSched(n, w);
    RunPlaced(n, w);
    RunLocking(n, w);
    RunWaitingSelf(n, w);
    RunWaitingOther(n, w);
    RunCounting(n, w);
    Pids(n, w);
  }

  lemma Pids(n: nat, w: World)
    requires Shaped(w)
    ensures After(n, w).a.pid == w.a.pid && After(n, w).b == w.b
  {
  }

  function Swap(w: World): World { World(w.s, w.b, w.a) }

  /** The two workers run the same program. */
  lemma Symmetric(n: nat, w: World)
    requires MutexSpec.Inv(n, w)
    ensures MutexSpec.Inv(n, Swap(w))
  {
    hide SchedSpec.Inv, Placed, Waiting, Counting;
  }

  // ---- the other steps ------------------------------------------------------------------------------------------

  /** A change of the process table that keeps both workers' states, up to READY and RUNNING, keeps the invariant. */
  ghost predicate Moved(before: Shared, after: Shared, t: Thread)
    requires Shape(before.sched) && Shape(after.sched) && t.pid < MAX_PROCESSES
  {
    var p, q := before.sched.states[t.pid], after.sched.states[t.pid];
    && (p == q || (p == RUNNING && q == READY) || (p == READY && q == RUNNING))
    && (after.sched.cur == t.pid && before.sched.cur != t.pid ==> q == RUNNING && after.interrupts)
    && (after.sched.cur == t.pid && before.sched.cur == t.pid ==> p == q && after.interrupts == before.interrupts)
    && (after.sched.cur != t.pid && before.sched.cur == t.pid ==> before.interrupts)
  }

  lemma MovedInv(n: nat, w: World, s: Shared)
    requires MutexSpec.Inv(n, w) && SchedSpec.Inv(s.sched) && s.mutex == w.s.mutex && s.counter == w.s.counter
    requires Moved(w.s, s, w.a) && Moved(w.s, s, w.b)
    ensures MutexSpec.Inv(n, w.(s := s))
  {
  }

  lemma SwitchMoves(s: Shared, on: bool, t: Thread)
    requires SchedSpec.Inv(s.sched) && t.pid < MAX_PROCESSES
    requires s.sched.cur == t.pid ==> s.interrupts && s.sched.states[t.pid] != FREE
    requires on
    ensures Moved(s, s.(sched := Switch(s.sched), interrupts := on), t)
  {
    NextReady(s.sched, 1);
  }

  lemma EnvMoves(s: Shared, o: SchedSpec.Event, on: bool, t: Thread)
    requires SchedSpec.Inv(s.sched) && SchedSpec.Enabled(s.sched, o) && 0 < t.pid < MAX_PROCESSES
    requires s.sched.cur != t.pid && Spares(s, o, t) && (o.SwitchEv? ==> on)
    ensures Moved(s, s.(sched := SchedSpec.Step(s.sched, o), interrupts := on), t)
  {
    NextReady(s.sched, 1);
  }

  lemma BornInv(n: nat, w: World)
    requires MutexSpec.Inv(n, w) && CanStart(w.s, w.a)
    ensures MutexSpec.Inv(n, World(w.s.(sched := Create(w.s.sched)), Start(n, w.a), w.b))
  {
    SchedSpec.StepInv(w.s.sched, CreateEv);
  }

  lemma StepInv(n: nat, w: World, e: MutexSpec.Event)
    requires MutexSpec.Inv(n, w) && MutexSpec.Enabled(w, e)
    ensures MutexSpec.Inv(n, MutexSpec.Step(n, w, e))
  {
    hide SchedSpec.Inv, Placed, Locking, Waiting, Counting;
    match e
    case RunA => RunInv(n, w);
    case RunB => Symmetric(n, w); RunInv(n, Swap(w)); Symmetric(n, After(n, Swap(w)));
    case BornA => BornInv(n, w);
    case BornB =>
      Symmetric(n, w);
      BornInv(n, Swap(w));
      Symmetric(n, World(w.s.(sched := Create(w.s.sched)), Start(n, w.b), w.a));
    case Tick => TickInv(n, w);
    case Env(o) => EnvInv(n, w, o);
    case Mask(on) =>
      assert Moved(w.s, w.s.(interrupts := on), w.a) && Moved(w.s, w.s.(interrupts := on), w.b);
      MovedInv(n, w, w.s.(interrupts := on));
  }

  lemma TickInv(n: nat, w: World)
    requires MutexSpec.Inv(n, w) && w.s.interrupts
    ensures MutexSpec.Inv(n, MutexSpec.Step(n, w, Tick))
  {
    hide Locking, Waiting, Counting, Moved, Switch;
    SchedSpec.StepInv(w.s.sched, SwitchEv);
    SwitchMoves(w.s, true, w.a);
    SwitchMoves(w.s, true, w.b);
    MovedInv(n, w, w.s.(sched := Switch(w.s.sched), interrupts := true));
  }

  lemma EnvInv(n: nat, w: World, o: SchedSpec.Event)
    requires MutexSpec.Inv(n, w) && MutexSpec.Enabled(w, Env(o))
    ensures MutexSpec.Inv(n, MutexSpec.Step(n, w, Env(o)))
  {
    hide SchedSpec.Inv, Placed, Locking, Waiting, Counting, Moved, Switch, SchedSpec.Step, Spares;
    SchedSpec.StepInv(w.s.sched, o);
    var on := w.s.interrupts || o.SwitchEv?;
    EnvMoves(w.s, o, on, w.a);
    EnvMoves(w.s, o, on, w.b);
    MovedInv(n, w, w.s.(sched := SchedSpec.Step(w.s.sched, o), interrupts := on));
  }

  // ---- over whole runs ----------------------------------------------------------------------------------------------

  lemma {:induction false} ReachInv(n: nat, w: World, es: seq<MutexSpec.Event>, v: World)
    requires Shaped(w) && MutexSpec.Inv(n, w) && Reaches(n, w, es, v)
    ensures Shaped(v) && MutexSpec.Inv(n, v)
    decreases |es|
  {
    hide MutexSpec.Inv, MutexSpec.Step, MutexSpec.Enabled;
    if es != [] {
      StepInv(n, w, es[0]);
      ReachInv(n, MutexSpec.Step(n, w, es[0]), es[1..], v);
    }
    assert MutexSpec.Inv(n, v);
    ShapedInv(n, v);
  }

  lemma ShapedInv(n: nat, w: World)
    requires MutexSpec.Inv(n, w)
    ensures Shaped(w)
  {
  }

  /**
   * At most one worker is between a successful exchange and locked = 0; locked says whether there is one, and owner is
   * -1 or that one.
   */
  lemma MutualExclusion(n: nat, w: World, es: seq<MutexSpec.Event>, v: World)
    requires Initial(w) && Reaches(n, w, es, v)
    ensures !(Critical(v.a.pc) && Critical(v.b.pc))
    ensures v.s.mutex.locked == (if Critical(v.a.pc) || Critical(v.b.pc) then 1 else 0)
    ensures || v.s.mutex.owner == -1
            || (Critical(v.a.pc) && v.s.mutex.owner == v.a.pid)
            || (Critical(v.b.pc) && v.s.mutex.owner == v.b.pid)
  {
    hide MutexSpec.Step, MutexSpec.Enabled;
    InitialInv(n, w);
    ReachInv(n, w, es, v);
    hide Shaped, SchedSpec.Inv, Placed, Waiting, Counting;
  }

  /** Whenever both workers have done all their iterations the counter is exactly 2n. */
  lemma ExactCount(n: nat, w: World, es: seq<MutexSpec.Event>, v: World)
    requires Initial(w) && Reaches(n, w, es, v)
    ensures v.s.counter <= 2 * n
    ensures (v.a.pc.Exit? || v.a.pc.Halted?) && (v.b.pc.Exit? || v.b.pc.Halted?) ==> v.s.counter == 2 * n
  {
    hide MutexSpec.Step, MutexSpec.Enabled;
    InitialInv(n, w);
    ReachInv(n, w, es, v);
    hide Shaped, SchedSpec.Inv, Waiting, Locking;
  }

  /**
   * The list holds at most one worker, which is BLOCKED or about to be; a BLOCKED worker is listed or being woken;
   * never both.
   */
  lemma BlockingDiscipline(n: nat, w: World, es: seq<MutexSpec.Event>, v: World)
    requires Initial(w) && Reaches(n, w, es, v)
    ensures Shaped(v)
    ensures v.s.mutex.nwaiters == 0 || v.s.mutex.nwaiters == 1
    ensures v.s.mutex.nwaiters == 1 ==>
              || (v.s.mutex.waiters[0] == v.a.pid && (IsBlocked(v.s, v.a) || v.a.pc.Mark?))
              || (v.s.mutex.waiters[0] == v.b.pid && (IsBlocked(v.s, v.b) || v.b.pc.Mark?))
    ensures IsBlocked(v.s, v.a) ==> Listed(v.s.mutex, v.a) || Removed(v.b.pc)
    ensures IsBlocked(v.s, v.b) ==> Listed(v.s.mutex, v.b) || Removed(v.a.pc)
    ensures !(IsBlocked(v.s, v.a) && IsBlocked(v.s, v.b))
  {
    hide MutexSpec.Step, MutexSpec.Enabled;
    InitialInv(n, w);
    ReachInv(n, w, es, v);
    hide SchedSpec.Inv, Counting;
  }

  // ---- the two workers are interchangeable ----------------------------------------------------------------

  function Mirror(e: MutexSpec.Event): MutexSpec.Event {
    match e
    case RunA => RunB
    case RunB => RunA
    case BornA => BornB
    case BornB => BornA
    case _ => e
  }

  function Mirrored(es: seq<MutexSpec.Event>): seq<MutexSpec.Event> {
    if es == [] then [] else [Mirror(es[0])] + Mirrored(es[1..])
  }

  lemma MirrorStep(n: nat, w: World, e: MutexSpec.Event)
    requires Shaped(w) && MutexSpec.Enabled(w, e)
    ensures Shaped(Swap(w)) && MutexSpec.Enabled(Swap(w), Mirror(e))
    ensures MutexSpec.Step(n, Swap(w), Mirror(e)) == Swap(MutexSpec.Step(n, w, e))
  {
    hide MutexSpec.Execute;
  }

  /** A run with the workers' parts exchanged is a run of the exchanged worlds. */
  lemma {:induction false} MirrorRun(n: nat, w: World, es: seq<MutexSpec.Event>, v: World)
    requires Shaped(w) && Reaches(n, w, es, v)
    ensures Shaped(Swap(w)) && Reaches(n, Swap(w), Mirrored(es), Swap(v))
    decreases |es|
  {
    hide MutexSpec.Enabled, MutexSpec.Step;
    if es != [] {
      MirrorStep(n, w, es[0]);
      MirrorRun(n, MutexSpec.Step(n, w, es[0]), es[1..], v);
      assert Mirrored(es)[0] == Mirror(es[0]) && Mirrored(es)[1..] == Mirrored(es[1..]);
    }
  }
}
