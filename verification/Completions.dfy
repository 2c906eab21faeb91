/** The mutex demo can finish: for every n a run leads both workers to their end, with the counter at 2n. */
module Completions {
  import opened SchedSpec
  import opened MutexSpec
  import MutexLaws
  import opened LostWakeups

  // ---- one worker alone -----------------------------------------------------------------------------------

  /** Worker a is current, at its loop head, with the mutex free and nobody waiting. */
  ghost predicate Free(n: nat, w: World) {
    && Shaped(w) && w.s.sched.cur == w.a.pid && w.s.mutex.locked == 0 && w.s.mutex.nwaiters == 0
    && w.a.i <= n && w.a.pc == Head(n, w.a.i) && w.s.interrupts
  }

  /** What a's iterations leave alone. */
  ghost predicate Alone(w: World, v: World) {
    v.s.sched == w.s.sched && v.b == w.b && v.a.pid == w.a.pid
  }

  /** Worker a has the mutex and has just stored the counter. */
  ghost predicate Counted(n: nat, w: World) {
    Shaped(w) && w.s.sched.cur == w.a.pid && w.s.mutex.nwaiters == 0 && w.a.i < n && w.a.pc.ClearOwner?
        && w.s.interrupts
  }

  lemma LockAndCount(n: nat, w: World, es: seq<MutexSpec.Event>, v: World) returns (fs: seq<MutexSpec.Event>, u: World)
    requires Shaped(w) && Shaped(v) && Reaches(n, w, es, v) && Free(n, v) && v.a.i < n
    ensures Reaches(n, w, fs, u) && Counted(n, u) && Alone(v, u) && u.a.i == v.a.i
  {
    hide Reaches, Switch, Next;
    fs, u := Go(n, w, es, v, RunA);
    fs, u := ToCounted(n, w, fs, u);
  }

  lemma Release(n: nat, w: World, es: seq<MutexSpec.Event>, v: World) returns (fs: seq<MutexSpec.Event>, u: World)
    requires Shaped(w) && Shaped(v) && Reaches(n, w, es, v) && Counted(n, v)
    ensures Reaches(n, w, fs, u) && Free(n, u) && Alone(v, u) && u.a.i == v.a.i + 1
  {
    hide Reaches, Switch, Next;
    fs, u := Go(n, w, es, v, RunA);
    fs, u := Go(n, w, fs, u, RunA);
    fs, u := Go(n, w, fs, u, RunA);
  }

  lemma {:induction false} Iterations(n: nat, w: World, es: seq<MutexSpec.Event>, v: World)
      returns (fs: seq<MutexSpec.Event>, u: World)
    requires Shaped(w) && Shaped(v) && Reaches(n, w, es, v) && Free(n, v)
    ensures Reaches(n, w, fs, u) && Free(n, u) && Alone(v, u) && u.a.i == n
    decreases n - v.a.i
  {
    hide Reaches, Head;
    fs, u := es, v;
    if v.a.i < n {
      fs, u := LockAndCount(n, w, es, v);
      fs, u := Release(n, w, fs, u);
      fs, u := Iterations(n, w, fs, u);
    }
  }

  /** Worker a, left alone, goes on to its end. */
  lemma Finish(n: nat, w: World, es: seq<MutexSpec.Event>, v: World) returns (fs: seq<MutexSpec.Event>, u: World)
    requires Shaped(w) && Shaped(v) && Reaches(n, w, es, v) && Free(n, v)
    ensures Reaches(n, w, fs, u) && Shaped(u) && u.a.pc.Halted? && u.b == v.b && u.a.pid == v.a.pid
    ensures u.s.interrupts && u.s.mutex.locked == 0 && u.s.mutex.nwaiters == 0
    ensures u.s.sched == Terminate(v.s.sched, v.a.pid)
  {
    hide Reaches, Switch, Next;
    fs, u := Iterations(n, w, es, v);
    fs, u := Go(n, w, fs, u, RunA);
  }

  // ---- both -----------------------------------------------------------------------------------------------

  lemma FirstDone(n: nat) returns (es: seq<MutexSpec.Event>, v: World)
    ensures Reaches(n, Begin(), es, v) && Shaped(v) && v.a.pc.Halted? && Free(n, MutexLaws.Swap(v))
  {
    hide Reaches, Switch, Next;
    es := ToBorn(n);
    Turn(RUNNING, READY, READY, 0, 1);
    es, v := Go(n, Begin(), es, Born(n), Tick);
    assert v.s.sched.states == Three(READY, RUNNING, READY, 1).states;
    es, v := Finish(n, Begin(), es, v);
    assert v.s.sched.states == Three(READY, TERMINATED, READY, 1).states;
    Turn(READY, TERMINATED, READY, 1, 2);
    es, v := Go(n, Begin(), es, v, Tick);
  }

  /** For every n both workers can finish, and then the counter is 2n. */
  lemma BothDone(n: nat) returns (w: World, es: seq<MutexSpec.Event>, v: World)
    ensures Initial(w) && Reaches(n, w, es, v) && v.a.pc.Halted? && v.b.pc.Halted? && v.s.counter == 2 * n
  {
    hide Reaches, Terminate, Free, SchedSpec.Inv;
    w := Begin();
    BeginInitial();
    es, v := FirstDone(n);
    MutexLaws.MirrorRun(n, w, es, v);
    es, v := Finish(n, MutexLaws.Swap(w), MutexLaws.Mirrored(es), MutexLaws.Swap(v));
    MutexLaws.MirrorRun(n, MutexLaws.Swap(w), es, v);
    es, v := MutexLaws.Mirrored(es), MutexLaws.Swap(v);
    MutexLaws.ExactCount(n, w, es, v);
  }
}
