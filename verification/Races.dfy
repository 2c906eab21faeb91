/** Two threads incrementing a counter without the mutex (kernel/kernel.c, race_thread_a and race_thread_b). */
module Races {
  /** myglobal++ is a load, an add and a store; i counts finished iterations. */
  datatype Pc = Load | Add | Store | Done

  datatype Thread = Thread(pc: Pc, i: nat, reg: int)

  datatype World = World(counter: int, a: Thread, b: Thread)

  /** Which thread executes its next instruction: a tick may come between any two. */
  datatype Turn = A | B

  function Head(n: nat, i: nat): Pc { if i < n then Load else Done }

  function Start(n: nat): World { World(0, Thread(Head(n, 0), 0, 0), Thread(Head(n, 0), 0, 0)) }

  /** The next instruction of t: the new counter and thread. */
  function Execute(n: nat, counter: int, t: Thread): (int, Thread) {
    match t.pc
    case Load => (counter, t.(pc := Add, reg := counter))
    case Add => (counter, t.(pc := Store, reg := t.reg + 1))
    case Store => (t.reg, t.(pc := Head(n, t.i + 1), i := t.i + 1))
    case Done => (counter, t)
  }

  function Step(n: nat, w: World, e: Turn): World {
    match e
    case A => var r := Execute(n, w.counter, w.a); World(r.0, r.1, w.b)
    case B => var r := Execute(n, w.counter, w.b); World(r.0, w.a, r.1)
  }

  function Run(n: nat, w: World, es: seq<Turn>): World
    decreases |es|
  {
    if es == [] then w else Run(n, Step(n, w, es[0]), es[1..])
  }

  predicate Finished(w: World) { w.a.pc == Done && w.b.pc == Done }

  /** v is a result the demo can print. */
  ghost predicate Outcome(n: nat, v: int) {
    exists es :: Finished(Run(n, Start(n), es)) && Run(n, Start(n), es).counter == v
  }

  // ---- bounds ---------------------------------------------------------------------------------------------

  /** The value an iteration under way will store. */
  function Pending(t: Thread): int { if t.pc == Add then t.reg + 1 else t.reg }

  predicate UnderWay(t: Thread) { t.pc == Add || t.pc == Store }

  predicate Bounded(n: nat, w: World, t: Thread) {
    && t.i <= n && (t.pc == Done <==> t.i == n)
    && (UnderWay(t) ==> 1 <= Pending(t) <= w.a.i + w.b.i + 1)
    && (UnderWay(t) && t.i >= 1 ==> Pending(t) >= 2)
  }

  predicate Inv(n: nat, w: World) {
    && Bounded(n, w, w.a) && Bounded(n, w, w.b)
    && 0 <= w.counter <= w.a.i + w.b.i
    && (w.a.i + w.b.i >= 1 ==> w.counter >= 1)
    && (w.a.i >= 2 && w.b.i >= 2 ==> w.counter >= 2)
  }

  lemma StepInv(n: nat, w: World, e: Turn)
    requires Inv(n, w)
    ensures Inv(n, Step(n, w, e))
  {
    match e
    case A =>
    case B =>
  }

  lemma {:induction false} RunInv(n: nat, w: World, es: seq<Turn>)
    requires Inv(n, w)
    ensures Inv(n, Run(n, w, es))
    decreases |es|
  {
    hide Inv, Step;
    if es != [] {
      StepInv(n, w, es[0]);
      RunInv(n, Step(n, w, es[0]), es[1..]);
    }
  }

  // ---- every value in between ------------------------------------------------------------------------------------

  lemma {:induction false} RunJoin(n: nat, w: World, es: seq<Turn>, fs: seq<Turn>)
    ensures Run(n, w, es + fs) == Run(n, Run(n, w, es), fs)
    decreases |es|
  {
    if es == [] {
      assert es + fs == fs;
    } else {
      assert (es + fs)[1..] == es[1..] + fs;
      RunJoin(n, Step(n, w, es[0]), es[1..], fs);
    }
  }

  /** A thread left alone for m iterations adds m. */
  lemma {:induction false} AloneA(n: nat, w: World, m: nat) returns (es: seq<Turn>)
    requires w.a.i + m <= n && w.a.pc == Head(n, w.a.i)
    ensures var v := Run(n, w, es);
            v.counter == w.counter + m && v.b == w.b && v.a.i == w.a.i + m && v.a.pc == Head(n, v.a.i)
    decreases m
  {
    if m == 0 { return []; }
    es := AloneA(n, Step(n, Step(n, Step(n, w, A), A), A), m - 1);
    Three(n, w, A, A, A);
    RunJoin(n, w, [A, A, A], es);
    es := [A, A, A] + es;
  }

  lemma {:induction false} AloneB(n: nat, w: World, m: nat) returns (es: seq<Turn>)
    requires w.b.i + m <= n && w.b.pc == Head(n, w.b.i)
    ensures var v := Run(n, w, es);
            v.counter == w.counter + m && v.a == w.a && v.b.i == w.b.i + m && v.b.pc == Head(n, v.b.i)
    decreases m
  {
    if m == 0 { return []; }
    es := AloneB(n, Step(n, Step(n, Step(n, w, B), B), B), m - 1);
    Three(n, w, B, B, B);
    RunJoin(n, w, [B, B, B], es);
    es := [B, B, B] + es;
  }

  lemma Three(n: nat, w: World, x: Turn, y: Turn, z: Turn)
    ensures Run(n, w, [x, y, z]) == Step(n, Step(n, Step(n, w, x), y), z)
    ensures Run(n, w, [x, y]) == Step(n, Step(n, w, x), y)
    ensures Run(n, w, [x]) == Step(n, w, x)
  {
    hide Step;
    assert [x, y, z] == [x] + ([y] + [z]) && [x, y] == [x] + [y];
    RunJoin(n, w, [x], [y] + [z]);
    RunJoin(n, Step(n, w, x), [y], [z]);
    RunJoin(n, w, [x], [y]);
  }

  class Demo {
    var myglobal: int

    /** race_thread_a as code, with no tick while it runs: the run of the model in which only a moves. */
    method RaceThread(n: nat, ghost b: Thread) returns (ghost es: seq<Turn>)
      modifies this
      ensures myglobal == old(myglobal) + n
      ensures var v := Run(n, World(old(myglobal), Thread(Head(n, 0), 0, 0), b), es);
              v.counter == myglobal && v.a.pc == Done && v.b == b
    {
      es := AloneA(n, World(myglobal, Thread(Head(n, 0), 0, 0), b), n);
      for i := 0 to n
        invariant myglobal == old(myglobal) + i
      {
        var reg := myglobal;
        reg := reg + 1;
        myglobal := reg;
      }
    }
  }

  /** Appending a stretch to a run from the start. */
  lemma Then(n: nat, w: World, es: seq<Turn>, v: World, fs: seq<Turn>) returns (gs: seq<Turn>, u: World)
    requires Run(n, w, es) == v
    ensures u == Run(n, v, fs) && Run(n, w, gs) == u
  {
    gs, u := es + fs, Run(n, v, fs);
    RunJoin(n, w, es, fs);
  }

  /** One iteration of a overwrites the last `lost` iterations of b. */
  lemma LoseFew(n: nat, lost: nat) returns (es: seq<Turn>)
    requires 1 <= lost <= n
    ensures Finished(Run(n, Start(n), es)) && Run(n, Start(n), es).counter == 2 * n - lost
  {
    hide Run;
    var w, v := Start(n), Start(n);
    es := AloneA(n, w, n - 1);
    v := Run(n, w, es);
    var fs := AloneB(n, v, n - lost);
    es, v := Then(n, w, es, v, fs);
    Three(n, v, A, A, A);
    es, v := Then(n, w, es, v, [A]);
    fs := AloneB(n, v, lost);
    es, v := Then(n, w, es, v, fs);
    Three(n, v, A, A, A);
    es, v := Then(n, w, es, v, [A, A]);
  }

  /** b overwrites all but one iteration of a, and a's first one overwrites all but one of b's last ones. */
  lemma LoseMany(n: nat, lost: nat) returns (es: seq<Turn>)
    requires n < lost <= 2 * n - 2
    ensures Finished(Run(n, Start(n), es)) && Run(n, Start(n), es).counter == 2 * n - lost
  {
    hide Run;
    var w, v := Start(n), Start(n);
    var m := lost + 2 - n;
    es := AloneB(n, w, n - m);
    v := Run(n, w, es);
    Three(n, v, A, A, A);
    es, v := Then(n, w, es, v, [A]);
    var fs := AloneB(n, v, m - 1);
    es, v := Then(n, w, es, v, fs);
    Three(n, v, A, A, B);
    es, v := Then(n, w, es, v, [A, A, B]);
    fs := AloneA(n, v, n - 1);
    es, v := Then(n, w, es, v, fs);
    Three(n, v, B, B, B);
    es, v := Then(n, w, es, v, [B, B]);
  }

  lemma LoseNone(n: nat) returns (es: seq<Turn>)
    ensures Finished(Run(n, Start(n), es)) && Run(n, Start(n), es).counter == 2 * n
  {
    hide Run;
    var w := Start(n);
    es := AloneA(n, w, n);
    var v := Run(n, w, es);
    var fs := AloneB(n, v, n);
    es, v := Then(n, w, es, v, fs);
  }

  /** The results the unprotected demo can print are exactly the values from 2 (n when n is below 2) to 2n. */
  lemma Outcomes(n: nat, v: int)
    ensures Outcome(n, v) <==> (if n < 2 then n else 2) <= v <= 2 * n
  {
    if Outcome(n, v) {
      var es :| Finished(Run(n, Start(n), es)) && Run(n, Start(n), es).counter == v;
      RunInv(n, Start(n), es);
    }
    if (if n < 2 then n else 2) <= v <= 2 * n {
      var lost := 2 * n - v;
      var es: seq<Turn>;
      if lost == 0 { es := LoseNone(n); }
      else if lost <= n { es := LoseFew(n, lost); }
      else { es := LoseMany(n, lost); }
    }
  }
}
