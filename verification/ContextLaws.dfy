/** Resuming a process restores what it left, over whole runs. */
module ContextLaws {
  import opened Wrappers
  import opened SchedSpec
  import opened ContextSpec

  // ---- one switch -----------------------------------------------------------------------------------------------

  /**
   * Leaving: the frame pushed on p's own stack holds its registers, the return address and the stack pointer after the
   * call.
   */
  lemma SwitchOut(l: Layout, m: Machine, ret: nat)
    requires ContextSpec.Inv(l, m) && Room(l, m)
    ensures var t := ContextSpec.Step(l, m, Reschedule(ret));
            var p := m.sched.cur;
            t.sched.cur != p ==>
              FrameIn(l, t, p) && Saved(l, t, p) == Cpu(m.cpu.regs, m.cpu.esp - 2, ret, true)
  {
    hide Switch, Next, SchedSpec.Inv, Put, Load, CallWords;
    NextReady(m.sched, 1);
    var q := Next(m.sched, 1);
    if q != m.sched.cur {
      Pushed(m.mem, m.cpu, ret, EspSlot(l, m.sched.cur), m.mem[EspSlot(l, q)]);
    }
  }

  /** popad and ret undo a call of context_switch up to its pushad. */
  lemma Pushed(mem: seq<nat>, c: Cpu, ret: nat, slot: nat, target: nat)
    requires 11 <= c.esp <= |mem| && slot < |mem| && !(c.esp - 11 <= slot < c.esp)
    ensures Load(Put(mem, c.esp - 11, CallWords(c, ret, slot, target))[slot := c.esp - 11], c.esp - 11)
            == Cpu(c.regs, c.esp - 2, ret, true)
  {
  }

  /** Arriving: the CPU becomes exactly what the incoming process saved, with interrupts on. */
  lemma SwitchIn(l: Layout, m: Machine, ret: nat)
    requires ContextSpec.Inv(l, m) && Room(l, m)
    ensures var t := ContextSpec.Step(l, m, Reschedule(ret));
            var p := t.sched.cur;
            if p == m.sched.cur then t == m
            else FrameIn(l, m, p) && t.cpu == Saved(l, m, p)
  {
    NextReady(m.sched, 1);
    var p := Next(m.sched, 1);
    if p != m.sched.cur {
      StepApart(l, m, Reschedule(ret), p);
      var t := ContextSpec.Step(l, m, Reschedule(ret));
      hide Next, Switch, Put, CallWords, SchedSpec.Inv;
      FrameKept(l, m, t, p);
    }
  }

  /** A created process has a frame that starts it at its entry with zero registers and an empty stack. */
  lemma Fresh(l: Layout, m: Machine, entry: nat, name: NameWords)
    requires ContextSpec.Inv(l, m)
    ensures var p := FreeSlot(m.sched, 1);
            var t := ContextSpec.Step(l, m, Start(entry, name));
            p < MAX_PROCESSES ==>
              && p != m.sched.cur && t.sched.states[p] == READY
              && FrameIn(l, t, p) && Saved(l, t, p) == Cpu(ZERO_REGS, High(l, p), entry, true)
  {
    hide FreeSlot, Framed, FillEntry, FrameIn, Saved, Low, High;
    var p := FreeSlot(m.sched, 1);
    if p < MAX_PROCESSES {
      var framed := Framed(l, m.mem, p, entry);
      EntryApart(l, framed, p, Low(l, p), name, p);
      FrameLoads(l, m.(mem := framed), m.mem, p, entry);
      FrameKept(l, m.(mem := framed), ContextSpec.Step(l, m, Start(entry, name)), p);
    }
  }

  lemma FrameLoads(l: Layout, m: Machine, mem: seq<nat>, p: nat, entry: nat)
    requires Shaped(l, m) && |mem| == l.size && 0 < p < MAX_PROCESSES && m.mem == Framed(l, mem, p, entry)
    ensures FrameIn(l, m, p) && Saved(l, m, p) == Cpu(ZERO_REGS, High(l, p), entry, true)
  {
  }

  /**
   * A call of context_switch stored: arguments, return address, registers in the order of pushad, and the stack
   * pointer.
   */
  ghost predicate CallStored(before: seq<nat>, after: seq<nat>, c: Cpu, ret: nat, slot: nat, target: nat)
    requires 11 <= c.esp <= |before| && |after| == |before| && slot < |before|
  {
    var sp := c.esp;
    && after[slot] == sp - 11 && after[sp - 1] == target && after[sp - 2] == slot && after[sp - 3] == ret
    && after[sp - 4] == c.regs.eax && after[sp - 5] == c.regs.ecx && after[sp - 6] == c.regs.edx
    && after[sp - 7] == c.regs.ebx && after[sp - 8] == sp - 3 && after[sp - 9] == c.regs.ebp
    && after[sp - 10] == c.regs.esi && after[sp - 11] == c.regs.edi
    && (forall a | 0 <= a < |before| && a != slot && !(sp - 11 <= a < sp) :: after[a] == before[a])
  }

  lemma CallStores(mem: seq<nat>, c: Cpu, ret: nat, slot: nat, target: nat)
    requires 11 <= c.esp <= |mem| && slot < |mem| && !(c.esp - 11 <= slot < c.esp)
    ensures CallStored(mem, Put(mem, c.esp - 11, CallWords(c, ret, slot, target))[slot := c.esp - 11], c, ret, slot,
        target)
  {
  }

  lemma CallFits(l: Layout, m: Machine, q: nat)
    requires Shaped(l, m) && Room(l, m) && q < 16
    ensures var slot := l.table + 12 * m.sched.cur + 2;
            && 11 <= m.cpu.esp <= |m.mem| && slot < |m.mem| && !(m.cpu.esp - 11 <= slot < m.cpu.esp)
            && slot == EspSlot(l, m.sched.cur)
    ensures EspSlot(l, q) == l.table + 12 * q + 2 < |m.mem|
  {
  }

  lemma SwitchGoes(s: Sched)
    requires Shape(s)
    ensures Shape(Switch(s)) && Switch(s).cur == Next(s, 1)
  {
    hide Next;
  }

  /** What a switch stores, with the incoming process's saved stack pointer as the second argument. */
  lemma SwitchStores(l: Layout, m: Machine, ret: nat, q: nat)
    requires Shaped(l, m) && Room(l, m) && q == Next(m.sched, 1) != m.sched.cur && FrameIn(l, m, q)
    ensures var t, slot := SwitchTo(l, m, ret), EspSlot(l, m.sched.cur);
            && |t.mem| == |m.mem| && t.sched.cur == q
            && 11 <= m.cpu.esp <= |m.mem| && slot == l.table + 12 * m.sched.cur + 2 < |m.mem|
            && EspSlot(l, q) == l.table + 12 * q + 2 < |m.mem|
            && CallStored(m.mem, t.mem, m.cpu, ret, slot, m.mem[EspSlot(l, q)])
  {
    hide Switch, Next, Put, Load, CallWords, CallStored, Low, High, EspSlot, Room, FrameIn;
    CallFits(l, m, q);
    SwitchGoes(m.sched);
    CallStores(m.mem, m.cpu, ret, EspSlot(l, m.sched.cur), m.mem[EspSlot(l, q)]);
  }

  // ---- what creation stores ---------------------------------------------------------------------------------

  /**
   * Which words of memory an entry's fields are: the pid first, the stack fourth, the eight words of the name after
   * it.
   */
  lemma EntryWords(l: Layout, mem: seq<nat>, p: nat, stack: nat, name: NameWords)
    requires Proper(l) && |mem| == l.size && p < 16
    ensures var r, e := FillEntry(l, mem, p, stack, name), l.table + 12 * p;
            && r[e] == p && r[e + 3] == stack && r[e + 4..e + 12] == name
            && (forall a | 0 <= a < |mem| && a != e && !(e + 3 <= a < e + 12) :: r[a] == mem[a])
  {
  }

  lemma FrameWords(l: Layout, mem: seq<nat>, p: nat, entry: nat)
    requires Proper(l) && |mem| == l.size && 1 <= p < 16
    ensures var r, slot, top := Framed(l, mem, p, entry), l.table + 12 * p + 2, l.stacks + 1024 * p + 1024;
            && r[slot] == top - 9 && r[top - 1] == entry && (forall a | top - 9 <= a < top - 1 :: r[a] == 0)
            && (forall a | 0 <= a < |mem| && a != slot && !(top - 9 <= a < top) :: r[a] == mem[a])
  {
  }

  /** The memory of a creation in slot p: the entry's fields, the frame at the top of the stack, and nothing else. */
  ghost predicate Created(l: Layout, before: seq<nat>, after: seq<nat>, p: nat, entry: nat, name: NameWords)
    requires Proper(l) && |before| == |after| == l.size && 1 <= p < 16
  {
    var e, top := l.table + 12 * p, l.stacks + 1024 * p + 1024;
    && after[e] == p && after[e + 2] == top - 9 && after[e + 3] == top - 1024 && after[e + 4..e + 12] == name
    && after[top - 1] == entry && (forall a | top - 9 <= a < top - 1 :: after[a] == 0)
    && (forall a | 0 <= a < l.size && a != e && !(e + 2 <= a < e + 12) && !(top - 9 <= a < top) ::
        after[a] == before[a])
  }

  lemma StoredWords(l: Layout, mem: seq<nat>, p: nat, entry: nat, name: NameWords)
    requires Proper(l) && |mem| == l.size && 1 <= p < 16
    ensures Created(l, mem, FillEntry(l, Framed(l, mem, p, entry), p, Low(l, p), name), p, entry, name)
  {
    hide FillEntry, Framed;
    FrameWords(l, mem, p, entry);
    EntryWords(l, Framed(l, mem, p, entry), p, Low(l, p), name);
  }

  /** Word by word, what a creation stores; without a free slot nothing changes. */
  lemma CreatedMemory(l: Layout, m: Machine, entry: nat, name: NameWords)
    requires Shaped(l, m)
    ensures var p, t := FreeSlot(m.sched, 1), CreateAt(l, m, entry, name);
            && t.cpu == m.cpu && |t.mem| == |m.mem|
            && (if p == 16 then t == m else Created(l, m.mem, t.mem, p, entry, name))
  {
    hide FillEntry, Framed, FreeSlot, Create, Created;
    var p := FreeSlot(m.sched, 1);
    if p != 16 { StoredWords(l, m.mem, p, entry, name); }
  }

  // ---- the invariant ----------------------------------------------------------------------------------------------

  function AsSched(e: ContextSpec.Event): Option<SchedSpec.Event> {
    match e
    case Exec(_, _) => None
    case Reschedule(_) => Some(SwitchEv)
    case Start(_, _) => Some(CreateEv)
    case Other(o) => Some(o)
  }

  /** Seen from the process table, a step is a scheduler step or nothing. */
  lemma SchedPart(l: Layout, m: Machine, e: ContextSpec.Event)
    requires ContextSpec.Inv(l, m) && ContextSpec.Enabled(l, m, e)
    ensures match AsSched(e) {
      case None => ContextSpec.Step(l, m, e).sched == m.sched
      case Some(o) => SchedSpec.Enabled(m.sched, o) && ContextSpec.Step(l, m, e).sched == SchedSpec.Step(m.sched, o)
    }
    ensures SchedSpec.Inv(ContextSpec.Step(l, m, e).sched)
  {
    hide SchedSpec.Inv;
    match AsSched(e) {
      case None =>
      case Some(o) => SchedSpec.StepInv(m.sched, o);
    }
  }

  /** A process other than the current one that is READY or BLOCKED after a step was so before, or was just created. */
  lemma StateFrom(s: Sched, o: SchedSpec.Event, p: nat)
    requires SchedSpec.Inv(s) && SchedSpec.Enabled(s, o) && p < MAX_PROCESSES && p != s.cur
    requires SchedSpec.Step(s, o).states[p] in {READY, BLOCKED}
    ensures s.states[p] in {READY, BLOCKED} || (o.CreateEv? && p == FreeSlot(s, 1))
  {
    hide Next, FreeSlot;
    if o.SwitchEv? { NextReady(s, 1); }
  }

  lemma FramePart(l: Layout, m: Machine, e: ContextSpec.Event, p: nat)
    requires ContextSpec.Inv(l, m) && ContextSpec.Enabled(l, m, e) && p < MAX_PROCESSES
    requires var t := ContextSpec.Step(l, m, e); p != t.sched.cur && t.sched.states[p] in {READY, BLOCKED}
    ensures FrameIn(l, ContextSpec.Step(l, m, e), p)
  {
    var t := ContextSpec.Step(l, m, e);
    SchedPart(l, m, e);
    hide FrameIn, SchedSpec.Step, SchedSpec.Inv, ContextSpec.Step, Saved, FreeSlot, SwitchTo, CreateAt;
    if p == m.sched.cur {
      Leaves(l, m, e);
    } else {
      if AsSched(e).Some? { StateFrom(m.sched, AsSched(e).value, p); }
      if m.sched.states[p] in {READY, BLOCKED} {
        StepApart(l, m, e, p);
        FrameKept(l, m, t, p);
      } else {
        Fresh(l, m, e.entry, e.name);
      }
    }
  }

  /** Only a switch makes another process current, and the one that was current is left with a frame. */
  lemma Leaves(l: Layout, m: Machine, e: ContextSpec.Event)
    requires ContextSpec.Inv(l, m) && ContextSpec.Enabled(l, m, e)
    requires ContextSpec.Step(l, m, e).sched.cur != m.sched.cur
    ensures e.Reschedule? && FrameIn(l, ContextSpec.Step(l, m, e), m.sched.cur)
  {
    SchedPart(l, m, e);
    hide FrameIn, Saved, ContextSpec.Step;
    if e.Reschedule? { SwitchOut(l, m, e.ret); }
  }

  lemma StackPart(l: Layout, m: Machine, e: ContextSpec.Event)
    requires ContextSpec.Inv(l, m) && ContextSpec.Enabled(l, m, e)
    ensures var t := ContextSpec.Step(l, m, e); Low(l, t.sched.cur) <= t.cpu.esp <= High(l, t.sched.cur)
  {
    if e.Reschedule? {
      SwitchIn(l, m, e.ret);
      hide SwitchTo, SchedSpec.Inv;
    }
  }

  lemma StepInv(l: Layout, m: Machine, e: ContextSpec.Event)
    requires ContextSpec.Inv(l, m) && ContextSpec.Enabled(l, m, e)
    ensures ContextSpec.Inv(l, ContextSpec.Step(l, m, e))
  {
    hide ContextSpec.Step, FrameIn, Low, High, SchedSpec.Inv;
    var t := ContextSpec.Step(l, m, e);
    SchedPart(l, m, e);
    StackPart(l, m, e);
    forall p | 0 <= p < MAX_PROCESSES && p != t.sched.cur && t.sched.states[p] in {READY, BLOCKED}
      ensures FrameIn(l, t, p)
    {
      FramePart(l, m, e, p);
    }
  }

  /** The interrupt flag plays no part in the invariant or in what a switch does. */
  lemma Masked(l: Layout, m: Machine, on: bool, ret: nat)
    requires ContextSpec.Inv(l, m)
    ensures var n := m.(cpu := m.cpu.(interrupts := on));
            && ContextSpec.Inv(l, n)
            && (Room(l, m) ==>
                  && Room(l, n)
                  && var t := ContextSpec.Step(l, m, Reschedule(ret));
                  ContextSpec.Step(l, n, Reschedule(ret)) == (if t.sched.cur == m.sched.cur then n else t))
    ensures Room(l, m) ==>
              var t := ContextSpec.Step(l, m, Reschedule(ret));
              if t.sched.cur == m.sched.cur then t == m else t.cpu.interrupts
  {
    MaskedInv(l, m, on);
    if Room(l, m) {
      NextReady(m.sched, 1);
      MaskedSwitch(l, m, on, ret);
      hide SwitchTo, SchedSpec.Inv, FrameIn, Low, High, Next;
    }
  }

  lemma MaskedInv(l: Layout, m: Machine, on: bool)
    requires ContextSpec.Inv(l, m)
    ensures ContextSpec.Inv(l, m.(cpu := m.cpu.(interrupts := on)))
  {
    hide Low, High, EspSlot, SchedSpec.Inv;
    var n := m.(cpu := m.cpu.(interrupts := on));
    forall p | 0 <= p < MAX_PROCESSES && p != m.sched.cur && m.sched.states[p] in {READY, BLOCKED}
      ensures FrameIn(l, n, p)
    {
      assert FrameIn(l, m, p);
    }
  }

  lemma MaskedSwitch(l: Layout, m: Machine, on: bool, ret: nat)
    requires Shaped(l, m) && Room(l, m)
    requires Next(m.sched, 1) != m.sched.cur ==> FrameIn(l, m, Next(m.sched, 1))
    ensures var n := m.(cpu := m.cpu.(interrupts := on));
            var t := SwitchTo(l, m, ret);
            SwitchTo(l, n, ret) == (if t.sched.cur == m.sched.cur then n else t)
    ensures var t := SwitchTo(l, m, ret); if t.sched.cur == m.sched.cur then t == m else t.cpu.interrupts
  {
    hide Next, Put, Low, High, EspSlot;
  }

  // ---- runs -----------------------------------------------------------------------------------------------

  ghost predicate Runs(l: Layout, m: Machine, es: seq<ContextSpec.Event>)
    requires ContextSpec.Inv(l, m)
    decreases |es|
  {
    || es == []
    || (ContextSpec.Enabled(l, m, es[0]) && (StepInv(l, m, es[0]); Runs(l, ContextSpec.Step(l, m, es[0]), es[1..])))
  }

  /** The machine after all of es. */
  ghost function Final(l: Layout, m: Machine, es: seq<ContextSpec.Event>): (t: Machine)
    requires ContextSpec.Inv(l, m) && Runs(l, m, es)
    ensures ContextSpec.Inv(l, t)
    decreases |es|
  {
    if es == [] then m else StepInv(l, m, es[0]); Final(l, ContextSpec.Step(l, m, es[0]), es[1..])
  }

  /** p is not current at any moment of the run. */
  ghost predicate Away(l: Layout, m: Machine, es: seq<ContextSpec.Event>, p: nat)
    requires ContextSpec.Inv(l, m) && Runs(l, m, es)
    decreases |es|
  {
    m.sched.cur != p && (es == [] || (StepInv(l, m, es[0]); Away(l, ContextSpec.Step(l, m, es[0]), es[1..], p)))
  }

  lemma {:induction false} Carried(l: Layout, m: Machine, es: seq<ContextSpec.Event>, p: nat)
    requires ContextSpec.Inv(l, m) && Runs(l, m, es) && Away(l, m, es, p)
    requires p < MAX_PROCESSES && m.sched.states[p] != FREE && FrameIn(l, m, p)
    ensures m.sched.cur != p && Final(l, m, es).sched.cur != p
    ensures var t := Final(l, m, es); FrameIn(l, t, p) && Saved(l, t, p) == Saved(l, m, p)
    decreases |es|
  {
    hide SchedSpec.Inv, ContextSpec.Step, ContextSpec.Enabled, FrameIn, Saved;
    if es != [] {
      var t := ContextSpec.Step(l, m, es[0]);
      StepInv(l, m, es[0]);
      InUse(l, m, es[0], p);
      StepApart(l, m, es[0], p);
      FrameKept(l, m, t, p);
      Carried(l, t, es[1..], p);
    }
  }

  lemma AwayNow(l: Layout, m: Machine, es: seq<ContextSpec.Event>, p: nat)
    requires ContextSpec.Inv(l, m) && Runs(l, m, es) && Away(l, m, es, p)
    ensures m.sched.cur != p
  {
  }

  lemma Current(l: Layout, m: Machine)
    requires ContextSpec.Inv(l, m)
    ensures m.sched.states[m.sched.cur] != FREE
  {
  }

  /** Slots are never freed. */
  lemma InUse(l: Layout, m: Machine, e: ContextSpec.Event, p: nat)
    requires ContextSpec.Inv(l, m) && ContextSpec.Enabled(l, m, e) && p < MAX_PROCESSES && m.sched.states[p] != FREE
    ensures ContextSpec.Step(l, m, e).sched.states[p] != FREE
  {
    SchedPart(l, m, e);
    hide ContextSpec.Step;
  }

  /**
   * Context round trip: whatever runs between the moment p is switched away and the next moment p is switched to,
   * p finds its registers, its stack pointer after the call and its return address, with interrupts on.
   */
  lemma RoundTrip(l: Layout, m: Machine, ret: nat, es: seq<ContextSpec.Event>, ret2: nat)
    requires ContextSpec.Inv(l, m) && ContextSpec.Enabled(l, m, Reschedule(ret))
    requires var t := ContextSpec.Step(l, m, Reschedule(ret));
             && ContextSpec.Inv(l, t) && Runs(l, t, es) && Away(l, t, es, m.sched.cur)
             && ContextSpec.Enabled(l, Final(l, t, es), Reschedule(ret2))
             && ContextSpec.Step(l, Final(l, t, es), Reschedule(ret2)).sched.cur == m.sched.cur
    ensures var u := Final(l, ContextSpec.Step(l, m, Reschedule(ret)), es);
            ContextSpec.Step(l, u, Reschedule(ret2)).cpu == Cpu(m.cpu.regs, m.cpu.esp - 2, ret, true)
  {
    hide SchedSpec.Inv, Runs, Away, Final, ContextSpec.Step, FrameIn, Saved, Low, High;
    var t := ContextSpec.Step(l, m, Reschedule(ret));
    SwitchOut(l, m, ret);
    Current(l, m);
    AwayNow(l, t, es, m.sched.cur);
    InUse(l, m, Reschedule(ret), m.sched.cur);
    Carried(l, t, es, m.sched.cur);
    SwitchIn(l, Final(l, t, es), ret2);
  }

  /**
   * A created process that is switched to for the first time starts at its entry, with zero registers and an empty
   * stack.
   */
  lemma FreshStart(l: Layout, m: Machine, entry: nat, name: NameWords, es: seq<ContextSpec.Event>, ret: nat)
    requires ContextSpec.Inv(l, m) && FreeSlot(m.sched, 1) < MAX_PROCESSES
    requires var p := FreeSlot(m.sched, 1);
             var t := ContextSpec.Step(l, m, Start(entry, name));
             && ContextSpec.Inv(l, t) && Runs(l, t, es) && Away(l, t, es, p)
             && ContextSpec.Enabled(l, Final(l, t, es), Reschedule(ret))
             && ContextSpec.Step(l, Final(l, t, es), Reschedule(ret)).sched.cur == p
    ensures var u := Final(l, ContextSpec.Step(l, m, Start(entry, name)), es);
            ContextSpec.Step(l, u, Reschedule(ret)).cpu == Cpu(ZERO_REGS, High(l, FreeSlot(m.sched, 1)), entry, true)
  {
    hide SchedSpec.Inv, Runs, Away, Final, ContextSpec.Step, FrameIn, Saved, Low, High, FreeSlot;
    var p := FreeSlot(m.sched, 1);
    var t := ContextSpec.Step(l, m, Start(entry, name));
    Fresh(l, m, entry, name);
    AwayNow(l, t, es, p);
    Carried(l, t, es, p);
    SwitchIn(l, Final(l, t, es), ret);
  }
}
