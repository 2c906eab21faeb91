/** The process table, the scheduler and context_switch as code that changes memory and registers in place. */
module Kernels {
  import opened SchedSpec
  import opened ContextSpec
  import ContextLaws
  import SchedLaws

  class Kernel {
    const layout: Layout
    const mem: array<nat>
    const states: array<PState>
    var currentPid: nat
    var tickCount: nat
    var regs: Regs
    var esp: nat
    var eip: nat
    var interrupts: bool

    ghost predicate Valid()
      reads this, mem, states
    {
      && Proper(layout) && mem.Length == layout.size
      && states.Length == MAX_PROCESSES && currentPid < MAX_PROCESSES
    }

    ghost function Cpu(): ContextSpec.Cpu
      reads this
    {
      ContextSpec.Cpu(regs, esp, eip, interrupts)
    }

    ghost function View(): (m: Machine)
      reads this, mem, states
      requires Valid()
      ensures Shaped(layout, m)
    {
      Machine(Sched(states[..], currentPid), mem[..], Cpu())
    }

    constructor (layout: Layout, esp: nat)
      requires Proper(layout) && layout.low <= esp <= KERNEL_STACK_TOP
      ensures Valid() && fresh(mem) && fresh(states) && this.layout == layout && this.esp == esp
    {
      this.layout := layout;
      this.mem := new nat[layout.size];
      this.states := new PState[MAX_PROCESSES];
      this.esp := esp;
      this.regs := ZERO_REGS;
      this.currentPid := 0;
    }

    /** process_init. */
    method ProcessInit(name: NameWords)
      requires Valid() && layout.low <= esp <= KERNEL_STACK_TOP
      modifies this`currentPid, states, mem
      ensures Valid() && View().sched == Boot() && View().cpu == old(View().cpu)
      ensures currentPid == 0 && states[0] == RUNNING && forall p | 1 <= p < states.Length :: states[p] == FREE
      ensures mem[..] == FillEntry(layout, Cleared(layout, old(mem[..])), 0, KERNEL_STACK_TOP, name)
      ensures ContextSpec.Inv(layout, View())
    {
      var n := MAX_PROCESSES * PCB_WORDS;
      for i := 0 to n
        modifies mem
        invariant forall a | 0 <= a < mem.Length ::
            mem[a] == if layout.table <= a < layout.table + i then 0 else old(mem[a])
      {
        mem[layout.table + i] := 0;
      }
      assert mem[..] == Cleared(layout, old(mem[..]));
      for i := 0 to MAX_PROCESSES
        modifies states
        invariant forall j | 0 <= j < i :: states[j] == FREE
      {
        states[i] := FREE;
      }
      states[0] := RUNNING;
      StoreEntry(0, KERNEL_STACK_TOP, name);
      currentPid := 0;
    }

    // ---- the machine ------------------------------------------------------------------------------------------

    method Push(v: nat)
      requires Valid() && 0 < esp <= mem.Length
      modifies this`esp, mem
      ensures esp == old(esp) - 1 && mem[..] == old(mem[..])[esp := v]
    {
      esp := esp - 1;
      mem[esp] := v;
    }

    method Pop() returns (v: nat)
      requires Valid() && esp < mem.Length
      modifies this`esp
      ensures esp == old(esp) + 1 && v == mem[old(esp)]
    {
      v := mem[esp];
      esp := esp + 1;
    }

    method PushFour(a: nat, b: nat, c: nat, d: nat)
      requires Valid() && 4 <= esp <= mem.Length
      modifies this`esp, mem
      ensures esp == old(esp) - 4 && mem[..] == Put(old(mem[..]), esp, [d, c, b, a])
    {
      Push(a);
      Push(b);
      Push(c);
      Push(d);
    }

    method Pushad()
      requires Valid() && 8 <= esp <= mem.Length
      modifies this`esp, mem
      ensures Valid() && esp == old(esp) - 8
      ensures mem[..] == Put(old(mem[..]), esp, PushadWords(regs, old(esp)))
      ensures forall a | old(esp) <= a < mem.Length :: mem[a] == old(mem[a])
    {
      var original := esp;
      ghost var high, low := [regs.ebx, regs.edx, regs.ecx, regs.eax], [regs.edi, regs.esi, regs.ebp, original];
      PutBelow(mem[..], esp - 8, low, high);
      assert low + high == PushadWords(regs, original);
      PutOutside(mem[..], esp - 8, low + high);
      hide Put, PushadWords;
      PushFour(regs.eax, regs.ecx, regs.edx, regs.ebx);
      PushFour(original, regs.ebp, regs.esi, regs.edi);
      forall a | original <= a < mem.Length ensures mem[a] == old(mem[a]) {
        assert mem[a] == mem[..][a] && old(mem[a]) == old(mem[..])[a];
      }
    }

    /** popad skips the saved stack pointer. */
    method Popad()
      requires Valid() && esp + 8 <= mem.Length
      modifies this`regs, this`esp
      ensures esp == old(esp) + 8
      ensures regs == PopadRegs(mem[..], old(esp))
    {
      regs := Regs(mem[esp + 7], mem[esp + 6], mem[esp + 5], mem[esp + 4], mem[esp + 2], mem[esp + 1], mem[esp]);
      esp := esp + 8;
    }

    /**
     * The first half of context_switch: the registers go on the stack, the stack pointer where the first argument
     * says.
     */
    method SaveContext()
      requires Valid() && 8 <= esp && esp + 3 <= mem.Length
      requires mem[esp + 1] < mem.Length && !(esp - 8 <= mem[esp + 1] < esp + 3)
      modifies this`regs, this`esp, mem
      ensures Valid() && esp == old(esp) - 8 && mem[esp + 10] == old(mem[esp + 2])
      ensures mem[..] == Put(old(mem[..]), esp, PushadWords(old(regs), old(esp)))[old(mem[esp + 1]) := esp]
    {
      hide Put, PushadWords;
      Pushad();
      ghost var pushed := mem[..];
      regs := regs.(eax := mem[esp + 9]);
      mem[regs.eax] := esp;
      assert mem[..] == pushed[regs.eax := esp];
    }

    /** context_switch, entered with the return address, &old_esp and new_esp on the stack. */
    method ContextSwitch()
      requires Valid() && 8 <= esp && esp + 3 <= mem.Length
      requires mem[esp + 1] < mem.Length && !(esp - 8 <= mem[esp + 1] < esp + 3)
      requires mem[esp + 2] + FRAME_WORDS <= mem.Length
      modifies this`regs, this`esp, this`eip, this`interrupts, mem
      ensures Valid()
      ensures mem[..] ==
              Put(old(mem[..]), old(esp) - 8, PushadWords(old(regs), old(esp)))[old(mem[esp + 1]) := old(esp) - 8]
      ensures Cpu() == Load(mem[..], old(mem[esp + 2]))
    {
      hide Put, PushadWords, PopadRegs;
      SaveContext();
      esp := mem[esp + 10];
      Popad();
      interrupts := true;
      eip := Pop();
    }

    // ---- kernel/scheduler.c ------------------------------------------------------------------------------------

    /** The round-robin scan of pick_and_switch. */
    method Scan() returns (nextPid: nat)
      requires Valid()
      ensures nextPid == Next(View().sched, 1)
    {
      nextPid := currentPid;
      var i := 1;
      while i < MAX_PROCESSES
        invariant 1 <= i <= MAX_PROCESSES && nextPid == currentPid
        invariant Next(View().sched, 1) == Next(View().sched, i)
      {
        var candidate := (currentPid + i) % MAX_PROCESSES;
        if states[candidate] == READY {
          nextPid := candidate;
          break;
        }
        i := i + 1;
      }
    }

    /** The call of context_switch: its arguments, its return address, its body. */
    method Call(ret: nat, slot: nat, target: nat)
      requires Valid() && 11 <= esp <= mem.Length && slot < mem.Length && !(esp - 11 <= slot < esp)
      requires target + FRAME_WORDS <= mem.Length
      modifies this`regs, this`esp, this`eip, this`interrupts, mem
      ensures Valid()
      ensures mem[..] ==
              Put(old(mem[..]), old(esp) - 11, CallWords(old(Cpu()), ret, slot, target))[slot := old(esp) - 11]
      ensures Cpu() == Load(mem[..], target)
    {
      hide Load;
      CallPut(mem[..], Cpu(), ret, slot, target);
      Push(target);
      Push(slot);
      Push(ret);
      ContextSwitch();
    }

    /**
     * Switch to the next READY process, if there is one: ends when that process runs, returning to ret when it is this
     * one's turn again.
     */
    method PickAndSwitch(ret: nat) returns (switched: bool)
      requires Valid() && ContextSpec.Inv(layout, View()) && Room(layout, View())
      modifies this`currentPid, this`regs, this`esp, this`eip, this`interrupts, mem, states
      ensures Valid() && View() == ContextSpec.Step(layout, old(View()), Reschedule(ret))
          && ContextSpec.Inv(layout, View())
      ensures switched == (currentPid != old(currentPid))
    {
      hide Next, Put, CallWords, Load, SchedSpec.Inv;
      NextReady(View().sched, 1);
      ContextLaws.StepInv(layout, View(), Reschedule(ret));
      var oldPid := currentPid;
      var nextPid := Scan();
      if nextPid == oldPid { return false; }
      if states[oldPid] == RUNNING { states[oldPid] := READY; }
      states[nextPid] := RUNNING;
      currentPid := nextPid;
      Call(ret, EspSlot(layout, oldPid), mem[EspSlot(layout, nextPid)]);
      switched := true;
    }

    /** scheduler_tick: the tick counter is 32 bits wide. */
    method SchedulerTick(ret: nat)
      requires Valid() && ContextSpec.Inv(layout, View()) && Room(layout, View())
      modifies this`tickCount, this`currentPid, this`regs, this`esp, this`eip, this`interrupts, mem, states
      ensures Valid() && View() == ContextSpec.Step(layout, old(View()), Reschedule(ret))
          && ContextSpec.Inv(layout, View())
      ensures tickCount == (old(tickCount) + 1) % 0x1_0000_0000
    {
      tickCount := (tickCount + 1) % 0x1_0000_0000;
      var switched := PickAndSwitch(ret);
    }

    /** scheduler_yield: interrupts are on afterwards whether or not it switched. */
    method SchedulerYield(ret: nat)
      requires Valid() && ContextSpec.Inv(layout, View()) && Room(layout, View())
      modifies this`currentPid, this`regs, this`esp, this`eip, this`interrupts, mem, states
      ensures Valid() && ContextSpec.Inv(layout, View())
      ensures var v := ContextSpec.Step(layout, old(View()), Reschedule(ret));
              View() == v.(cpu := v.cpu.(interrupts := true))
    {
      hide ContextSpec.Inv, ContextSpec.Step, Room;
      ContextLaws.Masked(layout, View(), false, ret);
      interrupts := false;
      var switched := PickAndSwitch(ret);
      ContextLaws.Masked(layout, View(), true, ret);
      if !switched { interrupts := true; }
    }

    method SchedulerUnblock(pid: nat)
      requires Valid()
      modifies states
      ensures Valid() && View() == old(View()).(sched := Unblock(old(View().sched), pid))
      ensures old(ContextSpec.Inv(layout, View())) ==> ContextSpec.Inv(layout, View())
    {
      if ContextSpec.Inv(layout, View()) { ContextLaws.StepInv(layout, View(), Other(UnblockEv(pid))); }
      hide ContextSpec.Inv;
      if pid >= MAX_PROCESSES { return; }
      if states[pid] == BLOCKED { states[pid] := READY; }
    }

    // ---- kernel/process.c -----------------------------------------------------------------------------------

    method FindFree() returns (slot: int)
      requires Valid()
      ensures slot == (var p := FreeSlot(View().sched, 1); if p == MAX_PROCESSES then -1 else p)
    {
      slot := -1;
      var i := 1;
      while i < MAX_PROCESSES
        invariant 1 <= i <= MAX_PROCESSES && slot == -1
        invariant FreeSlot(View().sched, 1) == FreeSlot(View().sched, i)
      {
        if states[i] == FREE {
          slot := i;
          break;
        }
        i := i + 1;
      }
    }

    /**
     * process_create: -1 when the table is full, else the lowest free slot, with a frame built word by word at the top
     * of its stack.
     */
    method ProcessCreate(entry: nat, name: NameWords) returns (r: int)
      requires Valid()
      modifies mem, states
      ensures Valid() && View() == CreateAt(layout, old(View()), entry, name)
      ensures old(ContextSpec.Inv(layout, View())) ==> ContextSpec.Inv(layout, View())
      ensures r == (var p := FreeSlot(old(View().sched), 1); if p == MAX_PROCESSES then -1 else p)
    {
      ghost var was := View();
      CreateKeeps(layout, was, entry, name);
      hide ContextSpec.Inv, ContextSpec.Step, FreeSlot, Put, FillEntry, Framed, Low, High;
      var slot := FindFree();
      if slot == -1 { return -1; }
      states[slot] := READY;
      FillSlot(slot, entry, name);
      r := slot;
    }

    /** The frame and the entry of a new process (kernel/process.c:67-97). */
    method FillSlot(slot: nat, entry: nat, name: NameWords)
      requires Valid() && 0 < slot < MAX_PROCESSES
      modifies mem
      ensures mem[..] == FillEntry(layout, Framed(layout, old(mem[..]), slot, entry), slot, Low(layout, slot), name)
    {
      hide FillEntry, Put, NewFrame;
      var stackTop := BuildFrame(High(layout, slot), entry);
      mem[EspSlot(layout, slot)] := stackTop;
      StoreEntry(slot, Low(layout, slot), name);
    }

    /** The pid, stack and name fields of an entry. */
    method StoreEntry(pid: nat, stack: nat, name: NameWords)
      requires Valid() && pid < MAX_PROCESSES
      modifies mem
      ensures mem[..] == FillEntry(layout, old(mem[..]), pid, stack, name)
    {
      var entry := EntryAt(layout, pid);
      mem[entry] := pid;
      mem[entry + STACK_FIELD] := stack;
      for i := 0 to NAME_WORDS
        invariant forall a | 0 <= a < mem.Length && a != entry ::
          mem[a] == if a == entry + STACK_FIELD then stack
                    else if entry + NAME_FIELD <= a < entry + NAME_FIELD + i then name[a - entry - NAME_FIELD]
                    else old(mem[a])
        invariant mem[entry] == pid
      {
        mem[entry + NAME_FIELD + i] := name[i];
      }
    }

    /** The return address, then eight zero words, each stored through a pointer moving down. */
    method BuildFrame(high: nat, entry: nat) returns (stackTop: nat)
      requires Valid() && FRAME_WORDS <= high <= mem.Length
      modifies mem
      ensures stackTop == high - FRAME_WORDS && mem[..] == Put(old(mem[..]), stackTop, NewFrame(entry))
    {
      stackTop := high - 1;
      mem[stackTop] := entry;
      for i := 0 to 8
        invariant stackTop == high - 1 - i && mem[high - 1] == entry
        invariant forall a | 0 <= a < mem.Length ::
            mem[a] == if stackTop <= a < high - 1 then 0 else if a == high - 1 then entry else old(mem[a])
      {
        stackTop := stackTop - 1;
        mem[stackTop] := 0;
      }
    }

    method ProcessTerminate(pid: nat)
      requires Valid()
      modifies states
      ensures Valid() && View() == old(View()).(sched := Terminate(old(View().sched), pid))
      ensures forall p | 0 <= p < states.Length :: states[p] == if 0 < p == pid then TERMINATED else old(states[p])
      ensures old(ContextSpec.Inv(layout, View())) ==> ContextSpec.Inv(layout, View())
    {
      if ContextSpec.Inv(layout, View()) { ContextLaws.StepInv(layout, View(), Other(TerminateEv(pid))); }
      hide ContextSpec.Inv;
      if pid == 0 || pid >= MAX_PROCESSES { return; }
      states[pid] := TERMINATED;
    }
  }

  /** kernel_main's process start-up (kernel/kernel.c:807-812): the two demo tasks are processes 1 and 2. */
  method StartTasks(kernel: Kernel, kernelName: NameWords, a: nat, nameA: NameWords, b: nat, nameB: NameWords)
      returns (pidA: int, pidB: int)
    requires kernel.Valid() && kernel.layout.low <= kernel.esp <= KERNEL_STACK_TOP
    modifies kernel, kernel.mem, kernel.states
    ensures kernel.Valid() && ContextSpec.Inv(kernel.layout, kernel.View()) && pidA == 1 && pidB == 2
    ensures kernel.currentPid == 0 && kernel.states[0] == RUNNING && kernel.states[1] == READY
        && kernel.states[2] == READY
    ensures forall p | 3 <= p < kernel.states.Length :: kernel.states[p] == FREE
  {
    hide ContextSpec.Inv, FillEntry, Framed;
    kernel.ProcessInit(kernelName);
    SchedLaws.CreateResult(kernel.View().sched);
    pidA := kernel.ProcessCreate(a, nameA);
    SchedLaws.CreateResult(kernel.View().sched);
    hide Create, FreeSlot;
    assert kernel.View().sched.states[2] == FREE && kernel.View().sched.states[1] == READY;
    pidB := kernel.ProcessCreate(b, nameB);
  }

  /** Memory with the whole process table zeroed. */
  ghost function Cleared(l: Layout, mem: seq<nat>): (r: seq<nat>)
    requires Proper(l) && |mem| == l.size
    ensures |r| == |mem|
    ensures forall a | 0 <= a < |mem| ::
              r[a] == if l.table <= a < l.table + MAX_PROCESSES * PCB_WORDS then 0 else mem[a]
  {
    Put(mem, l.table, seq(MAX_PROCESSES * PCB_WORDS, _ => 0))
  }

  lemma CreateKeeps(l: Layout, m: Machine, entry: nat, name: NameWords)
    requires Shaped(l, m)
    ensures ContextSpec.Inv(l, m) ==> ContextSpec.Inv(l, CreateAt(l, m, entry, name))
  {
    hide ContextSpec.Inv, CreateAt;
    if ContextSpec.Inv(l, m) { ContextLaws.StepInv(l, m, Start(entry, name)); }
  }

  lemma PutBelow(mem: seq<nat>, a: nat, low: seq<nat>, high: seq<nat>)
    requires a + |low| + |high| <= |mem|
    ensures Put(Put(mem, a + |low|, high), a, low) == Put(mem, a, low + high)
  {
  }

  lemma PutOutside(mem: seq<nat>, a: nat, words: seq<nat>)
    requires a + |words| <= |mem|
    ensures forall i | a + |words| <= i < |mem| :: Put(mem, a, words)[i] == mem[i]
  {
  }

  lemma CallPut(mem: seq<nat>, c: Cpu, ret: nat, slot: nat, target: nat)
    requires 11 <= c.esp <= |mem|
    ensures Put(mem[c.esp - 1 := target][c.esp - 2 := slot][c.esp - 3 := ret],
                c.esp - 11, PushadWords(c.regs, c.esp - 3))
            == Put(mem, c.esp - 11, CallWords(c, ret, slot, target))
  {
  }
}
