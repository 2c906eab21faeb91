/**
 * Saved contexts: the CPU, word-addressed memory and context_switch as values (kernel/switch.asm, kernel/process.c,
 * kernel/scheduler.c).
 */
module ContextSpec {
  import opened SchedSpec

  // Addresses and sizes count 32-bit words; every push, pop and store here is one aligned word.
  const STACK_WORDS: nat := 1024
  const PCB_WORDS: nat := 12
  const ESP_FIELD: nat := 2
  const STACK_FIELD: nat := 3
  const NAME_FIELD: nat := 4
  const NAME_WORDS: nat := 8
  const KERNEL_STACK_TOP: nat := 0x24000
  const FRAME_WORDS: nat := 9

  /** The 32 bytes a process name's copy leaves in its field, as words. */
  type NameWords = name: seq<nat> | |name| == 8 witness [0, 0, 0, 0, 0, 0, 0, 0]

  /** Where the linker put the process table and the stack pool, and how far down PID 0's stack may grow. */
  datatype Layout = Layout(table: nat, stacks: nat, low: nat, size: nat)

  datatype Regs = Regs(eax: nat, ecx: nat, edx: nat, ebx: nat, ebp: nat, esi: nat, edi: nat)

  datatype Cpu = Cpu(regs: Regs, esp: nat, eip: nat, interrupts: bool)

  datatype Machine = Machine(sched: Sched, mem: seq<nat>, cpu: Cpu)

  const ZERO_REGS := Regs(0, 0, 0, 0, 0, 0, 0)

  ghost predicate Apart(lo: nat, hi: nat, lo2: nat, hi2: nat) { hi <= lo2 || hi2 <= lo }

  ghost predicate Proper(l: Layout) {
    && l.table + MAX_PROCESSES * PCB_WORDS <= l.size
    && l.stacks + MAX_PROCESSES * STACK_WORDS <= l.size
    && l.low <= KERNEL_STACK_TOP <= l.size
    && Apart(l.table, l.table + MAX_PROCESSES * PCB_WORDS, l.stacks, l.stacks + MAX_PROCESSES * STACK_WORDS)
    && Apart(l.table, l.table + MAX_PROCESSES * PCB_WORDS, l.low, KERNEL_STACK_TOP)
    && Apart(l.stacks, l.stacks + MAX_PROCESSES * STACK_WORDS, l.low, KERNEL_STACK_TOP)
  }

  /** Process p's stack is [Low, High); PID 0 runs on the boot loader's stack. */
  function Low(l: Layout, p: nat): nat { if p == 0 then l.low else l.stacks + p * STACK_WORDS }

  function High(l: Layout, p: nat): nat {
    if p == 0 then KERNEL_STACK_TOP else l.stacks + p * STACK_WORDS + STACK_WORDS
  }

  function EntryAt(l: Layout, p: nat): nat { l.table + p * PCB_WORDS }

  function EspSlot(l: Layout, p: nat): nat { EntryAt(l, p) + ESP_FIELD }

  ghost predicate Shaped(l: Layout, m: Machine) {
    Shape(m.sched) && |m.mem| == l.size && Proper(l)
  }

  /** Memory with the given words stored from address a up. */
  function Put(mem: seq<nat>, a: nat, words: seq<nat>): (r: seq<nat>)
    requires a + |words| <= |mem|
    ensures |r| == |mem|
    ensures forall i | 0 <= i < |mem| :: r[i] == if a <= i < a + |words| then words[i - a] else mem[i]
  {
    mem[..a] + words + mem[a + |words|..]
  }

  /** The eight words pushad stores, lowest first, and the registers popad takes back from them. */
  function PushadWords(r: Regs, esp: nat): seq<nat> { [r.edi, r.esi, r.ebp, esp, r.ebx, r.edx, r.ecx, r.eax] }

  function PopadRegs(mem: seq<nat>, a: nat): Regs
    requires a + 8 <= |mem|
  {
    Regs(mem[a + 7], mem[a + 6], mem[a + 5], mem[a + 4], mem[a + 2], mem[a + 1], mem[a])
  }

  /** What popad, sti and ret leave behind with the stack pointer at a. */
  function Load(mem: seq<nat>, a: nat): Cpu
    requires a + FRAME_WORDS <= |mem|
  {
    Cpu(PopadRegs(mem, a), a + FRAME_WORDS, mem[a + 8], true)
  }

  /** The words pushad, the call and the two arguments leave, lowest first. */
  function CallWords(c: Cpu, ret: nat, slot: nat, target: nat): seq<nat>
    requires c.esp >= 3
  {
    PushadWords(c.regs, c.esp - 3) + [ret, slot, target]
  }

  /** The saved stack pointer of p addresses a whole frame inside p's own stack. */
  ghost predicate FrameIn(l: Layout, m: Machine, p: nat)
    requires Shaped(l, m) && p < MAX_PROCESSES
  {
    Low(l, p) <= m.mem[EspSlot(l, p)] && m.mem[EspSlot(l, p)] + FRAME_WORDS <= High(l, p)
  }

  /** What p will find in the CPU when it runs next. */
  ghost function Saved(l: Layout, m: Machine, p: nat): Cpu
    requires Shaped(l, m) && p < MAX_PROCESSES && FrameIn(l, m, p)
  {
    Load(m.mem, m.mem[EspSlot(l, p)])
  }

  /**
   * Every READY or BLOCKED process that is not current has a frame in its own stack; the current one's stack pointer
   * is in its own stack.
   */
  ghost predicate Inv(l: Layout, m: Machine) {
    && Shaped(l, m)
    && SchedSpec.Inv(m.sched)
    && Low(l, m.sched.cur) <= m.cpu.esp <= High(l, m.sched.cur)
    && forall p | 0 <= p < MAX_PROCESSES && p != m.sched.cur && m.sched.states[p] in {READY, BLOCKED} ::
        FrameIn(l, m, p)
  }

  // ---- the operations ---------------------------------------------------------------------------------------

  /** pick_and_switch, ending when the incoming process runs. */
  function SwitchTo(l: Layout, m: Machine, ret: nat): Machine
    requires Shaped(l, m) && Room(l, m)
    requires Next(m.sched, 1) != m.sched.cur ==> FrameIn(l, m, Next(m.sched, 1))
  {
    var p := Next(m.sched, 1);
    if p == m.sched.cur then m
    else
      var target := m.mem[EspSlot(l, p)];
      var slot := EspSlot(l, m.sched.cur);
      var mem := Put(m.mem, m.cpu.esp - 11, CallWords(m.cpu, ret, slot, target))[slot := m.cpu.esp - 11];
      Machine(Switch(m.sched), mem, Load(mem, target))
  }

  /** Room on the current stack for the call and the frame. */
  ghost predicate Room(l: Layout, m: Machine)
    requires Shaped(l, m)
  {
    Low(l, m.sched.cur) + 11 <= m.cpu.esp <= High(l, m.sched.cur)
  }

  function NewFrame(entry: nat): seq<nat> { [0, 0, 0, 0, 0, 0, 0, 0, entry] }

  /**
   * The pid, stack and name words of p's entry; its saved stack pointer is stored apart, its state is in the
   * scheduler's table.
   */
  function FillEntry(l: Layout, mem: seq<nat>, p: nat, stack: nat, name: NameWords): (r: seq<nat>)
    requires Proper(l) && |mem| == l.size && p < MAX_PROCESSES
    ensures |r| == |mem|
  {
    Put(mem[EntryAt(l, p) := p], EntryAt(l, p) + STACK_FIELD, [stack] + name)
  }

  /** The hand-made frame at the top of p's stack, and the saved stack pointer to it. */
  function Framed(l: Layout, mem: seq<nat>, p: nat, entry: nat): (r: seq<nat>)
    requires Proper(l) && |mem| == l.size && 0 < p < MAX_PROCESSES
    ensures |r| == |mem|
  {
    var a := High(l, p) - FRAME_WORDS;
    Put(mem, a, NewFrame(entry))[EspSlot(l, p) := a]
  }

  function CreateAt(l: Layout, m: Machine, entry: nat, name: NameWords): Machine
    requires Shaped(l, m)
  {
    var p := FreeSlot(m.sched, 1);
    if p == MAX_PROCESSES then m
    else
      m.(sched := Create(m.sched), mem := FillEntry(l, Framed(l, m.mem, p, entry), p, Low(l, p), name))
  }

  // ---- runs -----------------------------------------------------------------------------------------------------

  /** Between the kernel's own operations the current thread computes: it may change the CPU and memory. */
  datatype Event =
    | Exec(cpu: Cpu, mem: seq<nat>)
    | Reschedule(ret: nat)
    | Start(entry: nat, name: NameWords)
    | Other(e: SchedSpec.Event)

  ghost predicate Enabled(l: Layout, m: Machine, e: Event)
    requires Shaped(l, m)
  {
    match e
    case Exec(cpu, mem) =>
      && |mem| == l.size
      && Low(l, m.sched.cur) <= cpu.esp <= High(l, m.sched.cur)
      && (forall p | 0 <= p < MAX_PROCESSES && p != m.sched.cur :: Untouched(l, m.mem, mem, p))
    case Reschedule(ret) => Room(l, m)
    case Start(entry, name) => true
    case Other(o) => !o.SwitchEv? && !o.CreateEv? && SchedSpec.Enabled(m.sched, o)
  }

  /** p's stack and saved stack pointer are the same in both memories. */
  ghost predicate Untouched(l: Layout, before: seq<nat>, after: seq<nat>, p: nat)
    requires Proper(l) && |before| == |after| == l.size && p < MAX_PROCESSES
  {
    && before[EspSlot(l, p)] == after[EspSlot(l, p)]
    && forall a | Low(l, p) <= a < High(l, p) :: before[a] == after[a]
  }

  ghost function Step(l: Layout, m: Machine, e: Event): (t: Machine)
    requires Inv(l, m) && Enabled(l, m, e)
    ensures Shaped(l, t)
  {
    match e
    case Exec(cpu, mem) => m.(cpu := cpu, mem := mem)
    case Reschedule(ret) => NextReady(m.sched, 1); SwitchTo(l, m, ret)
    case Start(entry, name) => CreateAt(l, m, entry, name)
    case Other(o) => m.(sched := SchedSpec.Step(m.sched, o))
  }

  // ---- what a step keeps -------------------------------------------------------------------------------------

  /** Storing inside q's stack and q's saved stack pointer leaves p alone. */
  lemma PutApart(l: Layout, mem: seq<nat>, a: nat, words: seq<nat>, v: nat, q: nat, p: nat)
    requires Proper(l) && |mem| == l.size && p < MAX_PROCESSES && q < MAX_PROCESSES && p != q
    requires Low(l, q) <= a && a + |words| <= High(l, q)
    ensures Untouched(l, mem, Put(mem, a, words)[EspSlot(l, q) := v], p)
  {
  }

  lemma FramedApart(l: Layout, mem: seq<nat>, q: nat, entry: nat, p: nat)
    requires Proper(l) && |mem| == l.size && p < MAX_PROCESSES && 0 < q < MAX_PROCESSES && p != q
    ensures Untouched(l, mem, Framed(l, mem, q, entry), p)
  {
    var a := High(l, q) - FRAME_WORDS;
    PutApart(l, mem, a, NewFrame(entry), a, q, p);
  }

  /** Filling an entry leaves every stack and every saved stack pointer alone. */
  lemma EntryApart(l: Layout, mem: seq<nat>, q: nat, stack: nat, name: NameWords, p: nat)
    requires Proper(l) && |mem| == l.size && p < MAX_PROCESSES && q < MAX_PROCESSES
    ensures Untouched(l, mem, FillEntry(l, mem, q, stack, name), p)
  {
  }

  lemma Both(l: Layout, a: seq<nat>, b: seq<nat>, c: seq<nat>, p: nat)
    requires Proper(l) && |a| == |b| == |c| == l.size && p < MAX_PROCESSES
    requires Untouched(l, a, b, p) && Untouched(l, b, c, p)
    ensures Untouched(l, a, c, p)
  {
  }

  lemma FrameKept(l: Layout, m: Machine, t: Machine, p: nat)
    requires Shaped(l, m) && Shaped(l, t) && p < MAX_PROCESSES && Untouched(l, m.mem, t.mem, p) && FrameIn(l, m, p)
    ensures FrameIn(l, t, p) && Saved(l, t, p) == Saved(l, m, p)
  {
  }

  /**
   * No operation of the kernel or of another thread touches the stack or saved stack pointer of a process that is in
   * use and not current.
   */
  lemma StepApart(l: Layout, m: Machine, e: Event, p: nat)
    requires Inv(l, m) && Enabled(l, m, e) && p < MAX_PROCESSES && p != m.sched.cur && m.sched.states[p] != FREE
    ensures Untouched(l, m.mem, Step(l, m, e).mem, p)
  {
    hide Untouched, Put, Load, Switch, Create, FreeSlot, Next, Framed, FillEntry;
    match e
    case Exec(cpu, mem) =>
    case Reschedule(ret) =>
      NextReady(m.sched, 1);
      var q := Next(m.sched, 1);
      if q != m.sched.cur {
        var a := m.cpu.esp - 11;
        PutApart(l, m.mem, a, CallWords(m.cpu, ret, EspSlot(l, m.sched.cur), m.mem[EspSlot(l, q)]), a, m.sched.cur, p);
      } else {
        Same(l, m.mem, p);
      }
    case Start(entry, name) =>
      var q := FreeSlot(m.sched, 1);
      if q != MAX_PROCESSES {
        FramedApart(l, m.mem, q, entry, p);
        var framed := Framed(l, m.mem, q, entry);
        EntryApart(l, framed, q, Low(l, q), name, p);
        Both(l, m.mem, framed, FillEntry(l, framed, q, Low(l, q), name), p);
      } else {
        Same(l, m.mem, p);
      }
    case Other(o) => Same(l, m.mem, p);
  }

  lemma Same(l: Layout, mem: seq<nat>, p: nat)
    requires Proper(l) && |mem| == l.size && p < MAX_PROCESSES
    ensures Untouched(l, mem, mem, p)
  {
  }
}
