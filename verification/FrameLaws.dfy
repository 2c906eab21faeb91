/** What initialisation frees, and safety of the allocator over whole runs. */
module FrameLaws {
  import opened BitCounts
  import opened FrameSpec

  // ---- the walk step by step -------------------------------------------------------------------------

  /** Step j of a walk from first lies in frame f, has a whole page before the end, and is off the disk. */
  predicate StepFrees(first: nat, end: nat, f: nat, j: nat) {
    var a := first + j * 4096;
    a / 4096 == f && a + 4096 <= end && !(0x20_0000 <= a < 0x30_0000)
  }

  lemma StepIn(first: nat, f: nat, j: nat)
    ensures (first + j * 4096) / 4096 == f <==> f == first / 4096 + j
    ensures f == first / 4096 + j ==> first + j * 4096 == WalkAddr(first, f)
  {
  }

  /** A walk frees exactly the frames of memory that one of its steps frees. */
  lemma WalkSteps(first: nat, end: nat, f: nat)
    ensures Walks(first, end, f) <==> f < 8192 && exists j: nat :: StepFrees(first, end, f, j)
  {
    if Walks(first, end, f) {
      var j := f - first / 4096;
      StepIn(first, f, j);
      assert StepFrees(first, end, f, j);
    }
    if j: nat :| StepFrees(first, end, f, j) {
      StepIn(first, f, j);
    }
  }

  /** Where an entry's walk starts and ends: the 32-bit base, not below the kernel's end, and the 32-bit sum. */
  lemma WalkBounds(e: Entry, kernelEnd: nat)
    ensures First(e, kernelEnd) == (if e.base % 0x1_0000_0000 < kernelEnd then kernelEnd else e.base % 0x1_0000_0000)
    ensures End(e) == (e.base + e.length) % 0x1_0000_0000
  {
  }

  /** An entry offers exactly the frames that the steps of its walk free, whatever its alignment. */
  lemma OffersSteps(e: Entry, kernelEnd: nat, f: nat)
    ensures Offers(e, kernelEnd, f)
            <==> e.kind == 1 && f < 8192 && exists j: nat :: StepFrees(First(e, kernelEnd), End(e), f, j)
  {
    WalkSteps(First(e, kernelEnd), End(e), f);
  }

  /** A frame that some step of some usable entry's walk frees. */
  ghost predicate EntrySteps(entries: seq<Entry>, kernelEnd: nat, f: nat) {
    exists i, j: nat | 0 <= i < |entries| ::
      entries[i].kind == 1 && StepFrees(First(entries[i], kernelEnd), End(entries[i]), f, j)
  }

  /**
   * On every map, boot frees a frame of memory exactly when a step frees it, or without a map when it is past 1 MiB
   * and off the disk.
   */
  lemma BootSteps(entries: seq<Entry>, kernelEnd: nat, f: nat)
    ensures FreeAtBoot(entries, kernelEnd, f)
            <==> f < 8192 && (|| EntrySteps(entries, kernelEnd, f)
                              || ((|entries| == 0 || |entries| > 64) && 256 <= f && (f < 512 || 768 <= f)))
  {
    assert Walks(0x10_0000, RAM_BYTES, f) <==> 256 <= f < 8192 && (f < 512 || 768 <= f);
    if i :| 0 <= i < |entries| && Offers(entries[i], kernelEnd, f) {
      OffersSteps(entries[i], kernelEnd, f);
      var j: nat :| StepFrees(First(entries[i], kernelEnd), End(entries[i]), f, j);
      assert EntrySteps(entries, kernelEnd, f);
    }
    if f < 8192 && EntrySteps(entries, kernelEnd, f) {
      var i, j: nat :| 0 <= i < |entries| && entries[i].kind == 1
                       && StepFrees(First(entries[i], kernelEnd), End(entries[i]), f, j);
      OffersSteps(entries[i], kernelEnd, f);
    }
  }

  /**
   * A kernel that ends inside a page: every page of the entry from there on is free, the kernel's own tail included.
   */
  lemma UnalignedWalk(f: nat)
    ensures FreeAtBoot([Entry(0, 0x9_FC00, 1)], 0x2_1800, f) <==> 0x21 <= f <= 0x9E
  {
    var e := Entry(0, 0x9_FC00, 1);
    assert FreeAtBoot([e], 0x2_1800, f) <==> Offers([e][0], 0x2_1800, f);
  }

  // ---- what an entry gives ----------------------------------------------------------------------------

  /** Frame f lies wholly in [lo, hi). */
  predicate Within(f: nat, lo: nat, hi: nat) {
    lo <= f * FRAME_SIZE && f * FRAME_SIZE + FRAME_SIZE <= hi
  }

  /** Frame f shares no byte with the file system's disk. */
  predicate ClearOfDisk(f: nat) {
    f * FRAME_SIZE + FRAME_SIZE <= DISK_LO || DISK_HI <= f * FRAME_SIZE
  }

  /** A frame as pmm_init should free it: in memory, off the disk, wholly in the entry and past the kernel. */
  predicate Proper(e: Entry, kernelEnd: nat, f: nat) {
    && e.kind == 1 && f < FRAMES && ClearOfDisk(f)
    && Within(f, e.base, e.base + e.length) && kernelEnd <= f * FRAME_SIZE
  }

  /** Whatever the alignment, the disk's frames are never offered. */
  lemma NeverDisk(e: Entry, kernelEnd: nat, f: nat)
    requires Offers(e, kernelEnd, f)
    ensures ClearOfDisk(f) && f < FRAMES
  {
  }

  /** An entry that does not wrap offers exactly its proper frames when its clipped start is page-aligned. */
  lemma AlignedEntry(e: Entry, kernelEnd: nat, f: nat)
    requires e.base + e.length < WORD && First(e, kernelEnd) % FRAME_SIZE == 0
    ensures Offers(e, kernelEnd, f) <==> Proper(e, kernelEnd, f)
  {
    var first := First(e, kernelEnd);
    assert WalkAddr(first, f) == f * FRAME_SIZE;
  }

  /**
   * The entries pmm_init treats soundly. It keeps 32 bits of the base and of the end, and steps by pages from the
   * clipped start: sound when that gives no frame, when a base below 4 GiB meets an aligned start or a start on the
   * disk, or when the truncated start of a higher base lies on the disk and the walk ends before the frame after it.
   */
  predicate SoundEntry(e: Entry, kernelEnd: nat) {
    var first, end := First(e, kernelEnd), End(e);
    || first >= RAM_BYTES || first + FRAME_SIZE > end
    || (if e.base < WORD then first % FRAME_SIZE == 0 || InRamDisk(first)
        else InRamDisk(first) && DISK_HI + first % FRAME_SIZE + FRAME_SIZE > end)
  }

  /** Exactly then is every frame a usable entry gives wholly inside the entry and past the kernel. */
  lemma UnalignedEntry(e: Entry, kernelEnd: nat)
    requires ValidEntry(e) && e.kind == 1
    ensures (forall f: nat | Offers(e, kernelEnd, f) :: Proper(e, kernelEnd, f)) <==> SoundEntry(e, kernelEnd)
  {
    hide Offers, Proper, SoundEntry;
    if SoundEntry(e, kernelEnd) {
      forall f: nat | Offers(e, kernelEnd, f) ensures Proper(e, kernelEnd, f) { SoundGives(e, kernelEnd, f); }
    } else {
      UnsoundGives(e, kernelEnd);
    }
  }

  lemma SoundGives(e: Entry, kernelEnd: nat, f: nat)
    requires ValidEntry(e) && SoundEntry(e, kernelEnd) && Offers(e, kernelEnd, f)
    ensures Proper(e, kernelEnd, f)
  {
  }

  lemma UnsoundGives(e: Entry, kernelEnd: nat)
    requires ValidEntry(e) && e.kind == 1 && !SoundEntry(e, kernelEnd)
    ensures exists f: nat :: Offers(e, kernelEnd, f) && !Proper(e, kernelEnd, f)
  {
    var first := First(e, kernelEnd);
    var g := if InRamDisk(first) then DISK_HI / FRAME_SIZE else first / FRAME_SIZE;
    assert Offers(e, kernelEnd, g) && !Proper(e, kernelEnd, g);
  }

  /** On a map of sound entries every frame boot frees is wholly inside a usable entry and past the kernel. */
  lemma SoundBoot(entries: seq<Entry>, kernelEnd: nat, f: nat)
    requires 1 <= |entries| <= 64 && FreeAtBoot(entries, kernelEnd, f)
    requires forall i | 0 <= i < |entries| ::
               ValidEntry(entries[i]) && (entries[i].kind == 1 ==> SoundEntry(entries[i], kernelEnd))
    ensures exists i | 0 <= i < |entries| :: Proper(entries[i], kernelEnd, f)
  {
    var i :| 0 <= i < |entries| && Offers(entries[i], kernelEnd, f);
    UnalignedEntry(entries[i], kernelEnd);
  }

  /** A kernel that ends inside a page below 1 MiB: one usable entry makes pmm_init free the kernel's own last frame. */
  lemma KernelTailFreed()
    ensures var e := Entry(0, 0x80_0000, 1);
            && ValidEntry(e) && FreeAtBoot([e], 0x2_1800, 0x21) && !SoundEntry(e, 0x2_1800)
            && 0x21 * FRAME_SIZE < 0x2_1800 < 0x21 * FRAME_SIZE + FRAME_SIZE < MIB
  {
    var e := Entry(0, 0x80_0000, 1);
    assert Offers([e][0], 0x2_1800, 0x21);
  }

  /** An aligned entry above 4 GiB, truncated to 32 bits: pmm_init frees a frame that is nowhere near it. */
  lemma HighEntryFreed()
    ensures var e := Entry(WORD, 0x80_0000, 1);
            && ValidEntry(e) && FreeAtBoot([e], 0x2_2000, 0x22) && !SoundEntry(e, 0x2_2000)
            && 0x22 * FRAME_SIZE + FRAME_SIZE <= e.base
  {
    var e := Entry(WORD, 0x80_0000, 1);
    assert Offers([e][0], 0x2_2000, 0x22);
  }

  const MIB: nat := 0x10_0000

  /** The entries that reach the first 1 MiB: usable, with a clipped start there and a whole page before the end. */
  predicate GivesLow(e: Entry, kernelEnd: nat) {
    e.kind == 1 && First(e, kernelEnd) < MIB && First(e, kernelEnd) + FRAME_SIZE <= End(e)
  }

  /** Exactly those entries give a frame of the first 1 MiB. */
  lemma LowFrames(e: Entry, kernelEnd: nat)
    ensures (exists f: nat | f < MIB / FRAME_SIZE :: Offers(e, kernelEnd, f)) <==> GivesLow(e, kernelEnd)
  {
    if GivesLow(e, kernelEnd) { assert Offers(e, kernelEnd, First(e, kernelEnd) / FRAME_SIZE); }
  }

  /** Boot frees a frame of the first 1 MiB exactly when some entry gives one: the walk without a map never does. */
  lemma LowMemoryFreed(entries: seq<Entry>, kernelEnd: nat)
    ensures (exists f: nat | f < MIB / FRAME_SIZE :: FreeAtBoot(entries, kernelEnd, f))
            <==> (exists i | 0 <= i < |entries| :: GivesLow(entries[i], kernelEnd))
  {
    if f: nat :| f < MIB / FRAME_SIZE && FreeAtBoot(entries, kernelEnd, f) {
      var i :| 0 <= i < |entries| && Offers(entries[i], kernelEnd, f);
      LowFrames(entries[i], kernelEnd);
    }
    if i :| 0 <= i < |entries| && GivesLow(entries[i], kernelEnd) {
      LowFrames(entries[i], kernelEnd);
      var f: nat :| f < MIB / FRAME_SIZE && Offers(entries[i], kernelEnd, f);
      assert FreeAtBoot(entries, kernelEnd, f);
    }
  }

  /** The entries that reach the kernel: the page of the clipped start begins before the kernel's end, and is walked. */
  predicate GivesKernel(e: Entry, kernelEnd: nat) {
    var first := First(e, kernelEnd);
    && e.kind == 1 && first / FRAME_SIZE * FRAME_SIZE < kernelEnd
    && first + FRAME_SIZE <= End(e) && first < RAM_BYTES && !InRamDisk(first)
  }

  /** Exactly those entries give a frame that begins before the kernel's end. */
  lemma KernelFrames(e: Entry, kernelEnd: nat)
    ensures (exists f: nat | f * FRAME_SIZE < kernelEnd :: Offers(e, kernelEnd, f)) <==> GivesKernel(e, kernelEnd)
  {
    var g := First(e, kernelEnd) / FRAME_SIZE;
    if GivesKernel(e, kernelEnd) { assert Offers(e, kernelEnd, g); }
    if f: nat :| f * FRAME_SIZE < kernelEnd && Offers(e, kernelEnd, f) { assert f == g; }
  }

  /**
   * Boot frees a frame that begins before the kernel's end exactly when an entry gives one, or without a map when the
   * kernel passes 1 MiB.
   */
  lemma KernelFreed(entries: seq<Entry>, kernelEnd: nat)
    ensures (exists f: nat | f * FRAME_SIZE < kernelEnd :: FreeAtBoot(entries, kernelEnd, f))
            <==> (exists i | 0 <= i < |entries| :: GivesKernel(entries[i], kernelEnd))
                 || ((|entries| == 0 || |entries| > 64) && kernelEnd > MIB)
  {
    if f: nat :| f * FRAME_SIZE < kernelEnd && FreeAtBoot(entries, kernelEnd, f) && !Fallback(|entries|, f) {
      var i :| 0 <= i < |entries| && Offers(entries[i], kernelEnd, f);
      KernelFrames(entries[i], kernelEnd);
    }
    if i :| 0 <= i < |entries| && GivesKernel(entries[i], kernelEnd) {
      KernelFrames(entries[i], kernelEnd);
      var f: nat :| f * FRAME_SIZE < kernelEnd && Offers(entries[i], kernelEnd, f);
      assert FreeAtBoot(entries, kernelEnd, f);
    }
    if (|entries| == 0 || |entries| > 64) && kernelEnd > MIB {
      assert Fallback(|entries|, 256);
      assert FreeAtBoot(entries, kernelEnd, 256);
    }
  }

  /** Initialisation frees exactly the proper frames of the map, whatever entries overlap. */
  lemma BootFreesProper(entries: seq<Entry>, kernelEnd: nat, f: nat)
    requires 1 <= |entries| <= 64 && f < FRAMES
    requires forall i | 0 <= i < |entries| && entries[i].kind == 1 ::
               entries[i].base + entries[i].length < WORD && First(entries[i], kernelEnd) % FRAME_SIZE == 0
    ensures FreeAtBoot(entries, kernelEnd, f) <==> exists i | 0 <= i < |entries| :: Proper(entries[i], kernelEnd, f)
  {
    forall i | 0 <= i < |entries|
      ensures Offers(entries[i], kernelEnd, f) <==> Proper(entries[i], kernelEnd, f)
    {
      if entries[i].kind == 1 { AlignedEntry(entries[i], kernelEnd, f); }
    }
  }

  /** On any map at all, boot never frees a frame of the disk, nor frame 0 when the kernel ends past the first page. */
  lemma BootReserves(entries: seq<Entry>, kernelEnd: nat, f: nat)
    requires FreeAtBoot(entries, kernelEnd, f)
    ensures f < FRAMES && ClearOfDisk(f)
    ensures kernelEnd >= FRAME_SIZE ==> f != 0
  {
    if i :| 0 <= i < |entries| && Offers(entries[i], kernelEnd, f) {
      NeverDisk(entries[i], kernelEnd, f);
    }
  }

  // ---- no map at all ----------------------------------------------------------------------------------

  /** The clear bits from lo to hi - 1, and those after. */
  lemma {:induction false} CountStretch(used: seq<bool>, lo: nat, hi: nat, v: bool)
    requires lo <= hi <= |used| && forall b | lo <= b < hi :: used[b] == v
    ensures CountClear(used, lo) == (if v then 0 else hi - lo) + CountClear(used, hi)
    decreases hi - lo
  {
    if lo < hi { CountStretch(used, lo + 1, hi, v); }
  }

  /** With no map entries exactly the 7680 frames above 1 MiB and off the disk are free. */
  lemma NoMapCount(kernelEnd: nat)
    ensures Boot([], kernelEnd).free == 7680
  {
    var p := Boot([], kernelEnd);
    forall f: nat | f < FRAMES
      ensures p.used[f] <==> f < 256 || 512 <= f < 768
    {
      assert p.used[f] <==> !FreeAtBoot([], kernelEnd, f);
    }
    CountStretch(p.used, 0, 256, true);
    CountStretch(p.used, 256, 512, false);
    CountStretch(p.used, 512, 768, true);
    CountStretch(p.used, 768, FRAMES, false);
  }

  // ---- runs ---------------------------------------------------------------------------------------------

  /** A caller's step: ask for a frame, or give back an address it holds. */
  datatype Op = AllocOp | FreeOp(addr: nat)

  /** The allocator and the addresses handed out and not yet given back. */
  datatype Clients = Clients(frames: Frames, held: set<nat>)

  predicate Allowed(c: Clients, op: Op) { op.FreeOp? ==> op.addr in c.held }

  function Apply(c: Clients, op: Op): Clients {
    match op
    case AllocOp =>
      var r := Alloc(c.frames);
      Clients(r.frames, if r.addr == 0 then c.held else c.held + {r.addr})
    case FreeOp(addr) => Clients(Free(c.frames, addr), c.held - {addr})
  }

  /** Reserved frames stay taken; held addresses are distinct taken frames that are not reserved. */
  ghost predicate Safe(c: Clients) {
    && Counted(c.frames)
    && c.frames.used[0]
    && (forall f | 0 <= f < FRAMES && !ClearOfDisk(f) :: c.frames.used[f])
    && (forall a | a in c.held ::
          && a % FRAME_SIZE == 0 && 0 < a / FRAME_SIZE < FRAMES && c.frames.used[a / FRAME_SIZE]
          && ClearOfDisk(a / FRAME_SIZE))
  }

  lemma SafeAtBoot(entries: seq<Entry>, kernelEnd: nat)
    requires kernelEnd >= FRAME_SIZE
    ensures Safe(Clients(Boot(entries, kernelEnd), {}))
  {
    forall f: nat | f < FRAMES && !Boot(entries, kernelEnd).used[f]
      ensures f != 0 && ClearOfDisk(f)
    {
      BootReserves(entries, kernelEnd, f);
    }
  }

  lemma SafeStep(c: Clients, op: Op)
    requires Safe(c) && Allowed(c, op)
    ensures Safe(Apply(c, op))
  {
    match op
    case AllocOp => AllocCounted(c.frames);
    case FreeOp(addr) => FreeCounted(c.frames, addr);
  }

  function Perform(c: Clients, ops: seq<Op>): Clients
    decreases |ops|
  {
    if ops == [] then c else Perform(Apply(c, ops[0]), ops[1..])
  }

  predicate AllAllowed(c: Clients, ops: seq<Op>)
    decreases |ops|
  {
    ops == [] || (Allowed(c, ops[0]) && AllAllowed(Apply(c, ops[0]), ops[1..]))
  }

  lemma {:induction false} SafeRun(c: Clients, ops: seq<Op>)
    requires Safe(c) && AllAllowed(c, ops)
    ensures Safe(Perform(c, ops))
    decreases |ops|
  {
    hide Safe, Allowed, Apply;
    if ops != [] {
      SafeStep(c, ops[0]);
      SafeRun(Apply(c, ops[0]), ops[1..]);
    }
  }

  /**
   * In a safe state an allocation returns the lowest free frame, never one held or on the disk, and 0 exactly when
   * none is free.
   */
  lemma AllocationIs(c: Clients)
    requires Safe(c)
    ensures var a := Alloc(c.frames).addr;
            && a % FRAME_SIZE == 0 && a !in c.held
            && (a == 0 <==> forall f | 0 <= f < FRAMES :: c.frames.used[f])
            && (a != 0 ==>
                  && a / FRAME_SIZE < FRAMES && !c.frames.used[a / FRAME_SIZE] && ClearOfDisk(a / FRAME_SIZE)
                  && (forall f | 0 <= f < a / FRAME_SIZE :: c.frames.used[f]))
  {
  }

  /**
   * Allocating, in any state: the lowest free frame is taken and counted off, and only it; with none free nothing
   * changes.
   */
  lemma AllocIs(p: Frames)
    requires |p.used| == FRAMES
    ensures var r := Alloc(p);
            if forall g | 0 <= g < 8192 :: p.used[g] then r == Allocated(p, 0)
            else
              && r.addr % 4096 == 0 && r.addr / 4096 < 8192 && r.frames.free == p.free - 1 && |r.frames.used| == FRAMES
              && !p.used[r.addr / 4096] && r.frames.used[r.addr / 4096]
              && (forall g | 0 <= g < r.addr / 4096 :: p.used[g])
              && (forall g | 0 <= g < FRAMES && g != r.addr / 4096 :: r.frames.used[g] == p.used[g])
  {
    hide Lowest;
    var f := Lowest(p.used, 0);
    assert f < FRAMES ==> f * FRAME_SIZE / 4096 == f;
  }

  /**
   * Freeing: a taken frame in range becomes free and is counted; no other frame changes, nor anything for other
   * addresses.
   */
  lemma FreeIs(p: Frames, addr: nat)
    requires |p.used| == FRAMES
    ensures var q, f := Free(p, addr), addr / 4096;
            && |q.used| == FRAMES
            && (forall g | 0 <= g < FRAMES && g != f :: q.used[g] == p.used[g])
            && (f < 8192 ==> !q.used[f])
            && q.free == p.free + (if f < 8192 && p.used[f] then 1 else 0)
  {
  }

  /**
   * Safety over whole runs: from boot on any map, after any allowed calls, the next allocation is as AllocationIs
   * says.
   */
  lemma AllocatorSafety(entries: seq<Entry>, kernelEnd: nat, ops: seq<Op>)
    requires kernelEnd >= FRAME_SIZE && AllAllowed(Clients(Boot(entries, kernelEnd), {}), ops)
    ensures var c := Perform(Clients(Boot(entries, kernelEnd), {}), ops);
            var a := Alloc(c.frames).addr;
            && Counted(c.frames) && a !in c.held && a % FRAME_SIZE == 0
            && (a == 0 <==> c.frames.free == 0)
            && (a != 0 ==>
                  && a / FRAME_SIZE < FRAMES && !c.frames.used[a / FRAME_SIZE]
                  && (a + FRAME_SIZE <= DISK_LO || DISK_HI <= a)
                  && (forall f | 0 <= f < a / FRAME_SIZE :: c.frames.used[f]))
  {
    SafeAtBoot(entries, kernelEnd);
    SafeRun(Clients(Boot(entries, kernelEnd), {}), ops);
    var c := Perform(Clients(Boot(entries, kernelEnd), {}), ops);
    AllocationIs(c);
    CountZero(c.frames.used, 0);
  }

  /** Conservation over any calls, allowed or not: the counter is always the number of clear bits. */
  lemma {:induction false} CounterConserved(c: Clients, ops: seq<Op>)
    requires Counted(c.frames)
    ensures Counted(Perform(c, ops).frames)
    decreases |ops|
  {
    if ops != [] {
      AllocCounted(c.frames);
      if ops[0].FreeOp? { FreeCounted(c.frames, ops[0].addr); }
      CounterConserved(Apply(c, ops[0]), ops[1..]);
    }
  }

  /**
   * Frame 0 is the exception: when the kernel ends inside the first page its frame can be free, and 0 then is a frame,
   * not a failure.
   */
  lemma FrameZeroAmbiguous(p: Frames)
    requires |p.used| == FRAMES
    ensures Alloc(p).addr == 0 <==> !p.used[0] || forall f | 0 <= f < FRAMES :: p.used[f]
  {
    assert !p.used[0] ==> Lowest(p.used, 0) == 0;
  }
}
