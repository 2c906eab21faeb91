/** Physical frames as a set of bits and a counter: the allocator's specification (kernel/pmm.c). */
module FrameSpec {
  import opened BitCounts

  const FRAME_SIZE: nat := 4096
  const RAM_BYTES: nat := 0x200_0000
  const FRAMES: nat := 8192
  const WORD: nat := 0x1_0000_0000
  const DISK_LO: nat := 0x20_0000
  const DISK_HI: nat := 0x30_0000

  /** One entry of the INT 15h, E820h map: 64-bit base and length, and a type where 1 means usable. */
  datatype Entry = Entry(base: nat, length: nat, kind: nat)

  predicate ValidEntry(e: Entry) {
    e.base < WORD * WORD && e.length < WORD * WORD && e.kind < WORD
  }

  function Add32(x: nat, y: nat): nat { (x + y) % WORD }

  /** The 32-bit start (clipped at the kernel's end) and end that pmm_init computes for an entry. */
  function First(e: Entry, kernelEnd: nat): nat {
    if e.base % WORD < kernelEnd then kernelEnd else e.base % WORD
  }

  function End(e: Entry): nat { Add32(e.base % WORD, e.length % WORD) }

  predicate InRamDisk(a: nat) { DISK_LO <= a < DISK_HI }

  /** The address at which pmm_init's walk from first meets frame f. */
  function WalkAddr(first: nat, f: nat): nat { f * FRAME_SIZE + first % FRAME_SIZE }

  /** A walk from first up to end frees frame f. */
  predicate Walks(first: nat, end: nat, f: nat) {
    && first / FRAME_SIZE <= f < FRAMES
    && WalkAddr(first, f) + FRAME_SIZE <= end
    && !InRamDisk(WalkAddr(first, f))
  }

  predicate Offers(e: Entry, kernelEnd: nat, f: nat) {
    e.kind == 1 && Walks(First(e, kernelEnd), End(e), f)
  }

  /** Without a believable map pmm_init takes everything from 1 MiB up. */
  predicate Fallback(count: nat, f: nat) {
    (count == 0 || count > 64) && Walks(0x10_0000, RAM_BYTES, f)
  }

  /** The frames pmm_init frees. */
  predicate FreeAtBoot(entries: seq<Entry>, kernelEnd: nat, f: nat) {
    || (exists i | 0 <= i < |entries| :: Offers(entries[i], kernelEnd, f))
    || Fallback(|entries|, f)
  }

  /** The state pmm_init leaves. */
  ghost function Boot(entries: seq<Entry>, kernelEnd: nat): Frames {
    var used := seq(FRAMES, f requires 0 <= f < FRAMES => !FreeAtBoot(entries, kernelEnd, f));
    Frames(used, CountClear(used, 0))
  }

  // ---- the state and its two calls --------------------------------------------------------------------

  datatype Frames = Frames(used: seq<bool>, free: int)

  ghost predicate Counted(p: Frames) {
    |p.used| == FRAMES && p.free == CountClear(p.used, 0)
  }

  /** The lowest clear bit from i on; the length when there is none. */
  function Lowest(used: seq<bool>, i: nat): (r: nat)
    requires i <= |used|
    ensures i <= r <= |used|
    ensures r < |used| ==> !used[r]
    ensures forall j | i <= j < r :: used[j]
    decreases |used| - i
  {
    if i == |used| || !used[i] then i else Lowest(used, i + 1)
  }

  datatype Allocated = Allocated(frames: Frames, addr: nat)

  function Alloc(p: Frames): Allocated {
    var f := Lowest(p.used, 0);
    if f == |p.used| then Allocated(p, 0)
    else Allocated(Frames(p.used[f := true], p.free - 1), f * FRAME_SIZE)
  }

  /** Double and out-of-range frees change nothing. */
  function Free(p: Frames, addr: nat): Frames {
    var f := addr / FRAME_SIZE;
    if f >= |p.used| || !p.used[f] then p else Frames(p.used[f := false], p.free + 1)
  }

  lemma AllocCounted(p: Frames)
    requires Counted(p)
    ensures Counted(Alloc(p).frames)
    ensures (Alloc(p).addr == 0 && Alloc(p).frames == p) || (p.free > 0 && Alloc(p).frames.free == p.free - 1 >= 0)
  {
    var f := Lowest(p.used, 0);
    if f < FRAMES {
      CountSet(p.used, 0, f, true);
      CountZero(p.used, 0);
    }
  }

  lemma FreeCounted(p: Frames, addr: nat)
    requires Counted(p)
    ensures Counted(Free(p, addr))
  {
    var f := addr / FRAME_SIZE;
    if f < FRAMES && p.used[f] {
      CountSet(p.used, 0, f, false);
    }
  }
}
