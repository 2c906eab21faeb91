/** kernel/pmm.c: the frame allocator as it runs, over bit-packed words and wrapping 32-bit arithmetic. */
module FrameAllocators {
  import opened BitCounts
  import opened WordBitmaps
  import opened FrameSpec
  import opened FrameLaws

  class FrameAllocator {
    const bitmap: array<bv32>
    var totalFrames: nat
    var freeFrames: nat

    ghost predicate Wired() { bitmap.Length == FRAMES / 32 }

    ghost function View(): Frames
      requires Wired()
      reads this, bitmap
    {
      Frames(Decode(bitmap[..], FRAMES), freeFrames)
    }

    ghost predicate Valid()
      reads this, bitmap
    {
      Wired() && totalFrames == FRAMES && Counted(View())
    }

    /** The body shared by both walks of pmm_init: free one frame, once. */
    method Release(frame: nat)
      requires Wired() && frame < FRAMES && Counted(View())
      modifies this`freeFrames, bitmap
      ensures Counted(View()) && View() == Free(old(View()), frame * FRAME_SIZE)
    {
      var taken := BitTest(bitmap, frame);
      if taken {
        FreeCounted(View(), frame * FRAME_SIZE);
        BitClear(bitmap, frame);
        freeFrames := Add32(freeFrames, 1);
        CountBound(View().used, 0);
      }
    }

    /** One entry's walk (kernel/pmm.c:48-56): it ends for every start and end, wrapped or not. */
    method Walk(first: nat, end: nat)
      requires Wired() && Counted(View()) && first < WORD && end < WORD
      modifies this`freeFrames, bitmap
      ensures Counted(View())
      ensures forall f | 0 <= f < FRAMES :: View().used[f] <==> old(View()).used[f] && !Walks(first, end, f)
    {
      ghost var was := View().used;
      var a := first;
      while Add32(a, FRAME_SIZE) <= end
        invariant Counted(View()) && first <= a < WORD
        invariant a % FRAME_SIZE == first % FRAME_SIZE
        invariant forall f | 0 <= f < FRAMES ::
                    View().used[f] <==> was[f] && !(Walks(first, end, f) && f < a / FRAME_SIZE)
        decreases RAM_BYTES - a
      {
        var frame := a / FRAME_SIZE;
        if frame >= FRAMES {
          break;
        }
        if !(a >= DISK_LO && a < DISK_HI) {
          Release(frame);
        }
        a := Add32(a, FRAME_SIZE);
      }
    }

    /** pmm_init, for any map the boot loader left and any kernel end. */
    method Init(entries: seq<Entry>, kernelEnd: nat)
      requires Wired() && |entries| < 0x1_0000 && kernelEnd < WORD
      modifies this, bitmap
      ensures Valid()
      ensures View() == Boot(entries, kernelEnd)
    {
      hide Walks;
      forall w | 0 <= w < bitmap.Length { bitmap[w] := 0xFFFF_FFFF; }
      freeFrames := 0;
      DecodeOnes(bitmap[..], FRAMES);
      CountZero(View().used, 0);
      var i := 0;
      while i < |entries|
        invariant 0 <= i <= |entries| && Counted(View())
        invariant forall f | 0 <= f < FRAMES ::
                    View().used[f] <==> !exists j | 0 <= j < i :: Offers(entries[j], kernelEnd, f)
      {
        if entries[i].kind == 1 {
          var start := entries[i].base % WORD;
          var len := entries[i].length % WORD;
          var end := Add32(start, len);
          var first := if start < kernelEnd then kernelEnd else start;
          Walk(first, end);
        }
        i := i + 1;
      }
      if |entries| == 0 || |entries| > 64 {
        Walk(0x10_0000, RAM_BYTES);
      }
      assert View().used == Boot(entries, kernelEnd).used;
      totalFrames := FRAMES;
    }

    /** pmm_alloc_frame. */
    method AllocFrame() returns (addr: nat)
      requires Valid()
      modifies this`freeFrames, bitmap
      ensures Valid()
      ensures var r := Alloc(old(View())); View() == r.frames && addr == r.addr
    {
      ghost var p := View();
      AllocCounted(p);
      CountZero(p.used, 0);
      var i := 0;
      while i < totalFrames
        invariant 0 <= i <= totalFrames && View() == p
        invariant forall j | 0 <= j < i :: p.used[j]
      {
        var taken := BitTest(bitmap, i);
        if !taken {
          LowestIs(p.used, i);
          CountBound(p.used, 0);
          assert Alloc(p).frames == Frames(p.used[i := true], p.free - 1) && p.free > 0;
          BitSet(bitmap, i);
          freeFrames := (freeFrames + WORD - 1) % WORD;
          return i * FRAME_SIZE;
        }
        i := i + 1;
      }
      return 0;
    }

    /** pmm_free_frame. */
    method FreeFrame(addr: nat)
      requires Valid() && addr < WORD
      modifies this`freeFrames, bitmap
      ensures Valid() && View() == Free(old(View()), addr)
    {
      var frame := addr / FRAME_SIZE;
      if frame >= totalFrames {
        return;
      }
      Release(frame);
    }

    method FreeCount() returns (n: nat)
      requires Valid()
      ensures n == CountClear(View().used, 0)
    {
      return freeFrames;
    }

    /** The bitmap's memory is arbitrary until pmm_init. */
    constructor (garbage: seq<bv32>)
      requires |garbage| == FRAMES / 32
      ensures Wired() && fresh(bitmap)
    {
      bitmap := new bv32[FRAMES / 32](w requires 0 <= w < |garbage| => garbage[w]);
      totalFrames, freeFrames := 0, 0;
    }
  }

  lemma LowestIs(used: seq<bool>, i: nat)
    requires i < |used| && !used[i] && forall j | 0 <= j < i :: used[j]
    ensures Lowest(used, 0) == i
  {
  }

  lemma {:induction false} CountBound(used: seq<bool>, from: nat)
    requires from <= |used|
    ensures CountClear(used, from) <= |used| - from
    decreases |used| - from
  {
    if from < |used| { CountBound(used, from + 1); }
  }

  /** Serving any calls from boot on is the specification's run. */
  method Serve(garbage: seq<bv32>, entries: seq<Entry>, kernelEnd: nat, ops: seq<Op>) returns (fa: FrameAllocator)
    requires |garbage| == FRAMES / 32 && |entries| < 0x1_0000 && kernelEnd < WORD
    requires forall op | op in ops :: op.FreeOp? ==> op.addr < WORD
    ensures fa.Valid()
    ensures fa.View() == Perform(Clients(Boot(entries, kernelEnd), {}), ops).frames
  {
    fa := new FrameAllocator(garbage);
    fa.Init(entries, kernelEnd);
    ghost var c := Clients(fa.View(), {});
    var i := 0;
    assert ops[0..] == ops;
    while i < |ops|
      invariant 0 <= i <= |ops|
      invariant fresh(fa) && fresh(fa.bitmap) && fa.Valid() && fa.View() == c.frames
      invariant Perform(c, ops[i..]) == Perform(Clients(Boot(entries, kernelEnd), {}), ops)
    {
      assert ops[i..][0] == ops[i] && ops[i..][1..] == ops[i + 1..];
      match ops[i] {
        case AllocOp => var a := fa.AllocFrame();
        case FreeOp(addr) => fa.FreeFrame(addr);
      }
      c := Apply(c, ops[i]);
      i := i + 1;
    }
    assert ops[i..] == [];
  }
}
