/** Bitmaps packed thirty-two bits to a word, as in kernel/pmm.c. */
module WordBitmaps {
  /** The position of bit n within its word. */
  function Pos(n: nat): bv5 { (n % 32) as bv5 }

  predicate WordBit(x: bv32, k: bv5) { (x >> k) & 1 == 1 }

  predicate BitAt(bits: seq<bv32>, n: nat)
    requires n / 32 < |bits|
  {
    WordBit(bits[n / 32], Pos(n))
  }

  /** The first n bits, one boolean each. */
  function Decode(bits: seq<bv32>, n: nat): (r: seq<bool>)
    requires n <= 32 * |bits|
    ensures |r| == n
  {
    seq(n, i requires 0 <= i < n => BitAt(bits, i))
  }

  lemma PosDiffers(n: nat, m: nat)
    requires n % 32 != m % 32
    ensures Pos(n) != Pos(m)
  {
    assert Pos(n) as nat == n % 32 && Pos(m) as nat == m % 32;
  }

  lemma SetWord(x: bv32, k: bv5, j: bv5)
    ensures WordBit(x | (1 << k), j) <==> j == k || WordBit(x, j)
  {
  }

  lemma ClearWord(x: bv32, k: bv5, j: bv5)
    ensures WordBit(x & !(1 << k), j) <==> j != k && WordBit(x, j)
  {
  }

  method SetInWord(x: bv32, k: bv5) returns (y: bv32)
    ensures forall j: bv5 :: WordBit(y, j) <==> j == k || WordBit(x, j)
  {
    y := x | (1 << k);
    forall j: bv5 ensures WordBit(y, j) <==> j == k || WordBit(x, j) { SetWord(x, k, j); }
  }

  method ClearInWord(x: bv32, k: bv5) returns (y: bv32)
    ensures forall j: bv5 :: WordBit(y, j) <==> j != k && WordBit(x, j)
  {
    y := x & !(1 << k);
    forall j: bv5 ensures WordBit(y, j) <==> j != k && WordBit(x, j) { ClearWord(x, k, j); }
  }

  /** Changing word n / 32 so that bit n becomes v changes the decoded bits at n alone. */
  lemma DecodeUpdate(bits: seq<bv32>, n: nat, y: bv32, v: bool, len: nat)
    requires n < len <= 32 * |bits|
    requires forall j: bv5 :: WordBit(y, j) == if j == Pos(n) then v else WordBit(bits[n / 32], j)
    ensures Decode(bits[n / 32 := y], len) == Decode(bits, len)[n := v]
  {
    hide WordBit, Pos;
    forall i: nat | i < len
      ensures BitAt(bits[n / 32 := y], i) == if i == n then v else BitAt(bits, i)
    {
      if i % 32 != n % 32 { PosDiffers(i, n); }
    }
  }

  lemma OnesWord(k: bv5)
    ensures WordBit(0xFFFF_FFFF, k)
  {
  }

  lemma DecodeOnes(bits: seq<bv32>, len: nat)
    requires len <= 32 * |bits| && forall i | 0 <= i < |bits| :: bits[i] == 0xFFFF_FFFF
    ensures Decode(bits, len) == seq(len, _ => true)
  {
    hide WordBit, Pos;
    forall i: nat | i < len
      ensures BitAt(bits, i)
    {
      OnesWord(Pos(i));
    }
  }

  method BitTest(bits: array<bv32>, n: nat) returns (r: bool)
    requires n / 32 < bits.Length
    ensures r == BitAt(bits[..], n)
  {
    r := (bits[n / 32] >> Pos(n)) & 1 == 1;
  }

  method BitSet(bits: array<bv32>, n: nat)
    requires n / 32 < bits.Length
    modifies bits
    ensures forall len | n < len <= 32 * bits.Length :: Decode(bits[..], len) == old(Decode(bits[..], len))[n := true]
  {
    hide WordBit, Pos, Decode;
    ghost var was := bits[..];
    var y := SetInWord(bits[n / 32], Pos(n));
    bits[n / 32] := y;
    assert bits[..] == was[n / 32 := y];
    forall len | n < len <= 32 * bits.Length
      ensures Decode(bits[..], len) == Decode(was, len)[n := true]
    {
      DecodeUpdate(was, n, y, true, len);
    }
  }

  method BitClear(bits: array<bv32>, n: nat)
    requires n / 32 < bits.Length
    modifies bits
    ensures forall len | n < len <= 32 * bits.Length :: Decode(bits[..], len) == old(Decode(bits[..], len))[n := false]
  {
    hide WordBit, Pos, Decode;
    ghost var was := bits[..];
    var y := ClearInWord(bits[n / 32], Pos(n));
    bits[n / 32] := y;
    assert bits[..] == was[n / 32 := y];
    forall len | n < len <= 32 * bits.Length
      ensures Decode(bits[..], len) == Decode(was, len)[n := false]
    {
      DecodeUpdate(was, n, y, false, len);
    }
  }
}
