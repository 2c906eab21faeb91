/** Bitmaps packed eight bits to a byte, as in kernel/fs.c. */
module ByteBitmaps {
  /** The position of bit n within its byte. */
  function Pos(n: nat): bv3 { (n % 8) as bv3 }

  predicate ByteBit(x: bv8, k: bv3) { (x >> k) & 1 == 1 }

  predicate BitAt(bits: seq<bv8>, n: nat)
    requires n / 8 < |bits|
  {
    ByteBit(bits[n / 8], Pos(n))
  }

  /** The first n bits, one boolean each. */
  function Decode(bits: seq<bv8>, n: nat): (r: seq<bool>)
    requires n <= 8 * |bits|
    ensures |r| == n
  {
    seq(n, i requires 0 <= i < n => BitAt(bits, i))
  }

  lemma PosDiffers(n: nat, m: nat)
    requires n % 8 != m % 8
    ensures Pos(n) != Pos(m)
  {
    assert Pos(n) as nat == n % 8 && Pos(m) as nat == m % 8;
  }

  lemma SetByte(x: bv8, k: bv3, j: bv3)
    ensures ByteBit(x | (1 << k), j) <==> j == k || ByteBit(x, j)
  {
  }

  lemma ClearByte(x: bv8, k: bv3, j: bv3)
    ensures ByteBit(x & !(1 << k), j) <==> j != k && ByteBit(x, j)
  {
  }

  method SetInByte(x: bv8, k: bv3) returns (y: bv8)
    ensures forall j: bv3 :: ByteBit(y, j) <==> j == k || ByteBit(x, j)
  {
    y := x | (1 << k);
    forall j: bv3 ensures ByteBit(y, j) <==> j == k || ByteBit(x, j) { SetByte(x, k, j); }
  }

  method ClearInByte(x: bv8, k: bv3) returns (y: bv8)
    ensures forall j: bv3 :: ByteBit(y, j) <==> j != k && ByteBit(x, j)
  {
    y := x & !(1 << k);
    forall j: bv3 ensures ByteBit(y, j) <==> j != k && ByteBit(x, j) { ClearByte(x, k, j); }
  }

  /** Changing byte n / 8 so that bit n becomes v changes the decoded bits at n alone. */
  lemma DecodeUpdate(bits: seq<bv8>, n: nat, y: bv8, v: bool, len: nat)
    requires n < len <= 8 * |bits|
    requires forall j: bv3 :: ByteBit(y, j) == if j == Pos(n) then v else ByteBit(bits[n / 8], j)
    ensures Decode(bits[n / 8 := y], len) == Decode(bits, len)[n := v]
  {
    hide ByteBit, Pos;
    forall i: nat | i < len
      ensures BitAt(bits[n / 8 := y], i) == if i == n then v else BitAt(bits, i)
    {
      if i % 8 != n % 8 { PosDiffers(i, n); }
    }
  }

  lemma ZeroByte(k: bv3)
    ensures !ByteBit(0, k)
  {
  }

  lemma DecodeZeros(bits: seq<bv8>, len: nat)
    requires len <= 8 * |bits| && forall i | 0 <= i < |bits| :: bits[i] == 0
    ensures Decode(bits, len) == seq(len, _ => false)
  {
    hide ByteBit, Pos;
    forall i: nat | i < len
      ensures !BitAt(bits, i)
    {
      ZeroByte(Pos(i));
    }
  }

  method BitTest(bits: array<bv8>, n: nat) returns (r: bool)
    requires n / 8 < bits.Length
    ensures r == BitAt(bits[..], n)
  {
    r := (bits[n / 8] >> Pos(n)) & 1 == 1;
  }

  method BitSet(bits: array<bv8>, n: nat)
    requires n / 8 < bits.Length
    modifies bits
    ensures forall len | n < len <= 8 * bits.Length :: Decode(bits[..], len) == old(Decode(bits[..], len))[n := true]
  {
    hide ByteBit, Pos, Decode;
    ghost var was := bits[..];
    var y := SetInByte(bits[n / 8], Pos(n));
    bits[n / 8] := y;
    assert bits[..] == was[n / 8 := y];
    forall len | n < len <= 8 * bits.Length
      ensures Decode(bits[..], len) == Decode(was, len)[n := true]
    {
      DecodeUpdate(was, n, y, true, len);
    }
  }

  method BitClear(bits: array<bv8>, n: nat)
    requires n / 8 < bits.Length
    modifies bits
    ensures forall len | n < len <= 8 * bits.Length :: Decode(bits[..], len) == old(Decode(bits[..], len))[n := false]
  {
    hide ByteBit, Pos, Decode;
    ghost var was := bits[..];
    var y := ClearInByte(bits[n / 8], Pos(n));
    bits[n / 8] := y;
    assert bits[..] == was[n / 8 := y];
    forall len | n < len <= 8 * bits.Length
      ensures Decode(bits[..], len) == Decode(was, len)[n := false]
    {
      DecodeUpdate(was, n, y, false, len);
    }
  }
}
