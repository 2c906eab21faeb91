/** Counting the clear bits of a bitmap, shared by the block bitmap and the frame bitmap. */
module BitCounts {
  /** Clear bits from b on. */
  function CountClear(used: seq<bool>, b: nat): nat
    requires b <= |used|
    decreases |used| - b
  {
    if b == |used| then 0 else (if used[b] then 0 else 1) + CountClear(used, b + 1)
  }

  lemma {:induction false} CountSet(used: seq<bool>, from: nat, b: nat, v: bool)
    requires from <= b < |used| && used[b] != v
    ensures CountClear(used[b := v], from) == CountClear(used, from) + (if v then -1 else 1)
    decreases |used| - from
  {
    if from == b {
      CountSame(used, used[b := v], b + 1);
    } else {
      CountSet(used, from + 1, b, v);
    }
  }

  lemma {:induction false} CountSame(a: seq<bool>, b: seq<bool>, from: nat)
    requires |a| == |b| && from <= |a| && a[from..] == b[from..]
    ensures CountClear(a, from) == CountClear(b, from)
    decreases |a| - from
  {
    if from < |a| {
      assert a[from] == a[from..][0] == b[from..][0] == b[from];
      assert a[from + 1..] == a[from..][1..] == b[from..][1..] == b[from + 1..];
      CountSame(a, b, from + 1);
    }
  }

  lemma {:induction false} CountZero(used: seq<bool>, from: nat)
    requires from <= |used|
    ensures CountClear(used, from) == 0 <==> forall b | from <= b < |used| :: used[b]
    decreases |used| - from
  {
    if from < |used| {
      CountZero(used, from + 1);
    }
  }

  lemma {:induction false} CountAllClear(used: seq<bool>, from: nat)
    requires from <= |used| && forall b | from <= b < |used| :: !used[b]
    ensures CountClear(used, from) == |used| - from
    decreases |used| - from
  {
    if from < |used| { CountAllClear(used, from + 1); }
  }
}
