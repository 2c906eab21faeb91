/** NUL-terminated strings, and the string helpers of kernel/fs.c. */
module CStrings {
  type byte = bv8

  /** Index of the first NUL at or after position i, or the length when there is none. */
  function StrLenFrom(s: seq<byte>, i: nat): (n: nat)
    requires i <= |s|
    ensures i <= n <= |s|
    ensures n < |s| ==> s[n] == 0
    ensures forall k | i <= k < n :: s[k] != 0
    decreases |s| - i
  {
    if i == |s| || s[i] == 0 then i else StrLenFrom(s, i + 1)
  }

  /** The string held by a buffer: the bytes before its first NUL. */
  function CStr(s: seq<byte>): (r: seq<byte>)
    ensures 0 !in r
    ensures |r| <= |s| && r == s[..|r|]
    ensures |r| < |s| ==> s[|r|] == 0
    ensures forall k | 0 <= k < |r| :: s[k] != 0
    ensures 0 in s ==> |r| < |s|
  {
    s[..StrLenFrom(s, 0)]
  }

  function Zeros(n: nat): (r: seq<byte>)
    ensures |r| == n && forall k | 0 <= k < n :: r[k] == 0
  {
    seq(n, _ => 0)
  }

  /** A string followed by one NUL at least, filling a field of n bytes. */
  function Pad(s: seq<byte>, n: nat): (r: seq<byte>)
    requires |s| < n
    ensures |r| == n
  {
    s + Zeros(n - |s|)
  }

  /** The string of a buffer is determined by where its first NUL is. */
  lemma CStrAt(s: seq<byte>, n: nat)
    requires n < |s| && s[n] == 0
    requires forall k | 0 <= k < n :: s[k] != 0
    ensures CStr(s) == s[..n]
  {
  }

  lemma CStrPad(s: seq<byte>, n: nat)
    requires |s| < n && 0 !in s
    ensures CStr(Pad(s, n)) == s
  {
    var p := Pad(s, n);
    assert p[..|s|] == s;
    assert forall k | 0 <= k < |s| :: p[k] == s[k] && s[k] in s;
    CStrAt(p, |s|);
  }

  method StrLen(s: seq<byte>) returns (n: nat)
    requires 0 in s
    ensures n == |CStr(s)|
  {
    n := 0;
    while s[n] != 0
      invariant n <= |CStr(s)|
      decreases |s| - n
    {
      n := n + 1;
    }
  }

  /** Zero means equal strings; otherwise the difference of the first bytes that differ. */
  method StrCmp(a: seq<byte>, b: seq<byte>) returns (r: int)
    requires 0 in a && 0 in b
    ensures r == 0 <==> CStr(a) == CStr(b)
    ensures r != 0 ==> exists k :: 0 <= k < |a| && k < |b| && a[..k] == b[..k] && r == a[k] as int - b[k] as int
  {
    var i := 0;
    while a[i] != 0 && a[i] == b[i]
      invariant i <= |CStr(a)| && i <= |CStr(b)|
      invariant a[..i] == b[..i]
      decreases |a| - i
    {
      i := i + 1;
    }
    r := a[i] as int - b[i] as int;
    if i < |CStr(a)| && i < |CStr(b)| {
      assert CStr(a)[i] != CStr(b)[i];
    }
  }

  /** Copies at most max - 1 bytes and always terminates the destination. */
  method StrNCpy(dst: seq<byte>, src: seq<byte>, max: nat) returns (r: seq<byte>)
    requires 0 in src && max <= |dst|
    ensures max == 0 ==> r == dst
    ensures max > 0 ==>
              var n := if |CStr(src)| < max then |CStr(src)| else max - 1;
              r == CStr(src)[..n] + [0] + dst[n + 1..]
  {
    r := dst;
    var i := 0;
    if max == 0 {
      return;
    }
    while i + 1 < max && src[i] != 0
      invariant i <= |CStr(src)| && i < max
      invariant |r| == |dst| && r[..i] == src[..i] && r[i..] == dst[i..]
      decreases max - i
    {
      r := r[i := src[i]];
      i := i + 1;
    }
    r := r[i := 0];
    assert CStr(src)[..i] == src[..i];
  }
}
