/** The byte routines of stdlib/memory.c, on one byte array that stands for the address space they
    work in, so that source and destination may overlap. */
module Memory {
  import opened Arithmetic

  type byte = x: int | 0 <= x < 256

  /** `s` with the `len` bytes from `at` on set to `b`. */
  function Fill(s: seq<byte>, at: nat, b: byte, len: nat): (r: seq<byte>)
    requires at + len <= |s|
    ensures |r| == |s|
  {
    s[..at] + seq(len, _ => b) + s[at + len..]
  }

  /** `s` with the `n` bytes at `dst` replaced by the `n` bytes that were at `src`. */
  function Moved(s: seq<byte>, dst: nat, src: nat, n: nat): (r: seq<byte>)
    requires dst + n <= |s| && src + n <= |s|
    ensures |r| == |s|
  {
    s[..dst] + s[src..src + n] + s[dst + n..]
  }

  /** What a copy that goes upwards one byte at a time leaves behind. */
  function CopiedUpwards(s: seq<byte>, dst: nat, src: nat, n: nat): (r: seq<byte>)
    requires dst + n <= |s| && src + n <= |s|
    ensures |r| == |s|
  {
    if n == 0 then s
    else
      var t := CopiedUpwards(s, dst, src, n - 1);
      t[dst + n - 1 := t[src + n - 1]]
  }

  method MemSet(a: array<byte>, at: nat, c: nat, len: nat)
    requires at + len <= a.Length
    modifies a
    ensures a[..] == Fill(old(a[..]), at, c % 256, len)
  {
    for i := 0 to len
      invariant a[..] == Fill(old(a[..]), at, c % 256, i)
    {
      a[at + i] := c % 256;
    }
  }

  method MemCpy(a: array<byte>, dst: nat, src: nat, size: nat)
    requires dst + size <= a.Length && src + size <= a.Length
    modifies a
    ensures a[..] == CopiedUpwards(old(a[..]), dst, src, size)
  {
    var csrc, cdest := src, dst;
    for i := 0 to size
      invariant csrc == src + i && cdest == dst + i
      invariant a[..] == CopiedUpwards(old(a[..]), dst, src, i)
    {
      a[cdest] := a[csrc];
      cdest, csrc := cdest + 1, csrc + 1;
    }
  }

  /** Which original byte the copied byte number `k` is: overlapping upwards repeats the first
      `dst - src` bytes over and over. */
  function Origin(dst: nat, src: nat, n: nat, k: nat): (o: nat)
    requires k < n
    ensures src <= o < src + n
  {
    if src < dst < src + n then src + k % (dst - src) else src + k
  }

  lemma RemainderBack(k: nat, d: nat)
    requires 0 < d <= k
    ensures (k - d) % d == k % d
  {
    assert k - d == (k / d - 1) * d + k % d;
    QuotientUnique(k - d, d, k / d - 1, k % d);
  }

  /** Every byte of the upward copy, in terms of the memory before it. */
  lemma {:induction false} CopiedUpwardsAt(s: seq<byte>, dst: nat, src: nat, n: nat, x: nat)
    requires dst + n <= |s| && src + n <= |s| && x < |s|
    ensures CopiedUpwards(s, dst, src, n)[x]
         == if dst <= x < dst + n then s[Origin(dst, src, n, x - dst)] else s[x]
  {
    if n > 0 {
      CopiedUpwardsAt(s, dst, src, n - 1, x);
      if x == dst + n - 1 {
        CopiedUpwardsAt(s, dst, src, n - 1, src + n - 1);
        if src < dst < src + n && dst <= src + n - 1 {
          var d := dst - src;
          RemainderBack(n - 1, d);
          if dst == src + n - 1 {
            QuotientUnique(n - 1, d, 1, 0);
          }
        } else if src < dst {
          assert !(src < dst < src + n);
        }
      } else if dst <= x < dst + n && src < dst < src + n {
        if dst == src + n - 1 {
          QuotientUnique(x - dst, dst - src, 0, x - dst);
        }
      }
    }
  }

  /** The region from `from` of length `n` repeats with period `p`. */
  predicate Repeats(s: seq<byte>, from: nat, n: nat, p: nat)
    requires from + n <= |s| && p > 0
  {
    forall x :: from <= x < from + n ==> s[x] == s[from + (x - from) % p]
  }

  /** memcpy copies the source region exactly when it does not run upwards into itself, or when
      the source repeats with the period of the overlap. */
  lemma CopyIsMoveIff(s: seq<byte>, dst: nat, src: nat, n: nat)
    requires dst + n <= |s| && src + n <= |s|
    ensures CopiedUpwards(s, dst, src, n) == Moved(s, dst, src, n)
       <==> (dst <= src || src + n <= dst || Repeats(s, src, n, dst - src))
  {
    var c, m := CopiedUpwards(s, dst, src, n), Moved(s, dst, src, n);
    if c == m {
      if src < dst < src + n {
        forall y | src <= y < src + n ensures s[y] == s[src + (y - src) % (dst - src)] {
          CopyAgreesAt(s, dst, src, n, dst + (y - src));
        }
      }
    } else {
      var x :| 0 <= x < |s| && c[x] != m[x];
      CopyAgreesAt(s, dst, src, n, x);
    }
  }

  lemma CopyAgreesAt(s: seq<byte>, dst: nat, src: nat, n: nat, x: nat)
    requires dst + n <= |s| && src + n <= |s| && x < |s|
    ensures CopiedUpwards(s, dst, src, n)[x] == Moved(s, dst, src, n)[x]
       <==> (dst <= x < dst + n ==> s[Origin(dst, src, n, x - dst)] == s[src + (x - dst)])
  {
    CopiedUpwardsAt(s, dst, src, n, x);
  }
}
