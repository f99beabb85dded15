/** The kernel's own block copies. */
module MemOps {
  const LITTLE: nat := 4
  const BIG: nat := 16

  /** `k` bytes have been copied, and nothing else has changed. */
  ghost predicate Copied(m0: seq<int>, m: seq<int>, dst: nat, src: nat, k: nat)
    requires dst + k <= |m0| && src + k <= |m0|
  {
    && |m| == |m0|
    && (forall x :: 0 <= x < |m| && !(dst <= x < dst + k) ==> m[x] == m0[x])
    && (forall x :: dst <= x < dst + k ==> m[x] == m0[src + (x - dst)])
  }

  /** `*d++ = *s++` on long words, after `k` bytes. */
  method CopyWord(mem: array<int>, dst: nat, src: nat, k: nat, ghost m0: seq<int>)
    requires dst + k + LITTLE <= mem.Length == |m0| && src + k + LITTLE <= mem.Length
        && (dst <= src || src + k + LITTLE <= dst)
    requires Copied(m0, mem[..], dst, src, k)
    modifies mem
    ensures Copied(m0, mem[..], dst, src, k + LITTLE)
  {
    var d, s := dst + k, src + k;
    ghost var m := mem[..];
    assert m[s] == m0[s] && m[s + 1] == m0[s + 1] && m[s + 2] == m0[s + 2] && m[s + 3] == m0[s + 3];
    mem[d], mem[d + 1], mem[d + 2], mem[d + 3] := mem[s], mem[s + 1], mem[s + 2], mem[s + 3];
    assert mem[..] == m[d := m[s]][d + 1 := m[s + 1]][d + 2 := m[s + 2]][d + 3 := m[s + 3]];
  }

  /** `rt_memcpy`: four words at a time, then words, then bytes; upwards, so that the areas may
      overlap only if the destination is the lower one. */
  method MemCpy(mem: array<int>, dst: nat, src: nat, count: nat)
    requires dst + count <= mem.Length && src + count <= mem.Length
    requires dst <= src || src + count <= dst
    modifies mem
    ensures Copied(old(mem[..]), mem[..], dst, src, count)
  {
    hide Copied, Unaligned;
    ghost var m0 := mem[..];
    var done := CopyWords(mem, dst, src, count);
    CopyBytes(mem, dst, src, count, done, m0);
  }

  predicate Unaligned(dst: nat, src: nat) {
    dst % LITTLE != 0 || src % LITTLE != 0
  }

  lemma NothingDone(m0: seq<int>, dst: nat, src: nat)
    requires dst <= |m0| && src <= |m0|
    ensures Copied(m0, m0, dst, src, 0)
  {
  }

  /** The byte loop, from byte `k` on. */
  method CopyBytes(mem: array<int>, dst: nat, src: nat, count: nat, k: nat, ghost m0: seq<int>)
    requires k <= count && dst + count <= mem.Length == |m0| && src + count <= mem.Length
    requires (dst <= src || src + count <= dst) && Copied(m0, mem[..], dst, src, k)
    modifies mem
    ensures Copied(m0, mem[..], dst, src, count)
  {
    var done := k;
    while done < count
      invariant done <= count && Copied(m0, mem[..], dst, src, done)
    {
      ghost var m := mem[..];
      assert m[src + done] == m0[src + done];
      mem[dst + done] := mem[src + done];
      assert mem[..] == m[dst + done := m[src + done]];
      done := done + 1;
    }
  }

  /** A copied area reads as the other one did. */
  lemma Arrived(m0: seq<int>, m: seq<int>, dst: nat, src: nat, k: nat)
    requires dst + k <= |m0| && src + k <= |m0| && Copied(m0, m, dst, src, k)
    ensures m[dst..dst + k] == m0[src..src + k]
    ensures m[..dst] == m0[..dst] && m[dst + k..] == m0[dst + k..]
  {
  }

  lemma Elsewhere(m0: seq<int>, m: seq<int>, dst: nat, src: nat, k: nat, lo: nat, hi: nat)
    requires dst + k <= |m0| && src + k <= |m0| && Copied(m0, m, dst, src, k) && lo <= dst && dst + k <= hi
    ensures |m| == |m0| && forall x :: 0 <= x < |m0| && !(lo <= x < hi) ==> m[x] == m0[x]
  {
  }

  /** The word loops, for areas that are aligned and not too small. */
  method CopyWords(mem: array<int>, dst: nat, src: nat, count: nat) returns (done: nat)
    requires dst + count <= mem.Length && src + count <= mem.Length
    requires dst <= src || src + count <= dst
    modifies mem
    ensures done <= count && (count >= BIG && !Unaligned(dst, src) ==> count < done + LITTLE)
    ensures Copied(old(mem[..]), mem[..], dst, src, done)
  {
    hide Copied;
    ghost var m0 := mem[..];
    done := 0;
    NothingDone(m0, dst, src);
    if count < BIG || Unaligned(dst, src) {
      return;
    }
    while count - done >= BIG
      invariant done <= count && Copied(m0, mem[..], dst, src, done)
    {
      CopyWord(mem, dst, src, done, m0);
      CopyWord(mem, dst, src, done + LITTLE, m0);
      CopyWord(mem, dst, src, done + 2 * LITTLE, m0);
      CopyWord(mem, dst, src, done + 3 * LITTLE, m0);
      done := done + BIG;
    }
    while count - done >= LITTLE
      invariant done <= count && Copied(m0, mem[..], dst, src, done)
    {
      CopyWord(mem, dst, src, done, m0);
      done := done + LITTLE;
    }
  }

  /** `rt_memmove`: the areas may overlap either way. */
  method MemMove(mem: array<int>, dst: nat, src: nat, n: nat)
    requires dst + n <= mem.Length && src + n <= mem.Length
    modifies mem
    ensures Copied(old(mem[..]), mem[..], dst, src, n)
  {
    ghost var m0 := mem[..];
    if src < dst < src + n {
      var left := n;
      while left > 0
        invariant 0 <= left <= n
        invariant forall x :: 0 <= x < mem.Length && !(dst + left <= x < dst + n) ==> mem[x] == m0[x]
        invariant forall x :: dst + left <= x < dst + n ==> mem[x] == m0[src + (x - dst)]
      {
        left := left - 1;
        mem[dst + left] := mem[src + left];
      }
    } else {
      var done := 0;
      while done < n
        invariant done <= n
        invariant forall x :: 0 <= x < mem.Length && !(dst <= x < dst + done) ==> mem[x] == m0[x]
        invariant forall x :: dst <= x < dst + done ==> mem[x] == m0[src + (x - dst)]
      {
        mem[dst + done] := mem[src + done];
        done := done + 1;
      }
    }
  }
}
