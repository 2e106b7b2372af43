/** memcmp, memcpy and memmove of common/stdlib/mem.c over a flat byte memory. */
module Mem {
  import opened MachineWords

  /** memcmp: 0 when the first len bytes agree, otherwise one more than the index of the first
      difference. */
  method MemCmp(s: seq<Byte>, d: seq<Byte>, len: nat) returns (r: nat)
    requires len <= |s| && len <= |d|
    ensures r <= len
    ensures r == 0 <==> s[..len] == d[..len]
    ensures r > 0 ==> s[r - 1] != d[r - 1] && s[..r - 1] == d[..r - 1]
  {
    var count := 0;
    var left := len;
    while left > 0
      invariant left + count == len && s[..count] == d[..count]
    {
      left := left - 1;
      var sc, dc := s[count], d[count];
      count := count + 1;
      if sc != dc {
        return count;
      }
    }
    r := 0;
  }

  type Memory = seq<Byte>

  predicate InSpace(m: Memory, dst: nat, src: nat, len: nat) {
    |m| <= TWO64 && src + len <= |m| && dst + len <= |m|
  }

  /** What a copy should do: the bytes the source held, at the destination; nothing else changes. */
  function Moved(m: Memory, dst: nat, src: nat, len: nat): (r: Memory)
    requires InSpace(m, dst, src, len)
    ensures |r| == |m|
  {
    m[..dst] + m[src..src + len] + m[dst + len..]
  }

  /** The byte an ascending copy leaves at dst + i: when the destination starts inside the source,
      the bytes before it repeat. */
  function Repeated(m: Memory, dst: nat, src: nat, len: nat, i: nat): Byte
    requires InSpace(m, dst, src, len) && i < len
  {
    if src < dst then m[src + i % (dst - src)] else m[src + i]
  }

  function AscendingByte(m: Memory, dst: nat, src: nat, len: nat, a: nat): Byte
    requires InSpace(m, dst, src, len) && a < |m|
  {
    if dst <= a < dst + len then Repeated(m, dst, src, len, a - dst) else m[a]
  }

  function Ascending(m: Memory, dst: nat, src: nat, len: nat): (r: Memory)
    requires InSpace(m, dst, src, len)
    ensures |r| == |m| && forall a :: 0 <= a < |m| ==> r[a] == AscendingByte(m, dst, src, len, a)
  {
    seq(|m|, a requires 0 <= a < |m| => AscendingByte(m, dst, src, len, a))
  }

  /** One step of the ascending copy reads the byte the repetition prescribes. */
  lemma AscendingReads(m: Memory, dst: nat, src: nat, k: nat, len: nat)
    requires InSpace(m, dst, src, len) && k < len
    ensures Ascending(m, dst, src, k)[src + k] == Repeated(m, dst, src, len, k)
  {
    hide Ascending;
    if src < dst {
      var p := dst - src;
      if src + k < dst {
        DivModUnique(k, p, 0, k);
      } else {
        var i := k - p;
        DivModUnique(k, p, i / p + 1, i % p);
      }
    }
  }

  lemma AscendingStep(m: Memory, dst: nat, src: nat, k: nat, len: nat)
    requires InSpace(m, dst, src, len) && k < len
    ensures var c := Ascending(m, dst, src, k);
            c[dst + k := c[src + k]] == Ascending(m, dst, src, k + 1)
  {
    hide Ascending, Repeated;
    AscendingReads(m, dst, src, k, len);
    var c, e := Ascending(m, dst, src, k), Ascending(m, dst, src, k + 1);
    forall a | dst <= a <= dst + k
      ensures c[dst + k := c[src + k]][a] == e[a]
    {
      SameRepeated(m, dst, src, k, len, a);
    }
  }

  lemma SameRepeated(m: Memory, dst: nat, src: nat, k: nat, len: nat, a: nat)
    requires InSpace(m, dst, src, len) && k < len && dst <= a <= dst + k
    ensures Repeated(m, dst, src, len, a - dst) == Repeated(m, dst, src, k + 1, a - dst)
    ensures a < dst + k ==> Repeated(m, dst, src, k, a - dst) == Repeated(m, dst, src, k + 1, a - dst)
  {
  }

  /** memcpy: ascending, byte by byte, whatever the overlap. */
  method MemCpy(memory: array<Byte>, dst: nat, src: nat, len: nat) returns (r: nat)
    requires InSpace(memory[..], dst, src, len)
    modifies memory
    ensures r == dst
    ensures memory[..] == Ascending(old(memory[..]), dst, src, len)
  {
    hide Ascending;
    ghost var was := memory[..];
    var s, d, left := src, dst, len;
    while left > 0
      invariant 0 <= left <= len && d == dst + (len - left) && s == src + (len - left)
      invariant InSpace(was, dst, src, len - left) && memory[..] == Ascending(was, dst, src, len - left)
    {
      AscendingStep(was, dst, src, len - left, len);
      left := left - 1;
      assert memory[s] == memory[..][s];
      memory[d] := memory[s];
      d, s := d + 1, s + 1;
    }
    r := dst;
  }

  /** An ascending copy is a move for every contents exactly when the destination does not start
      behind the first byte of the source and before its end. */
  lemma AscendingSafe(size: nat, dst: nat, src: nat, len: nat)
    requires size <= TWO64 && src + len <= size && dst + len <= size
    ensures !(src < dst < src + len) <==>
            forall m: Memory :: |m| == size ==> Ascending(m, dst, src, len) == Moved(m, dst, src, len)
  {
    if src < dst < src + len {
      var m: Memory := Marked(size, dst);
      var p := dst - src;
      assert Moved(m, dst, src, len)[dst + p] == m[src..src + len][p] == m[dst] == 1;
      assert Ascending(m, dst, src, len)[dst + p] == m[src + p % p] == m[src] == 0;
    } else {
      forall m: Memory | |m| == size
        ensures Ascending(m, dst, src, len) == Moved(m, dst, src, len)
      {
        AscendingIsMove(m, dst, src, len);
      }
    }
  }

  lemma AscendingIsMove(m: Memory, dst: nat, src: nat, len: nat)
    requires InSpace(m, dst, src, len) && !(src < dst < src + len)
    ensures Ascending(m, dst, src, len) == Moved(m, dst, src, len)
  {
    var r, e := Ascending(m, dst, src, len), Moved(m, dst, src, len);
    forall a | 0 <= a < |m|
      ensures r[a] == e[a]
    {
      if src < dst <= a < dst + len {
        DivModUnique(a - dst, dst - src, 0, a - dst);
      }
    }
  }

  function Marked(size: nat, at: nat): (r: Memory)
    ensures |r| == size && forall a :: 0 <= a < size ==> r[a] == if a == at then 1 else 0
  {
    seq(size, a => if a == at then 1 else 0)
  }

  /** The one unsigned comparison of memmove tells whether the destination starts in the source. */
  lemma WrappingTest(dst: nat, src: nat, len: nat)
    requires src + len <= TWO64 && dst + len <= TWO64
    ensures (dst - src) % TWO64 >= len <==> !(src <= dst < src + len)
  {
    if dst < src {
      DivModUnique(dst - src, TWO64, -1, dst - src + TWO64);
    }
  }

  lemma MovedNone(m: Memory, dst: nat, src: nat)
    requires InSpace(m, dst, src, 0)
    ensures Moved(m, dst, src, 0) == m
  {
  }

  /** Copying one byte more on the way down. */
  lemma DescendingStep(m: Memory, d: nat, s: nat, n: nat)
    requires InSpace(m, d, s, n) && 0 < s <= d
    ensures var c := Moved(m, d, s, n); c[d - 1 := c[s - 1]] == Moved(m, d - 1, s - 1, n + 1)
  {
    assert m[s - 1..s + n] == [m[s - 1]] + m[s..s + n];
  }

  /** memmove: for every overlap a move. */
  method MemMove(memory: array<Byte>, dst: nat, src: nat, len: nat) returns (r: nat)
    requires InSpace(memory[..], dst, src, len)
    modifies memory
    ensures r == dst
    ensures memory[..] == Moved(old(memory[..]), dst, src, len)
  {
    hide Ascending, Moved;
    ghost var was := memory[..];
    MovedNone(was, dst + len, src + len);
    WrappingTest(dst, src, len);
    if (dst - src) % TWO64 >= len {
      AscendingIsMove(was, dst, src, len);
      r := MemCpy(memory, dst, src, len);
    } else {
      var end := dst;
      var s, d := src + len, dst + len;
      while d != end
        invariant dst <= d <= dst + len && s - src == d - dst
        invariant memory[..] == Moved(was, d, s, src + len - s)
        decreases d - end
      {
        DescendingStep(was, d, s, src + len - s);
        d, s := d - 1, s - 1;
        assert memory[s] == memory[..][s];
        memory[d] := memory[s];
      }
      r := dst;
    }
  }
}
