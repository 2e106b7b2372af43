/** The memory-to-memory linked-list builder of drivers/sysdma/sysdma.c, over a flat byte memory,
    and the controller that walks the list it builds. */
module SysDma {
  import opened MachineWords
  import opened Options

  const LLI_BASE: nat := 0x1_0100_0000
  const LLI_SIZE: nat := 0x40
  const MAX_BLOCK_TX: nat := 16

  const OFFSET_SAR: nat := 0x00
  const OFFSET_DAR: nat := 0x08
  const OFFSET_BTS: nat := 0x10
  const OFFSET_LLP: nat := 0x18
  const OFFSET_CTL: nat := 0x20

  const LLI_LAST: nat := 0x4000_0000_0000_0000
  const LLI_VALID: nat := 0x8000_0000_0000_0000

  type Memory = seq<Byte>

  // ---------- 64-bit loads and stores ----------

  function Read64(m: Memory, a: nat): nat
    requires a + 8 <= |m|
  {
    FromLittleEndian(m[a..a + 8])
  }

  function Write64(m: Memory, a: nat, v: DoubleWord): (r: Memory)
    requires a + 8 <= |m|
    ensures |r| == |m|
  {
    m[..a] + LittleEndian(v, 8) + m[a + 8..]
  }

  lemma ReadWritten(m: Memory, a: nat, v: DoubleWord)
    requires a + 8 <= |m|
    ensures Read64(Write64(m, a, v), a) == v
  {
    hide LittleEndian, FromLittleEndian;
    assert Write64(m, a, v)[a..a + 8] == LittleEndian(v, 8);
    Pow2Widths();
    LittleEndianRoundTrip(v, 8);
  }

  lemma ReadElsewhere(m: Memory, a: nat, v: DoubleWord, b: nat)
    requires a + 8 <= |m| && b + 8 <= |m| && (b + 8 <= a || a + 8 <= b)
    ensures Read64(Write64(m, a, v), b) == Read64(m, b)
  {
    hide LittleEndian, FromLittleEndian;
    assert Write64(m, a, v)[b..b + 8] == m[b..b + 8];
  }

  // ---------- descriptors ----------

  /** A linked-list item, as far as the controller reads it. */
  datatype Lli = Lli(sar: nat, dar: nat, bts: nat, llp: nat, ctl: nat)

  function ReadLli(m: Memory, d: nat): Lli
    requires d + LLI_SIZE <= |m|
  {
    Lli(Read64(m, d), Read64(m, d + 0x08), Read64(m, d + 0x10), Read64(m, d + 0x18), Read64(m, d + 0x20))
  }

  function SetField(l: Lli, offset: nat, v: nat): Lli {
    if offset == OFFSET_SAR then l.(sar := v)
    else if offset == OFFSET_DAR then l.(dar := v)
    else if offset == OFFSET_BTS then l.(bts := v)
    else if offset == OFFSET_LLP then l.(llp := v)
    else l.(ctl := v)
  }

  predicate Field(offset: nat) {
    offset == OFFSET_SAR || offset == OFFSET_DAR || offset == OFFSET_BTS || offset == OFFSET_LLP || offset == OFFSET_CTL
  }

  lemma WriteField(m: Memory, d: nat, offset: nat, v: DoubleWord)
    requires d + LLI_SIZE <= |m| && Field(offset)
    ensures ReadLli(Write64(m, d + offset, v), d) == SetField(ReadLli(m, d), offset, v)
  {
    hide Read64, Write64;
    ReadWritten(m, d + offset, v);
    if offset != OFFSET_SAR { ReadElsewhere(m, d + offset, v, d + OFFSET_SAR); }
    if offset != OFFSET_DAR { ReadElsewhere(m, d + offset, v, d + OFFSET_DAR); }
    if offset != OFFSET_BTS { ReadElsewhere(m, d + offset, v, d + OFFSET_BTS); }
    if offset != OFFSET_LLP { ReadElsewhere(m, d + offset, v, d + OFFSET_LLP); }
    if offset != OFFSET_CTL { ReadElsewhere(m, d + offset, v, d + OFFSET_CTL); }
  }

  lemma WriteOtherItem(m: Memory, d: nat, offset: nat, v: DoubleWord, e: nat)
    requires d + LLI_SIZE <= |m| && e + LLI_SIZE <= |m| && Field(offset)
    requires d + LLI_SIZE <= e || e + LLI_SIZE <= d
    ensures ReadLli(Write64(m, d + offset, v), e) == ReadLli(m, e)
  {
    hide Read64, Write64;
    ReadElsewhere(m, d + offset, v, e + OFFSET_SAR);
    ReadElsewhere(m, d + offset, v, e + OFFSET_DAR);
    ReadElsewhere(m, d + offset, v, e + OFFSET_BTS);
    ReadElsewhere(m, d + offset, v, e + OFFSET_LLP);
    ReadElsewhere(m, d + offset, v, e + OFFSET_CTL);
  }

  // ---------- the controller ----------

  /** A plain copy of n bytes. */
  function Copy(m: Memory, src: nat, dst: nat, n: nat): (r: Memory)
    requires src + n <= |m| && dst + n <= |m|
    ensures |r| == |m|
  {
    m[..dst] + m[src..src + n] + m[dst + n..]
  }

  predicate Last(ctl: nat) { ctl / 0x4000_0000_0000_0000 % 2 == 1 }

  predicate ValidItem(ctl: nat) { ctl / 0x8000_0000_0000_0000 % 2 == 1 }

  /** The control word of an item: the width of a source and of a destination beat, as a power of two
      (bits 8 to 10 and 11 to 13), and whether the addresses stay where they are (bits 4 and 6). The
      model knows equal widths and addresses that advance. */
  predicate Advances(ctl: nat) {
    ctl / 0x10 % 2 == 0 && ctl / 0x40 % 2 == 0 && ctl / 0x100 % 8 == ctl / 0x800 % 8
  }

  /** The bytes an item moves: bts + 1 beats. */
  function ItemBytes(l: Lli): nat {
    ShiftLeft(l.bts + 1, l.ctl / 0x100 % 8)
  }

  /** The controller performs the item. */
  predicate Performable(m: Memory, l: Lli) {
    ValidItem(l.ctl) && Advances(l.ctl) && l.sar + ItemBytes(l) <= |m| && l.dar + ItemBytes(l) <= |m|
  }

  function Perform(m: Memory, l: Lli): (r: Memory)
    requires Performable(m, l)
    ensures |r| == |m|
  {
    Copy(m, l.sar, l.dar, ItemBytes(l))
  }

  /** The list walked from address a: each valid item moves its beats, the next item is found through LLP
      without its master-select bits, and the LAST item ends the walk. None: the controller stops on a
      bad item or has not finished after `steps` items. */
  function Walk(m: Memory, a: nat, steps: nat): Option<(Memory, nat)>
    decreases steps
  {
    if steps == 0 || a + LLI_SIZE > |m| then None
    else
      var l := ReadLli(m, a);
      if !Performable(m, l) then None
      else
        var m1 := Perform(m, l);
        if Last(l.ctl) then Some((m1, 1))
        else
          match Walk(m1, l.llp / LLI_SIZE * LLI_SIZE, steps - 1)
          case None => None
          case Some(r) => Some((r.0, r.1 + 1))
  }

  // ---------- what the builder must leave in memory ----------

  function ItemAddress(i: nat): nat { LLI_BASE + LLI_SIZE * i }

  function ItemCount(len: nat): nat { (len + 63) / 64 }

  /** Item i moves bytes 64 * i up to, at most, 64 * i + 64 of the transfer. */
  predicate Moves(l: Lli, i: nat, src: nat, dst: nat, len: nat) {
    && 64 * i < len
    && l.sar == src + 64 * i
    && l.dar == dst + 64 * i
    && l.bts + 1 == Min((len - 64 * i) / 4, MAX_BLOCK_TX)
  }

  /** Beats of four bytes at both ends, and addresses that advance. */
  predicate MovesWords(ctl: nat) {
    ctl / 0x10 % 2 == 0 && ctl / 0x40 % 2 == 0 && ctl / 0x100 % 8 == ctl / 0x800 % 8 == 2
  }

  predicate Linked(m: Memory, j: nat, n: nat, src: nat, dst: nat, len: nat)
    requires ItemAddress(j) + LLI_SIZE <= |m|
  {
    var l := ReadLli(m, ItemAddress(j));
    && Moves(l, j, src, dst, len)
    && MovesWords(l.ctl)
    && ValidItem(l.ctl)
    && (Last(l.ctl) <==> j == n - 1)
    && (j < n - 1 ==> l.llp == ItemAddress(j + 1))
  }

  /** Items i, i+1, ..., n-1 form a chain that ends with the LAST item. */
  ghost predicate Chained(m: Memory, i: nat, n: nat, src: nat, dst: nat, len: nat) {
    && ItemAddress(n) <= |m|
    && forall j :: i <= j < n ==> Linked(m, j, n, src, dst, len)
  }

  predicate Disjoint(a: nat, n: nat, b: nat, k: nat) { a + n <= b || b + k <= a }

  lemma CopyTwice(m: Memory, src: nat, dst: nat, a: nat, b: nat)
    requires src + a + b <= |m| && dst + a + b <= |m| && Disjoint(src, a + b, dst, a + b)
    ensures Copy(Copy(m, src, dst, a), src + a, dst + a, b) == Copy(m, src, dst, a + b)
  {
    var m1 := Copy(m, src, dst, a);
    assert m1[src + a..src + a + b] == m[src + a..src + a + b];
    assert m1[dst + a + b..] == m[dst + a + b..];
    assert m1[..dst + a] == m[..dst] + m[src..src + a];
  }

  lemma CopyKeepsItem(m: Memory, src: nat, dst: nat, n: nat, d: nat)
    requires src + n <= |m| && dst + n <= |m| && d + LLI_SIZE <= |m| && Disjoint(dst, n, d, LLI_SIZE)
    ensures ReadLli(Copy(m, src, dst, n), d) == ReadLli(m, d)
  {
    var m1 := Copy(m, src, dst, n);
    hide FromLittleEndian;
    assert m1[d + OFFSET_SAR..d + OFFSET_SAR + 8] == m[d + OFFSET_SAR..d + OFFSET_SAR + 8];
    assert m1[d + OFFSET_DAR..d + OFFSET_DAR + 8] == m[d + OFFSET_DAR..d + OFFSET_DAR + 8];
    assert m1[d + OFFSET_BTS..d + OFFSET_BTS + 8] == m[d + OFFSET_BTS..d + OFFSET_BTS + 8];
    assert m1[d + OFFSET_LLP..d + OFFSET_LLP + 8] == m[d + OFFSET_LLP..d + OFFSET_LLP + 8];
    assert m1[d + OFFSET_CTL..d + OFFSET_CTL + 8] == m[d + OFFSET_CTL..d + OFFSET_CTL + 8];
  }

  lemma CopyKeepsChain(m: Memory, i: nat, n: nat, src: nat, dst: nat, len: nat, from: nat, to: nat, k: nat)
    requires n == ItemCount(len) && Chained(m, i, n, src, dst, len)
    requires from + k <= |m| && to + k <= |m| && Disjoint(to, k, LLI_BASE, LLI_SIZE * n)
    ensures Chained(Copy(m, from, to, k), i, n, src, dst, len)
  {
    hide ReadLli, Copy, ItemBytes, Advances, MovesWords;
    var m1 := Copy(m, from, to, k);
    forall j | i <= j < n
      ensures Linked(m1, j, n, src, dst, len)
    {
      assert Linked(m, j, n, src, dst, len);
      CopyKeepsItem(m, from, to, k, ItemAddress(j));
    }
  }

  lemma WordBytes(l: Lli)
    requires MovesWords(l.ctl)
    ensures ItemBytes(l) == 4 * (l.bts + 1) && Advances(l.ctl)
  {
    assert ShiftLeft(l.bts + 1, 2) == 2 * ShiftLeft(l.bts + 1, 1) == 4 * ShiftLeft(l.bts + 1, 0);
  }

  /** Walking a chain copies what is left of the transfer and visits each item once. */
  lemma {:induction false} WalkChain(m: Memory, i: nat, n: nat, src: nat, dst: nat, len: nat, steps: nat)
    requires i < n == ItemCount(len) && len % 4 == 0
    requires Chained(m, i, n, src, dst, len)
    requires src + len <= |m| && dst + len <= |m|
    requires Disjoint(src, len, dst, len) && Disjoint(dst, len, LLI_BASE, LLI_SIZE * n)
    ensures Walk(m, ItemAddress(i), steps) ==
            if steps < n - i then None
            else Some((Copy(m, src + 64 * i, dst + 64 * i, len - 64 * i), n - i))
    decreases steps
  {
    hide ReadLli, Copy, ItemBytes, Advances, MovesWords;
    if steps == 0 {
      return;
    }
    assert Linked(m, i, n, src, dst, len);
    var l := ReadLli(m, ItemAddress(i));
    var k := 4 * (l.bts + 1);
    WordBytes(l);
    if i == n - 1 {
      assert k == len - 64 * i;
    } else {
      assert Linked(m, i + 1, n, src, dst, len);
      assert k == 64;
      var m1 := Copy(m, l.sar, l.dar, k);
      CopyKeepsChain(m, i + 1, n, src, dst, len, l.sar, l.dar, k);
      WalkChain(m1, i + 1, n, src, dst, len, steps - 1);
      CopyTwice(m, src + 64 * i, dst + 64 * i, 64, len - 64 * (i + 1));
      assert l.llp / LLI_SIZE * LLI_SIZE == ItemAddress(i + 1);
    }
  }

  // ---------- the builder ----------

  /** DWC_CTL_SRC_MSIZE | DWC_CTL_DST_MSIZE | 32-bit source and destination width; both addresses
      increment and both masters are 0, which contributes no bits. */
  function BaseControl(srcMaxBurst: nat, dstMaxBurst: nat): (c: nat)
    ensures c < LLI_LAST && Control(c, srcMaxBurst, dstMaxBurst)
  {
    var c := srcMaxBurst % 16 * 0x4000 + dstMaxBurst % 16 * 0x4_0000 + 0x200 + 0x1000;
    ControlFields(srcMaxBurst % 16, dstMaxBurst % 16, c);
    c
  }

  /** The fields of a control word below its flags: both masters 0, beats of four bytes, addresses that
      advance, the burst lengths, and nothing else. */
  predicate Control(ctl: nat, srcMaxBurst: nat, dstMaxBurst: nat) {
    && ctl % 2 == 0 && ctl / 4 % 2 == 0 && MovesWords(ctl)
    && ctl / 0x4000 % 16 == srcMaxBurst % 16 && ctl / 0x4_0000 % 16 == dstMaxBurst % 16
    && ctl % LLI_LAST < 0x40_0000
  }

  lemma FieldOf(c: nat, a: nat, high: nat, b: nat, low: nat, x: nat)
    requires a > 0 && b > 0 && x < b && low < a && c == (high * b + x) * a + low
    ensures c / a % b == x
  {
    DivModUnique(c, a, high * b + x, low);
    DivModUnique(high * b + x, b, high, x);
  }

  lemma ControlFields(s: nat, d: nat, c: nat)
    requires s < 16 && d < 16 && c == s * 0x4000 + d * 0x4_0000 + 0x1200
    ensures Control(c, s, d)
  {
    FieldOf(c, 1, (d * 16 + s) * 0x2000 + 0x900, 2, 0, 0);
    FieldOf(c, 4, (d * 16 + s) * 0x800 + 0x240, 2, 0, 0);
    FieldOf(c, 0x10, (d * 16 + s) * 0x200 + 0x90, 2, 0, 0);
    FieldOf(c, 0x40, (d * 16 + s) * 0x80 + 0x24, 2, 0, 0);
    FieldOf(c, 0x100, (d * 16 + s) * 8 + 2, 8, 0, 2);
    FieldOf(c, 0x800, d * 16 + s, 8, 0x200, 2);
    FieldOf(c, 0x4000, d, 16, 0x1200, s);
    FieldOf(c, 0x4_0000, 0, 16, s * 0x4000 + 0x1200, d);
  }

  /** A field of b values at place a does not change with flags above it. */
  lemma FieldBelow(x: nat, c: nat, a: nat, b: nat, p: nat, n: nat)
    requires a > 0 && b > 0 && p > 0 && n == p * b * a && n > 0 && x % n == c
    ensures x / a % b == c / a % b
  {
    ModProduct(x, p * b, a, n);
    ModProduct(x / a, p, b, p * b);
  }

  /** The flags leave the fields alone. */
  lemma FlagsAbove(c: nat, ctl: nat, srcMaxBurst: nat, dstMaxBurst: nat)
    requires c < LLI_LAST && ctl % LLI_LAST == c && Control(c, srcMaxBurst, dstMaxBurst)
    ensures Control(ctl, srcMaxBurst, dstMaxBurst)
  {
    FieldBelow(ctl, c, 1, 2, 0x2000_0000_0000_0000, LLI_LAST);
    FieldBelow(ctl, c, 4, 2, 0x800_0000_0000_0000, LLI_LAST);
    FieldBelow(ctl, c, 0x10, 2, 0x200_0000_0000_0000, LLI_LAST);
    FieldBelow(ctl, c, 0x40, 2, 0x80_0000_0000_0000, LLI_LAST);
    FieldBelow(ctl, c, 0x100, 8, 0x8_0000_0000_0000, LLI_LAST);
    FieldBelow(ctl, c, 0x800, 8, 0x1_0000_0000_0000, LLI_LAST);
    FieldBelow(ctl, c, 0x4000, 16, 0x1000_0000_0000, LLI_LAST);
    FieldBelow(ctl, c, 0x4_0000, 16, 0x100_0000_0000, LLI_LAST);
  }

  lemma WordsOfControl(ctl: nat, srcMaxBurst: nat, dstMaxBurst: nat)
    requires Control(ctl, srcMaxBurst, dstMaxBurst)
    ensures MovesWords(ctl)
  {
  }

  lemma WithFlags(c: nat, srcMaxBurst: nat, dstMaxBurst: nat)
    requires c < LLI_LAST && Control(c, srcMaxBurst, dstMaxBurst)
    ensures Control(c + LLI_VALID, srcMaxBurst, dstMaxBurst)
    ensures Control(c + LLI_VALID + LLI_LAST, srcMaxBurst, dstMaxBurst)
  {
    hide Control;
    DivModUnique(c + LLI_VALID, LLI_LAST, 2, c);
    DivModUnique(c + LLI_VALID + LLI_LAST, LLI_LAST, 3, c);
    FlagsAbove(c, c + LLI_VALID, srcMaxBurst, dstMaxBurst);
    FlagsAbove(c, c + LLI_VALID + LLI_LAST, srcMaxBurst, dstMaxBurst);
  }

  lemma ControlBits(c: nat)
    requires c < LLI_LAST
    ensures Bitwise(Or, c, LLI_VALID) == Bitwise(Or, Bitwise(Or, c, LLI_VALID), LLI_VALID) == c + LLI_VALID
    ensures Bitwise(Or, c + LLI_VALID, LLI_LAST) == c + LLI_VALID + LLI_LAST
    ensures ValidItem(c + LLI_VALID) && !Last(c + LLI_VALID)
    ensures ValidItem(c + LLI_VALID + LLI_LAST) && Last(c + LLI_VALID + LLI_LAST)
  {
    hide Bitwise, Pow2;
    Pow2Sum(31, 31);
    Pow2Sum(31, 32);
    assert Pow2(62) == LLI_LAST && Pow2(63) == LLI_VALID by { Pow2Of31(); }
    OrDisjoint(LLI_VALID, c, 63);
    OrSelf(c, 63);
    OrDisjoint(LLI_LAST, c, 62);
    OrAbove(LLI_LAST, c, 62);
  }

  lemma Pow2Of31()
    ensures Pow2(31) == 0x8000_0000 && Pow2(32) == TWO32
  {
    Pow2Widths();
    assert Pow2(32) == 2 * Pow2(31);
  }

  /** Setting bit k of c + 2^k again changes nothing. */
  lemma {:induction false} OrSelf(c: nat, k: nat)
    requires c < Pow2(k)
    ensures Bitwise(Or, c + Pow2(k), Pow2(k)) == c + Pow2(k)
  {
    if k > 0 {
      OrSelf(c / 2, k - 1);
      BitwiseStep(Or, c + Pow2(k), Pow2(k));
    }
  }

  lemma HalvesAbove(c: nat, q: nat)
    ensures (c + 4 * q) / 2 == c / 2 + 2 * q && (c + 4 * q) % 2 == c % 2
    ensures (c + 6 * q) / 2 == c / 2 + 3 * q && (c + 6 * q) % 2 == c % 2
  {
  }

  lemma OrOne()
    ensures Bitwise(Or, 2, 1) == 3
  {
  }

  /** Setting bit k of c + 2^(k+1), where c < 2^k. */
  lemma {:induction false} OrAbove(p: nat, c: nat, k: nat)
    requires p == Pow2(k) && c < p
    ensures Bitwise(Or, c + 2 * p, p) == c + 2 * p + p
  {
    if k == 0 {
      OrOne();
    } else {
      var q := Pow2(k - 1);
      assert p == 2 * q;
      hide Bitwise, Pow2;
      OrAbove(q, c / 2, k - 1);
      HalvesAbove(c, q);
      BitwiseStep(Or, c + 4 * q, 2 * q);
      SameHalves(Bitwise(Or, c + 4 * q, 2 * q), c + 6 * q);
    }
  }

  function PutItem(m: Memory, d: nat, sar: DoubleWord, dar: DoubleWord, ctl: DoubleWord, bts: DoubleWord): (r: Memory)
    requires d + LLI_SIZE <= |m|
    ensures |r| == |m|
  {
    var m1 := Write64(m, d + OFFSET_SAR, sar);
    var m2 := Write64(m1, d + OFFSET_DAR, dar);
    var m3 := Write64(m2, d + OFFSET_CTL, ctl);
    Write64(m3, d + OFFSET_BTS, bts)
  }

  lemma PutItemReads(m: Memory, d: nat, sar: DoubleWord, dar: DoubleWord, ctl: DoubleWord, bts: DoubleWord)
    requires d + LLI_SIZE <= |m|
    ensures ReadLli(PutItem(m, d, sar, dar, ctl, bts), d) == Lli(sar, dar, bts, ReadLli(m, d).llp, ctl)
  {
    hide ReadLli, Write64;
    var m1 := Write64(m, d + OFFSET_SAR, sar);
    var m2 := Write64(m1, d + OFFSET_DAR, dar);
    var m3 := Write64(m2, d + OFFSET_CTL, ctl);
    WriteField(m, d, OFFSET_SAR, sar);
    WriteField(m1, d, OFFSET_DAR, dar);
    WriteField(m2, d, OFFSET_CTL, ctl);
    WriteField(m3, d, OFFSET_BTS, bts);
  }

  lemma PutItemKeeps(m: Memory, d: nat, sar: DoubleWord, dar: DoubleWord, ctl: DoubleWord, bts: DoubleWord, e: nat)
    requires d + LLI_SIZE <= |m| && e + LLI_SIZE <= |m|
    requires d + LLI_SIZE <= e || e + LLI_SIZE <= d
    ensures ReadLli(PutItem(m, d, sar, dar, ctl, bts), e) == ReadLli(m, e)
  {
    hide ReadLli, Write64;
    var m1 := Write64(m, d + OFFSET_SAR, sar);
    var m2 := Write64(m1, d + OFFSET_DAR, dar);
    var m3 := Write64(m2, d + OFFSET_CTL, ctl);
    WriteOtherItem(m, d, OFFSET_SAR, sar, e);
    WriteOtherItem(m1, d, OFFSET_DAR, dar, e);
    WriteOtherItem(m2, d, OFFSET_CTL, ctl, e);
    WriteOtherItem(m3, d, OFFSET_BTS, bts, e);
  }

  /** Item j of a list under construction with k items so far: filled in, valid, not yet LAST, and
      linked to its successor if that is there. */
  predicate Built(m: Memory, j: nat, k: nat, src: nat, dst: nat, len: nat, ctl: nat)
    requires ItemAddress(j) + LLI_SIZE <= |m|
  {
    var l := ReadLli(m, ItemAddress(j));
    Moves(l, j, src, dst, len) && l.ctl == ctl && (j + 1 < k ==> l.llp == ItemAddress(j + 1))
  }

  ghost predicate AllBuilt(m: Memory, k: nat, src: nat, dst: nat, len: nat, ctl: nat) {
    && ItemAddress(k) <= |m|
    && forall j :: 0 <= j < k ==> Built(m, j, k, src, dst, len, ctl)
  }

  lemma NothingBuilt(m: Memory, src: nat, dst: nat, len: nat, ctl: nat)
    requires LLI_BASE <= |m|
    ensures AllBuilt(m, 0, src, dst, len, ctl)
  {
  }

  /** One loop iteration: fill item k, then make the previous item, if any, point to it. */
  lemma BuildOne(m: Memory, k: nat, src: nat, dst: nat, len: nat, ctl: DoubleWord, bts: DoubleWord,
                 m1: Memory, m2: Memory)
    requires AllBuilt(m, k, src, dst, len, ctl) && ItemAddress(k + 1) <= |m| <= TWO64
    requires src + len <= |m| && dst + len <= |m|
    requires 64 * k < len && bts + 1 == Min((len - 64 * k) / 4, MAX_BLOCK_TX)
    requires m1 == PutItem(m, ItemAddress(k), src + 64 * k, dst + 64 * k, ctl, bts)
    requires k > 0 ==> m2 == Write64(m1, ItemAddress(k - 1) + OFFSET_LLP, ItemAddress(k))
    requires k == 0 ==>
               || m2 == m1
               || exists e :: ItemAddress(e) + LLI_SIZE <= |m1|
                           && m2 == Write64(m1, ItemAddress(e) + OFFSET_LLP, ItemAddress(k))
    ensures AllBuilt(m2, k + 1, src, dst, len, ctl)
  {
    hide ReadLli, Write64, PutItem;
    PutItemReads(m, ItemAddress(k), src + 64 * k, dst + 64 * k, ctl, bts);
    assert Built(m1, k, k + 1, src, dst, len, ctl);
    if k == 0 {
      if m2 != m1 {
        var e :| ItemAddress(e) + LLI_SIZE <= |m1| && m2 == Write64(m1, ItemAddress(e) + OFFSET_LLP, ItemAddress(k));
        if e == 0 {
          WriteField(m1, ItemAddress(0), OFFSET_LLP, ItemAddress(k));
        } else {
          WriteOtherItem(m1, ItemAddress(e), OFFSET_LLP, ItemAddress(k), ItemAddress(0));
        }
        assert Built(m2, 0, 1, src, dst, len, ctl);
      }
    } else {
      var n := k + 1;
      forall j | 0 <= j < n
        ensures Built(m2, j, n, src, dst, len, ctl)
      {
        if j < k {
          assert Built(m, j, k, src, dst, len, ctl);
          PutItemKeeps(m, ItemAddress(k), src + 64 * k, dst + 64 * k, ctl, bts, ItemAddress(j));
        }
        if j == k - 1 {
          WriteField(m1, ItemAddress(j), OFFSET_LLP, ItemAddress(k));
        } else {
          WriteOtherItem(m1, ItemAddress(k - 1), OFFSET_LLP, ItemAddress(k), ItemAddress(j));
        }
      }
    }
  }

  /** The final store marks the last item. */
  lemma MarkLast(m: Memory, n: nat, src: nat, dst: nat, len: nat, ctl: DoubleWord, last: DoubleWord, m1: Memory)
    requires n > 0 && AllBuilt(m, n, src, dst, len, ctl)
    requires ValidItem(ctl) && !Last(ctl) && ValidItem(last) && Last(last) && MovesWords(ctl) && MovesWords(last)
    requires m1 == Write64(m, ItemAddress(n - 1) + OFFSET_CTL, last)
    ensures Chained(m1, 0, n, src, dst, len)
    ensures forall j :: 0 <= j < n ==> ReadLli(m1, ItemAddress(j)).ctl == if j == n - 1 then last else ctl
  {
    hide ReadLli, Write64, Last, ValidItem, MovesWords;
    forall j | 0 <= j < n
      ensures Linked(m1, j, n, src, dst, len)
      ensures ReadLli(m1, ItemAddress(j)).ctl == if j == n - 1 then last else ctl
    {
      assert Built(m, j, n, src, dst, len, ctl);
      if j == n - 1 {
        WriteField(m, ItemAddress(j), OFFSET_CTL, last);
      } else {
        WriteOtherItem(m, ItemAddress(n - 1), OFFSET_CTL, last, ItemAddress(j));
      }
    }
  }

  /** Memory and the builder's state that survives between calls. */
  class Dma {
    const mem: array<Byte>
    /** Descriptors, old and new, live in [LLI_BASE, areaEnd). */
    const areaEnd: nat
    var firstLli: bool
    var llpAddrFirst: nat
    var llpAddrPrev: nat

    constructor (mem: array<Byte>, areaEnd: nat)
      requires LLI_BASE <= areaEnd <= mem.Length <= TWO64
      ensures this.mem == mem && this.areaEnd == areaEnd && Valid()
    {
      this.mem, this.areaEnd := mem, areaEnd;
      firstLli, llpAddrFirst, llpAddrPrev := true, 0, 0;
    }

    /** After the first item ever, llp_addr_prev is some item of the descriptor area, of whatever
        list was built last. */
    ghost predicate Valid()
      reads this
    {
      && LLI_BASE <= areaEnd <= mem.Length <= TWO64
      && (!firstLli ==> llpAddrFirst == LLI_BASE)
      && (!firstLli ==> exists e :: llpAddrPrev == ItemAddress(e) && ItemAddress(e) + LLI_SIZE <= areaEnd)
    }

    ghost predicate InArea(a: nat) { LLI_BASE <= a < areaEnd }

    /** What a transfer needs: source, destination and descriptors are apart. */
    predicate Apart(src: nat, dst: nat, len: nat)
      requires LLI_BASE <= areaEnd
    {
      && src + len <= mem.Length && dst + len <= mem.Length
      && Disjoint(src, len, dst, len)
      && Disjoint(src, len, LLI_BASE, areaEnd - LLI_BASE) && Disjoint(dst, len, LLI_BASE, areaEnd - LLI_BASE)
      && ItemAddress(ItemCount(len)) <= areaEnd
    }

    lemma SameDataSelf(m: Memory)
      requires |m| == mem.Length
      ensures SameData(m, m)
    {
    }

    /** The two memories agree outside the descriptor area. */
    ghost predicate SameData(m: Memory, n: Memory)
    {
      |m| == |n| == mem.Length && forall a :: 0 <= a < mem.Length && !InArea(a) ==> m[a] == n[a]
    }

    lemma WriteSameData(m: Memory, n: Memory, a: nat, v: DoubleWord)
      requires areaEnd <= mem.Length && SameData(m, n) && LLI_BASE <= a && a + 8 <= areaEnd
      ensures SameData(Write64(m, a, v), n)
    {
    }

    lemma PutItemSameData(m: Memory, n: Memory, d: nat, sar: DoubleWord, dar: DoubleWord, ctl: DoubleWord,
                          bts: DoubleWord)
      requires areaEnd <= mem.Length && SameData(m, n) && LLI_BASE <= d && d + LLI_SIZE <= areaEnd
      ensures SameData(PutItem(m, d, sar, dar, ctl, bts), n)
    {
      hide Write64;
      var m1 := Write64(m, d + OFFSET_SAR, sar);
      var m2 := Write64(m1, d + OFFSET_DAR, dar);
      var m3 := Write64(m2, d + OFFSET_CTL, ctl);
      WriteSameData(m, n, d + OFFSET_SAR, sar);
      WriteSameData(m1, n, d + OFFSET_DAR, dar);
      WriteSameData(m2, n, d + OFFSET_CTL, ctl);
      WriteSameData(m3, n, d + OFFSET_BTS, bts);
    }

    method LliWrite(addr: nat, offset: nat, v: DoubleWord)
      requires addr + offset + 8 <= mem.Length
      modifies mem
      ensures mem[..] == Write64(old(mem[..]), addr + offset, v)
    {
      var b := LittleEndian(v, 8);
      forall i | 0 <= i < 8 {
        mem[addr + offset + i] := b[i];
      }
    }

    /** The four stores at the top of the loop. */
    method WriteItem(d: nat, sar: DoubleWord, dar: DoubleWord, ctl: DoubleWord, bts: DoubleWord)
      requires d + LLI_SIZE <= mem.Length
      modifies mem
      ensures mem[..] == PutItem(old(mem[..]), d, sar, dar, ctl, bts)
    {
      hide Write64;
      LliWrite(d, OFFSET_SAR, sar);
      LliWrite(d, OFFSET_DAR, dar);
      LliWrite(d, OFFSET_CTL, ctl);
      LliWrite(d, OFFSET_BTS, bts);
    }

    /** One turn of the loop below: the item at llpAddr, number k, and the link to it. */
    method AddItem(llpAddr: nat, src: nat, dst: nat, len: nat, offset: nat, xferCount: nat, ctl: DoubleWord,
                   ghost k: nat, ghost first: Memory)
      requires Valid() && Apart(src, dst, len) && llpAddr == ItemAddress(k) && offset == 64 * k < len
      requires xferCount == Min((len - offset) / 4, MAX_BLOCK_TX) && xferCount > 0 && k < ItemCount(len)
      requires AllBuilt(mem[..], k, src, dst, len, ctl) && SameData(mem[..], first)
      requires k > 0 ==> !firstLli && llpAddrPrev == ItemAddress(k - 1)
      modifies this, mem
      ensures Valid() && !firstLli && llpAddrPrev == llpAddr
      ensures llpAddrFirst == if old(firstLli) then llpAddr else old(llpAddrFirst)
      ensures AllBuilt(mem[..], k + 1, src, dst, len, ctl) && SameData(mem[..], first)
    {
      hide SameData, AllBuilt, PutItem, Write64;
      ghost var m0 := mem[..];
      WriteItem(llpAddr, src + offset, dst + offset, ctl, xferCount - 1);
      ghost var m1 := mem[..];
      PutItemSameData(m0, first, llpAddr, src + offset, dst + offset, ctl, xferCount - 1);
      if firstLli {
        llpAddrFirst := llpAddr;
      } else {
        WriteSameData(m1, first, llpAddrPrev + OFFSET_LLP, llpAddr);
        LliWrite(llpAddrPrev, OFFSET_LLP, llpAddr);
      }
      BuildOne(m0, k, src, dst, len, ctl, xferCount - 1, m1, mem[..]);
      llpAddrPrev := llpAddr;
      firstLli := false;
    }

    lemma OffsetStep(len: nat, k: nat, offset: nat, xferCount: nat)
      requires len % 4 == 0 && offset == Min(64 * k, len) < len
      requires xferCount == Min((len - offset) / 4, MAX_BLOCK_TX)
      ensures offset == 64 * k && xferCount > 0 && k < ItemCount(len)
      ensures offset + 4 * xferCount == Min(64 * (k + 1), len)
    {
      var rest := len / 4 - 16 * k;
      Split(len, 4);
      DivModUnique(len - offset, 4, rest, 0);
      DivModUnique(len + 63, 64, k + (4 * rest + 63) / 64, (4 * rest + 63) % 64);
    }

    method PrepareMemoryToMemory(src: nat, dst: nat, len: nat, srcMaxBurst: nat, dstMaxBurst: nat)
      returns (llpPhyStart: nat, lliCount: nat)
      requires Valid() && Apart(src, dst, len)
      requires len > 0 && len % 4 == 0
      modifies this, mem
      ensures Valid() && !firstLli
      ensures llpPhyStart == LLI_BASE && lliCount == ItemCount(len)
      ensures Chained(mem[..], 0, lliCount, src, dst, len)
      ensures forall j :: 0 <= j < lliCount ==> Control(ReadLli(mem[..], ItemAddress(j)).ctl, srcMaxBurst, dstMaxBurst)
      ensures SameData(mem[..], old(mem[..]))
    {
      hide SameData, AllBuilt, PutItem, ReadLli, Write64, Bitwise, BaseControl, Last, ValidItem, Moves;
      hide Control, MovesWords;
      var ctl := BaseControl(srcMaxBurst, dstMaxBurst);
      ghost var base := ctl;
      ControlBits(base);
      ghost var valid := base + LLI_VALID;
      WithFlags(base, srcMaxBurst, dstMaxBurst);
      WordsOfControl(valid, srcMaxBurst, dstMaxBurst);
      WordsOfControl(valid + LLI_LAST, srcMaxBurst, dstMaxBurst);
      llpPhyStart := LLI_BASE;
      var llpAddr := llpPhyStart;
      lliCount := 0;
      var offset := 0;
      SameDataSelf(mem[..]);
      NothingBuilt(mem[..], src, dst, len, valid);
      while offset < len
        invariant lliCount <= ItemCount(len) && offset == Min(64 * lliCount, len)
        invariant llpAddr == ItemAddress(lliCount)
        invariant if lliCount == 0 then ctl == base else ctl == valid
        invariant AllBuilt(mem[..], lliCount, src, dst, len, valid)
        invariant Valid()
        invariant lliCount > 0 ==> !firstLli && llpAddrPrev == ItemAddress(lliCount - 1)
        invariant SameData(mem[..], old(mem[..]))
        decreases len - offset
      {
        var xferCount := Min((len - offset) / 4, MAX_BLOCK_TX);
        ctl := Bitwise(Or, ctl, LLI_VALID);
        OffsetStep(len, lliCount, offset, xferCount);
        AddItem(llpAddr, src, dst, len, offset, xferCount, ctl, lliCount, old(mem[..]));
        llpAddr := llpAddr + LLI_SIZE;
        lliCount := lliCount + 1;
        offset := offset + 4 * xferCount;
      }
      ghost var m := mem[..];
      WriteSameData(m, old(mem[..]), llpAddrPrev + OFFSET_CTL, valid + LLI_LAST);
      LliWrite(llpAddrPrev, OFFSET_CTL, Bitwise(Or, ctl, LLI_LAST));
      MarkLast(m, lliCount, src, dst, len, valid, valid + LLI_LAST, mem[..]);
    }

    /** The data phase of one item. */
    method MoveBytes(src: nat, dst: nat, n: nat)
      requires src + n <= mem.Length && dst + n <= mem.Length
      modifies mem
      ensures mem[..] == Copy(old(mem[..]), src, dst, n)
    {
      var bytes := mem[src..src + n];
      forall i | 0 <= i < n {
        mem[dst + i] := bytes[i];
      }
    }

    /** The controller on the channel, started at address a: what Walk describes, in place. */
    method RunChannel(start: nat, ghost steps: nat)
      requires mem.Length <= TWO64 && Walk(mem[..], start, steps).Some?
      modifies mem
      ensures mem[..] == Walk(old(mem[..]), start, steps).value.0
    {
      hide ReadLli, Copy, Last, ValidItem, ItemBytes, Advances;
      var a: nat := start;
      ghost var left: nat := steps;
      while true
        invariant Walk(mem[..], a, left).Some?
        invariant Walk(mem[..], a, left).value.0 == Walk(old(mem[..]), start, steps).value.0
        decreases left
      {
        var l := ReadLli(mem[..], a);
        var n := ItemBytes(l);
        MoveBytes(l.sar, l.dar, n);
        if Last(l.ctl) {
          return;
        }
        a := l.llp / LLI_SIZE * LLI_SIZE;
        left := left - 1;
      }
    }

    lemma CopySameData(m: Memory, n: Memory, src: nat, dst: nat, len: nat)
      requires LLI_BASE <= areaEnd <= mem.Length && Apart(src, dst, len) && SameData(m, n)
      ensures SameData(Copy(m, src, dst, len), Copy(n, src, dst, len))
    {
      assert m[src..src + len] == n[src..src + len];
    }

    /** Build a list and run it: outside the descriptor area, memory changes as by one plain copy. */
    method Transfer(r: Request)
      requires Valid() && Apart(r.src, r.dst, r.len) && r.len > 0 && r.len % 4 == 0
      modifies this, mem
      ensures Valid()
      ensures SameData(mem[..], Copy(old(mem[..]), r.src, r.dst, r.len))
    {
      hide Walk, Copy, ReadLli, Chained;
      ghost var m0 := mem[..];
      var start, count := PrepareMemoryToMemory(r.src, r.dst, r.len, r.srcMaxBurst, r.dstMaxBurst);
      ghost var m1 := mem[..];
      WalkChain(m1, 0, count, r.src, r.dst, r.len, count);
      RunChannel(start, count);
      CopySameData(m1, m0, r.src, r.dst, r.len);
    }

    /** Any number of transfers, through the state kept between calls, are plain copies in order. */
    method TransferAll(rs: seq<Request>)
      requires Valid() && InBounds(mem[..], rs)
      requires forall r :: r in rs ==> Apart(r.src, r.dst, r.len) && r.len > 0 && r.len % 4 == 0
      modifies this, mem
      ensures Valid() && SameData(mem[..], CopyAll(old(mem[..]), rs))
    {
      hide Copy, Apart;
      var i := 0;
      ghost var m := mem[..];
      assert rs[..0] == [];
      while i < |rs|
        invariant i <= |rs| && Valid()
        invariant SameData(mem[..], CopyAll(m, rs[..i]))
      {
        assert rs[..i + 1][..i] == rs[..i];
        CopySameData(mem[..], CopyAll(m, rs[..i]), rs[i].src, rs[i].dst, rs[i].len);
        Transfer(rs[i]);
        i := i + 1;
      }
      assert rs[..|rs|] == rs;
    }
  }

  datatype Request = Request(src: nat, dst: nat, len: nat, srcMaxBurst: nat, dstMaxBurst: nat)

  ghost predicate InBounds(m: Memory, rs: seq<Request>) {
    forall r :: r in rs ==> r.src + r.len <= |m| && r.dst + r.len <= |m|
  }

  /** Plain copies, one after the other. */
  ghost function CopyAll(m: Memory, rs: seq<Request>): (r: Memory)
    requires InBounds(m, rs)
    ensures |r| == |m|
    decreases |rs|
  {
    if |rs| == 0 then m
    else
      var n := |rs| - 1;
      Copy(CopyAll(m, rs[..n]), rs[n].src, rs[n].dst, rs[n].len)
  }

  // ---------- when the builder's loop ends at all ----------

  /** The loop variable `offset` after k iterations. */
  function Offset(len: nat, k: nat): (o: nat)
  {
    if k == 0 then 0
    else
      var o := Offset(len, k - 1);
      if o >= len then o else o + 4 * Min((len - o) / 4, MAX_BLOCK_TX)
  }

  lemma {:induction false} OffsetValue(len: nat, k: nat)
    ensures Offset(len, k) == Min(64 * k, len - len % 4)
  {
    if k > 0 {
      OffsetValue(len, k - 1);
      var o, w := Offset(len, k - 1), len / 4;
      assert len - len % 4 == 4 * w;
      if 16 * k <= w {
        assert (len - o) / 4 >= 16;
      } else if 16 * (k - 1) <= w {
        assert (len - o) / 4 == w - 16 * (k - 1);
      }
    }
  }

  /** The loop leaves the transfer's end behind exactly for whole words: with a remainder it would
      go on writing items of zero words forever. */
  lemma LoopEndsIff(len: nat)
    ensures (exists k :: Offset(len, k) >= len) <==> len % 4 == 0
  {
    if len % 4 == 0 {
      OffsetValue(len, len);
    }
    forall k: nat
      ensures Offset(len, k) == Min(64 * k, len - len % 4)
    {
      OffsetValue(len, k);
    }
  }
}
