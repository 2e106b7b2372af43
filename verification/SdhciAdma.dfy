/** The ADMA2 descriptor table of drivers/sdhci/bm_sdhci.c in 16-bit length mode, and the controller
    that walks it. */
module SdhciAdma {
  import opened MachineWords
  import opened Options

  const DESC_SIZE: nat := 16
  const TABLE_SIZE: nat := 128
  const BUF_SIZE: nat := 65536

  const TRAN_VALID: Byte := 0x21
  const NOP_END_VALID: Byte := 0x03
  const CMD_VALID: Byte := 0x09

  /** Behind the four command descriptors of ADMA3. */
  const ADMA3_START: nat := 32

  /** A stretch of memory to transfer. */
  datatype Segment = Segment(addr: nat, len: nat)

  // ---------- descriptors ----------

  datatype Descriptor = Descriptor(attr: nat, len16: nat, addr: nat)

  /** The fields the controller reads; ten bits of the first word are not among them in this mode. */
  function ReadDesc(t: seq<Byte>, off: nat): Descriptor
    requires off + DESC_SIZE <= |t|
  {
    var low: nat, high: nat := t[off + 2], t[off + 3];
    Descriptor(t[off] % 64, low + 0x100 * high, FromLittleEndian(t[off + 4..off + 12]))
  }

  function DescOf(s: Segment): Descriptor {
    Descriptor(TRAN_VALID, s.len % 0x1_0000, s.addr)
  }

  /** Bit 0 of the attributes says valid, bit 1 end, and the three upper bits 4 say transfer; length
      0 stands for 65536. */
  function Walk(t: seq<Byte>, off: nat): Option<seq<Segment>>
    decreases |t| - off
  {
    if off + DESC_SIZE > |t| then None
    else
      var d := ReadDesc(t, off);
      if d.attr % 2 == 0 then None
      else
        var here := if d.attr / 8 == 4 then [Segment(d.addr, if d.len16 == 0 then BUF_SIZE else d.len16)] else [];
        if d.attr / 2 % 2 == 1 then Some(here)
        else
          match Walk(t, off + DESC_SIZE)
          case None => None
          case Some(rest) => Some(here + rest)
  }

  // ---------- the transfer cut into segments ----------

  function Segments(addr: nat, total: nat): (s: seq<Segment>)
    decreases total
  {
    if total == 0 then []
    else
      var len := if total < BUF_SIZE then total else BUF_SIZE;
      [Segment(addr, len)] + Segments(addr + len, total - len)
  }

  /** The segments follow one another from a to b without gap or overlap. */
  predicate Tiles(s: seq<Segment>, a: nat, b: nat) {
    if s == [] then a == b
    else s[0].addr == a && 0 < s[0].len <= BUF_SIZE && Tiles(s[1..], a + s[0].len, b)
  }

  function Count(total: nat): nat {
    (total + BUF_SIZE - 1) / BUF_SIZE
  }

  lemma {:induction false} SegmentsTile(addr: nat, total: nat)
    ensures Tiles(Segments(addr, total), addr, addr + total)
    ensures |Segments(addr, total)| == Count(total)
    decreases total
  {
    if total > 0 {
      var len := if total < BUF_SIZE then total else BUF_SIZE;
      SegmentsTile(addr + len, total - len);
      assert Segments(addr, total)[1..] == Segments(addr + len, total - len);
      if total >= BUF_SIZE {
        assert Count(total) == Count(total - BUF_SIZE) + 1;
      }
    }
  }

  // ---------- writing descriptors ----------

  method StoreBytes(t: array<Byte>, p: nat, bytes: seq<Byte>)
    requires p + |bytes| <= t.Length
    modifies t
    ensures t[..] == old(t[..p]) + bytes + old(t[p + |bytes|..])
  {
    for i := 0 to |bytes|
      invariant t[..] == old(t[..p]) + bytes[..i] + old(t[p + i..])
    {
      t[p + i] := bytes[i];
    }
  }

  /** bm_sdhci_adma_write_desc: attributes, length modulo 65536 and address. */
  method WriteDesc(t: array<Byte>, off: nat, addr: DoubleWord, len: nat, attr: Byte)
    requires off + DESC_SIZE <= t.Length && attr < 64
    modifies t
    ensures ReadDesc(t[..], off) == Descriptor(attr, len % 0x1_0000, addr)
    ensures t[..off] == old(t[..off]) && t[off + DESC_SIZE..] == old(t[off + DESC_SIZE..])
    ensures t[off] / 64 == old(t[off] / 64) && t[off + 1] == old(t[off + 1])
    ensures t[off + 12..off + 16] == old(t[off + 12..off + 16])
  {
    hide LittleEndian, FromLittleEndian;
    t[off] := attr + t[off] / 64 * 64;
    t[off + 2] := len % 0x100;
    t[off + 3] := len / 0x100 % 0x100;
    StoreBytes(t, off + 4, LittleEndian(addr, 8));
    AddressRoundTrip(addr);
    assert t[..][off + 4..off + 12] == LittleEndian(addr, 8);
    LengthBytes(len);
  }

  lemma AddressRoundTrip(addr: DoubleWord)
    ensures FromLittleEndian(LittleEndian(addr, 8)) == addr
  {
    Pow2Widths();
    LittleEndianRoundTrip(addr, 8);
  }

  lemma LengthBytes(len: nat)
    ensures len % 0x100 + 0x100 * (len / 0x100 % 0x100) == len % 0x1_0000
  {
    ModProduct(len, 0x100, 0x100, 0x1_0000);
    Split(len % 0x1_0000, 0x100);
  }

  /** Descriptors of the segments, one behind the other from off on. */
  predicate Listed(t: seq<Byte>, off: nat, s: seq<Segment>)
    requires off + DESC_SIZE * |s| <= |t|
    decreases |s|
  {
    s == [] || (ReadDesc(t, off) == DescOf(s[0]) && Listed(t, off + DESC_SIZE, s[1..]))
  }

  lemma {:induction false} ListedSame(t: seq<Byte>, u: seq<Byte>, off: nat, s: seq<Segment>)
    requires |t| == |u| && off + DESC_SIZE * |s| <= |t|
    requires t[off..off + DESC_SIZE * |s|] == u[off..off + DESC_SIZE * |s|]
    ensures Listed(t, off, s) == Listed(u, off, s)
    decreases |s|
  {
    if s != [] {
      var n := DESC_SIZE * |s|;
      assert t[off..off + n][..DESC_SIZE] == t[off..off + DESC_SIZE];
      assert u[off..off + n][..DESC_SIZE] == u[off..off + DESC_SIZE];
      DescSame(t, u, off);
      assert t[off + DESC_SIZE..off + n] == t[off..off + n][DESC_SIZE..];
      assert u[off + DESC_SIZE..off + n] == u[off..off + n][DESC_SIZE..];
      ListedSame(t, u, off + DESC_SIZE, s[1..]);
    }
  }

  lemma DescSame(t: seq<Byte>, u: seq<Byte>, off: nat)
    requires |t| == |u| && off + DESC_SIZE <= |t|
    requires t[off..off + DESC_SIZE] == u[off..off + DESC_SIZE]
    ensures ReadDesc(t, off) == ReadDesc(u, off)
  {
    var a, b := t[off..off + DESC_SIZE], u[off..off + DESC_SIZE];
    assert t[off] == a[0] && t[off + 2] == a[2] && t[off + 3] == a[3];
    assert u[off] == b[0] && u[off + 2] == b[2] && u[off + 3] == b[3];
    assert t[off + 4..off + 12] == a[4..][..8] && u[off + 4..off + 12] == b[4..][..8];
  }

  lemma {:induction false} ListedAppend(t: seq<Byte>, off: nat, s: seq<Segment>, last: Segment)
    requires off + DESC_SIZE * (|s| + 1) <= |t|
    requires Listed(t, off, s) && ReadDesc(t, off + DESC_SIZE * |s|) == DescOf(last)
    ensures Listed(t, off, s + [last])
    decreases |s|
  {
    hide ReadDesc, DescOf;
    if s == [] {
      assert (s + [last])[1..] == [];
    } else {
      assert (s + [last])[1..] == s[1..] + [last];
      ListedAppend(t, off + DESC_SIZE, s[1..], last);
    }
  }

  /** A list of segments ended by the end marker is walked as these segments. */
  lemma {:induction false} WalkListed(t: seq<Byte>, off: nat, s: seq<Segment>)
    requires off + DESC_SIZE * (|s| + 1) <= |t|
    requires Listed(t, off, s) && forall k :: 0 <= k < |s| ==> 0 < s[k].len <= BUF_SIZE
    requires ReadDesc(t, off + DESC_SIZE * |s|) == Descriptor(NOP_END_VALID, 0, 0)
    ensures Walk(t, off) == Some(s)
    decreases |s|
  {
    hide ReadDesc;
    if s != [] {
      WalkListed(t, off + DESC_SIZE, s[1..]);
      assert s == [s[0]] + s[1..];
    }
  }

  // ---------- building the table ----------

  function Start(adma3: bool): nat {
    if adma3 then ADMA3_START else 0
  }

  /** The table holds the descriptors and the end marker, all of which fit. */
  predicate Fits(adma3: bool, total: nat) {
    total == 0 || Start(adma3) + DESC_SIZE * Count(total) < TABLE_SIZE
  }

  /** The bytes asked for. */
  function Size(blksz: Word, blocks: Word): nat {
    blksz * blocks
  }

  /** blksz * blocks in 32 bits. */
  function Total(blksz: Word, blocks: Word): Word {
    Size(blksz, blocks) % TWO32
  }

  lemma {:induction false} TilesEnd(s: seq<Segment>, a: nat, b: nat, c: nat)
    requires Tiles(s, a, b) && Tiles(s, a, c)
    ensures b == c
  {
    if s != [] {
      TilesEnd(s[1..], a + s[0].len, b, c);
    }
  }

  /** The product in 32 bits is the size of the request exactly below 4 GB; above, only a part of the
      buffer is transferred. */
  lemma WholeBuffer(buf: nat, blksz: Word, blocks: Word)
    ensures Tiles(Segments(buf, Total(blksz, blocks)), buf, buf + Size(blksz, blocks)) <==> Size(blksz, blocks) < TWO32
  {
    var size, total := Size(blksz, blocks), Total(blksz, blocks);
    SegmentsTile(buf, total);
    if Tiles(Segments(buf, total), buf, buf + size) {
      TilesEnd(Segments(buf, total), buf, buf + total, buf + size);
    }
  }

  /** A request for 4 GB in blocks of 512 bytes passes the capacity check, with nothing to transfer. */
  lemma FourGigabytes(buf: nat, adma3: bool)
    ensures Size(512, 0x80_0000) == TWO32 && Fits(adma3, Total(512, 0x80_0000))
    ensures Segments(buf, Total(512, 0x80_0000)) == []
    ensures !Tiles(Segments(buf, Total(512, 0x80_0000)), buf, buf + Size(512, 0x80_0000))
  {
    WholeBuffer(buf, 512, 0x80_0000);
  }

  /** How far the table is: the descriptors of `done` are listed, the rest of the buffer is
      [addr, addr + remain). */
  ghost predicate Progress(t: seq<Byte>, start: nat, buf: nat, total: nat, done: seq<Segment>, addr: nat, remain: nat) {
    && remain <= total && addr == buf + (total - remain)
    && start + DESC_SIZE * |done| <= |t| && Listed(t, start, done)
    && Count(total) == |done| + Count(remain) && Segments(buf, total) == done + Segments(addr, remain)
    && (forall k :: 0 <= k < |done| ==> 0 < done[k].len <= BUF_SIZE)
  }

  lemma ProgressStep(before: seq<Byte>, after: seq<Byte>, start: nat, buf: nat, total: nat, done: seq<Segment>,
                     addr: nat, remain: nat, size: nat)
    requires Progress(before, start, buf, total, done, addr, remain)
    requires 0 < remain && size == if BUF_SIZE > remain then remain else BUF_SIZE
    requires |before| == |after| && start + DESC_SIZE * (|done| + 1) <= |before|
    requires ReadDesc(after, start + DESC_SIZE * |done|) == DescOf(Segment(addr, size))
    requires after[..start + DESC_SIZE * |done|] == before[..start + DESC_SIZE * |done|]
    ensures Progress(after, start, buf, total, done + [Segment(addr, size)], addr + size, remain - size)
  {
    hide ReadDesc, DescOf, Listed, Segments, Count;
    ListedStep(before, after, start, done, Segment(addr, size));
    OneMore(addr, remain, size, done, buf, total);
  }

  lemma ProgressEnds(before: seq<Byte>, after: seq<Byte>, adma3: bool, buf: nat, total: nat, done: seq<Segment>,
                     addr: nat)
    requires Progress(before, Start(adma3), buf, total, done, addr, 0)
    requires |before| == |after| == TABLE_SIZE && Start(adma3) + DESC_SIZE * (|done| + 1) <= TABLE_SIZE
    requires ReadDesc(after, Start(adma3) + DESC_SIZE * |done|) == Descriptor(NOP_END_VALID, 0, 0)
    requires after[..Start(adma3) + DESC_SIZE * |done|] == before[..Start(adma3) + DESC_SIZE * |done|]
    ensures Fits(adma3, total) && Walk(after, Start(adma3)) == Some(Segments(buf, total))
  {
    hide ReadDesc, Listed, Segments, Walk;
    AllDone(addr, done, total, adma3, buf);
    ListedEnds(before, after, Start(adma3), done);
    WalkListed(after, Start(adma3), done);
  }

  lemma ProgressStuck(t: seq<Byte>, adma3: bool, buf: nat, total: nat, done: seq<Segment>, addr: nat, remain: nat)
    requires Progress(t, Start(adma3), buf, total, done, addr, remain) && total > 0
    requires Start(adma3) + DESC_SIZE * |done| >= TABLE_SIZE
    ensures !Fits(adma3, total)
  {
    CountBelow(total, |done|, remain, adma3);
  }

  /** bm_sdhci_adma_table_pre. It hangs (in the source: an assertion) as soon as the next descriptor
      would lie behind the table, exactly when they do not all fit; until then every write is inside
      the table. Otherwise the controller, walking from the start offset, transfers pieces of at most
      64 KB, in order, and what lies in front of that offset is untouched. The pieces make up the
      buffer if and only if it is smaller than 4 GB. */
  method TablePre(t: array<Byte>, adma3: bool, buf: nat, blksz: Word, blocks: Word) returns (hang: bool)
    requires t.Length == TABLE_SIZE && buf + Total(blksz, blocks) < TWO64
    modifies t
    ensures hang <==> !Fits(adma3, Total(blksz, blocks))
    ensures !hang ==> Walk(t[..], Start(adma3)) == Some(Segments(buf, Total(blksz, blocks)))
    ensures Tiles(Segments(buf, Total(blksz, blocks)), buf, buf + Size(blksz, blocks)) <==> Size(blksz, blocks) < TWO32
    ensures t[..Start(adma3)] == old(t[..Start(adma3)])
  {
    hide Walk, ReadDesc, Segments, Progress, Fits, Total, Tiles, Size;
    WholeBuffer(buf, blksz, blocks);
    var remain: nat := Total(blksz, blocks);
    ghost var total := remain;
    var addr, desc: nat := buf, 0;
    if adma3 {
      desc := desc + 32;
    }
    ghost var start := Start(adma3);
    ghost var done: seq<Segment> := [];
    assert Progress(t[..], start, buf, total, done, addr, remain) by {
      ProgressBegins(t[..], start, buf, total);
    }
    while remain > 0
      invariant remain <= total && addr == buf + (total - remain)
      invariant desc == start + DESC_SIZE * |done| && desc + DESC_SIZE <= TABLE_SIZE
      invariant Progress(t[..], start, buf, total, done, addr, remain)
      invariant t[..start] == old(t[..start])
    {
      var size: nat := if BUF_SIZE > remain then remain else BUF_SIZE;
      ghost var before := t[..];
      WriteDesc(t, desc, addr, size, TRAN_VALID);
      assert t[..][..desc] == before[..desc];
      assert t[..start] == t[..desc][..start] == before[..desc][..start];
      ProgressStep(before, t[..], start, buf, total, done, addr, remain, size);
      done := done + [Segment(addr, size)];
      addr := addr + size;
      desc := desc + DESC_SIZE;
      remain := remain - size;
      if desc >= TABLE_SIZE {
        ProgressStuck(t[..], adma3, buf, total, done, addr, remain);
        return true;
      }
    }
    ghost var before := t[..];
    WriteDesc(t, desc, 0, 0, NOP_END_VALID);
    assert t[..][..desc] == before[..desc];
    assert t[..start] == t[..desc][..start] == before[..desc][..start];
    ProgressEnds(before, t[..], adma3, buf, total, done, addr);
    hang := false;
  }

  lemma ProgressBegins(t: seq<Byte>, start: nat, buf: nat, total: nat)
    requires start <= |t|
    ensures Progress(t, start, buf, total, [], buf, total)
  {
    NothingYet(t, start, buf, total);
  }

  lemma NothingYet(t: seq<Byte>, off: nat, buf: nat, total: nat)
    requires off <= |t|
    ensures Listed(t, off, []) && [] + Segments(buf, total) == Segments(buf, total)
  {
  }

  /** One descriptor more behind those already there. */
  lemma ListedStep(before: seq<Byte>, after: seq<Byte>, off: nat, done: seq<Segment>, s: Segment)
    requires |before| == |after| && off + DESC_SIZE * (|done| + 1) <= |before|
    requires Listed(before, off, done) && ReadDesc(after, off + DESC_SIZE * |done|) == DescOf(s)
    requires after[..off + DESC_SIZE * |done|] == before[..off + DESC_SIZE * |done|]
    ensures Listed(after, off, done + [s])
  {
    ListedEnds(before, after, off, done);
    ListedAppend(after, off, done, s);
  }

  lemma ListedEnds(before: seq<Byte>, after: seq<Byte>, off: nat, done: seq<Segment>)
    requires |before| == |after| && off + DESC_SIZE * |done| <= |before|
    requires Listed(before, off, done)
    requires after[..off + DESC_SIZE * |done|] == before[..off + DESC_SIZE * |done|]
    ensures Listed(after, off, done)
  {
    var end := off + DESC_SIZE * |done|;
    assert after[off..end] == after[..end][off..] && before[off..end] == before[..end][off..];
    ListedSame(before, after, off, done);
  }

  lemma OneMore(addr: nat, remain: nat, size: nat, done: seq<Segment>, buf: nat, total: nat)
    requires 0 < remain && size == if BUF_SIZE > remain then remain else BUF_SIZE
    requires Segments(buf, total) == done + Segments(addr, remain)
    ensures Segments(buf, total) == (done + [Segment(addr, size)]) + Segments(addr + size, remain - size)
    ensures Count(remain) == 1 + Count(remain - size)
  {
  }

  lemma CountBelow(total: nat, n: nat, remain: nat, adma3: bool)
    requires total > 0 && Count(total) == n + Count(remain) && Start(adma3) + DESC_SIZE * n >= TABLE_SIZE
    ensures !Fits(adma3, total)
  {
  }

  lemma AllDone(addr: nat, done: seq<Segment>, total: nat, adma3: bool, buf: nat)
    requires Count(total) == |done| + Count(0) && Segments(buf, total) == done + Segments(addr, 0)
    requires Start(adma3) + DESC_SIZE * |done| + DESC_SIZE <= TABLE_SIZE
    ensures Fits(adma3, total) && Segments(buf, total) == done
  {
  }

  /** bm_sdhci_cmd_desc_init and its descriptors, in front of the ADMA3 data descriptors. */
  method CmdDescInit(t: array<Byte>)
    requires t.Length == TABLE_SIZE
    modifies t
    ensures t[ADMA3_START..] == old(t[ADMA3_START..])
    ensures forall k :: 0 <= k < 32 ==> t[k] == if k % 8 == 0 then 0x09 else 0
  {
    for n := 0 to 4
      invariant t[ADMA3_START..] == old(t[ADMA3_START..])
      invariant forall k :: 0 <= k < 8 * n ==> t[k] == if k % 8 == 0 then CMD_VALID else 0
    {
      var p := 8 * n;
      t[p], t[p + 1], t[p + 2], t[p + 3] := CMD_VALID, 0, 0, 0;
      t[p + 4], t[p + 5], t[p + 6], t[p + 7] := 0, 0, 0, 0;
    }
  }
}
