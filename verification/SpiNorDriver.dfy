/** The erase-program-verify loop of drivers/spi_nor/bm_spi_nor.c over the flash of `SpiNor`. */
module SpiNorDriver {
  import opened MachineWords
  import opened SpiNor
  import Mem

  // ---------- positions on the ring of addresses ----------

  /** How far address a lies behind base, the addresses of the flash forming a ring. */
  function Behind(a: nat, base: nat): (d: nat)
    ensures d < FLASH_SIZE
  {
    (a - base) % FLASH_SIZE
  }

  lemma BehindAt(base: nat, i: nat)
    ensures Behind((base + i) % FLASH_SIZE, base) == i % FLASH_SIZE
  {
    var a := (base + i) % FLASH_SIZE;
    var q := (base + i) / FLASH_SIZE;
    DivModUnique(a - base, FLASH_SIZE, i / FLASH_SIZE - q, i % FLASH_SIZE);
  }

  lemma AtBehind(a: nat, base: nat)
    requires a < FLASH_SIZE
    ensures (base + Behind(a, base)) % FLASH_SIZE == a
  {
    var q := (a - base) / FLASH_SIZE;
    DivModUnique(base + Behind(a, base), FLASH_SIZE, -q, a);
  }

  lemma AlignedOf(x: nat, g: nat, k: nat)
    requires g > 0 && k > 0 && FLASH_SIZE == k * g && x % g == 0
    ensures x % FLASH_SIZE % g == 0 && x % FLASH_SIZE + g <= FLASH_SIZE
  {
    ModProduct(x, k, g, FLASH_SIZE);
    var s := x % FLASH_SIZE;
    Split(s, g);
    QuotientBound(s / g, g, k, FLASH_SIZE);
    Product(s / g, k, g);
  }

  lemma BlockAligned(base: nat, t: nat, g: nat)
    requires (g == PAGE || g == SIZE_64KB) && base % g == 0 && t % g == 0
    ensures (base + t) % FLASH_SIZE % g == 0 && (base + t) % FLASH_SIZE + g <= FLASH_SIZE
  {
    Split(base, g);
    Split(t, g);
    DivModUnique(base + t, g, base / g + t / g, 0);
    AlignedOf(base + t, g, if g == PAGE then 0x1_0000 else 256);
  }

  lemma InBlock(a: nat, base: nat, t: nat, g: nat, s: nat)
    requires t + g <= FLASH_SIZE && s == (base + t) % FLASH_SIZE && s <= a < s + g <= FLASH_SIZE
    ensures Behind(a, base) == t + (a - s)
  {
    hide Behind;
    Split(base + t, FLASH_SIZE);
    DivModUnique(base + (t + (a - s)), FLASH_SIZE, (base + t) / FLASH_SIZE, a);
    BehindAt(base, t + (a - s));
  }

  lemma FromBehind(a: nat, base: nat, t: nat, g: nat, s: nat)
    requires a < FLASH_SIZE && s == (base + t) % FLASH_SIZE && s + g <= FLASH_SIZE
    requires t <= Behind(a, base) < t + g
    ensures a == s + (Behind(a, base) - t)
  {
    hide Behind;
    var d := Behind(a, base);
    Split(base + t, FLASH_SIZE);
    AtBehind(a, base);
    DivModUnique(base + d, FLASH_SIZE, (base + t) / FLASH_SIZE, s + (d - t));
  }

  /** An aligned block of g cells at distance t does not wrap around the ring. */
  lemma BlockBehind(a: nat, base: nat, t: nat, g: nat, s: nat)
    requires a < FLASH_SIZE && (g == PAGE || g == SIZE_64KB)
    requires base % g == 0 && t % g == 0 && t < FLASH_SIZE && s == (base + t) % FLASH_SIZE
    ensures s % g == 0 && s + g <= FLASH_SIZE
    ensures s <= a < s + g <==> t <= Behind(a, base) < t + g
    ensures s <= a < s + g ==> a - s == Behind(a, base) - t
  {
    hide Behind;
    BlockAligned(base, t, g);
    BlockAligned(0, t, g);
    if s <= a < s + g {
      InBlock(a, base, t, g, s);
    }
    if t <= Behind(a, base) < t + g {
      FromBehind(a, base, t, g, s);
    }
  }

  // ---------- the contents after erasing and after programming ----------

  function AfterErase(c: Cells, base: nat, len: nat): (r: Cells) {
    seq(FLASH_SIZE, a requires 0 <= a < FLASH_SIZE => if Behind(a, base) < len then 0xFF else c[a])
  }

  function AfterProgram(c: Cells, base: nat, src: seq<Byte>, n: nat): (r: Cells)
    requires n <= |src|
  {
    seq(FLASH_SIZE, a requires 0 <= a < FLASH_SIZE =>
      var d := Behind(a, base); if d < n then ClearBits(c[a], src[d]) else c[a])
  }

  /** Every byte to write only clears bits of the cell it goes to. */
  predicate Writable(c: Cells, base: nat, src: seq<Byte>, n: nat)
    requires n <= |src|
  {
    forall i :: 0 <= i < n ==> ClearBits(c[(base + i) % FLASH_SIZE], src[i]) == src[i]
  }

  predicate Stored(c: Cells, base: nat, src: seq<Byte>, n: nat)
    requires n <= |src|
  {
    forall i :: 0 <= i < n && n <= i + FLASH_SIZE ==> c[(base + i) % FLASH_SIZE] == src[i]
  }

  lemma EraseStep(c: Cells, base: nat, k: nat)
    requires base % SIZE_64KB == 0 && k < 256
    ensures var a := (base + k * SIZE_64KB) % FLASH_SIZE;
            && a / SIZE_64KB * SIZE_64KB == a
            && Erased(AfterErase(c, base, k * SIZE_64KB), a, SIZE_64KB) == AfterErase(c, base, (k + 1) * SIZE_64KB)
  {
    var t := k * SIZE_64KB;
    BlockAligned(base, t, SIZE_64KB);
    var r, e := Erased(AfterErase(c, base, t), (base + t) % FLASH_SIZE, SIZE_64KB), AfterErase(c, base, t + SIZE_64KB);
    forall a | 0 <= a < FLASH_SIZE
      ensures r[a] == e[a]
    {
      BlockBehind(a, base, t, SIZE_64KB, (base + t) % FLASH_SIZE);
    }
  }

  lemma ProgramStep(c: Cells, base: nat, src: seq<Byte>, off: nat, n: nat)
    requires base % PAGE == 0 && off % PAGE == 0 && n <= PAGE && off < FLASH_SIZE && off + n <= |src|
    ensures Programmed(AfterProgram(c, base, src, off), (base + off) % FLASH_SIZE, src[off..off + n]) ==
            AfterProgram(c, base, src, off + n)
  {
    hide Programmed, ClearBits;
    var s := (base + off) % FLASH_SIZE;
    BlockAligned(base, off, PAGE);
    var p := AfterProgram(c, base, src, off);
    ProgrammedCells(p, s, src[off..off + n]);
    var r, e := Programmed(p, s, src[off..off + n]), AfterProgram(c, base, src, off + n);
    forall a | 0 <= a < FLASH_SIZE
      ensures r[a] == e[a]
    {
      BlockBehind(a, base, off, PAGE, s);
    }
  }

  /** The page now programmed is none that was verified within the last 16 MB. */
  lemma PageIsNew(base: nat, off: nat, n: nat, i: nat)
    requires base % PAGE == 0 && off % PAGE == 0 && n <= PAGE
    requires i < off && off + n <= i + FLASH_SIZE
    ensures var s := (base + off) % FLASH_SIZE; !(s <= (base + i) % FLASH_SIZE < s + n)
  {
    var t := off % FLASH_SIZE;
    assert (base + t) % FLASH_SIZE == (base + off) % FLASH_SIZE by {
      DivModUnique(base + off, FLASH_SIZE, (base + t) / FLASH_SIZE + off / FLASH_SIZE, (base + t) % FLASH_SIZE);
    }
    var s := (base + off) % FLASH_SIZE;
    BlockBehind((base + i) % FLASH_SIZE, base, t, PAGE, s);
    BehindAt(base, i);
  }

  // ---------- single operations ----------

  method WriteEnable(f: Flash)
    modifies f
    ensures f.transfers == old(f.transfers) + 1
    ensures f.cells == old(f.cells) && f.busy == old(f.Left(CMD_WREN))
    ensures f.wel == if old(f.Ready(CMD_WREN)) then true else old(f.Latched(CMD_WREN))
  {
    f.Command([CMD_WREN]);
  }

  /** One turn of the polls from transfer n on. */
  lemma PollStep(f: Flash, busy: nat, n: nat, k: nat)
    ensures Rest(Rest(Rest(busy, f.Elapsed(n, k)), 1), f.passes(n + k, CMD_RDSR)) == Rest(busy, f.Elapsed(n, k + 1))
  {
  }

  lemma {:induction false} LaterToo(f: Flash, n: nat, j: nat, k: nat)
    requires j <= k
    ensures f.Elapsed(n, j) <= f.Elapsed(n, k)
  {
    if j < k {
      LaterToo(f, n, j, k - 1);
    }
  }

  lemma PollsEnd(f: Flash, busy: nat, n: nat, j: nat, k: nat)
    requires j <= k && (j == k || Rest(busy, f.Elapsed(n, j)) == 0)
    ensures Rest(busy, f.Elapsed(n, j)) == Rest(busy, f.Elapsed(n, k))
  {
    LaterToo(f, n, j, k);
  }

  lemma NothingPassed(f: Flash, busy: nat, n: nat)
    ensures Rest(busy, f.Elapsed(n, 0)) == busy
  {
  }

  /** Reads the status until the flash is ready, or for the last time after `limit` retries. */
  method WaitReady(f: Flash, limit: nat)
    modifies f`busy, f`wel, f`transfers
    ensures f.busy == Rest(old(f.busy), f.Elapsed(old(f.transfers), limit + 2))
    ensures f.wel ==> old(f.wel) && (old(f.busy) == 0 || f.busy > 0)
  {
    hide Flash.Elapsed, Rest;
    var wait := 0;
    ghost var busy, n := f.busy, f.transfers;
    NothingPassed(f, busy, n);
    while true
      invariant wait <= limit + 1 && f.transfers == n + wait
      invariant f.busy == Rest(busy, f.Elapsed(n, wait))
      invariant f.wel ==> old(f.wel) && (busy == 0 || f.busy > 0)
      invariant wait > 0 ==> f.busy > 0
      decreases limit + 1 - wait
    {
      PollStep(f, busy, n, wait);
      Shorter(f.busy, 1);
      f.Wait(1);
      Shorter(f.busy, f.passes(f.transfers, CMD_RDSR));
      var status := f.ReadStatus();
      if status % 2 == 0 || wait > limit {
        PollsEnd(f, busy, n, wait + 1, limit + 2);
        break;
      }
      wait := wait + 1;
    }
  }

  lemma Shorter(time: nat, t: nat)
    ensures Rest(time, t) <= time
  {
  }

  /** bm_spi_flash_erase_sector with three address bytes. A sector size the flash has no command
      for sends none, and is no error. */
  method EraseSector(f: Flash, addr: Word, sectorSize: nat) returns (r: int)
    modifies f
    ensures r == 0 || r == -1
    ensures sectorSize != SIZE_4KB && sectorSize != SIZE_64KB ==> f.cells == old(f.cells)
    ensures !old(f.Ready(CMD_WREN)) ==> f.cells == old(f.cells)
    ensures old(f.Ready(CMD_WREN)) && f.eraseTime <= 32 && (r != -1 || old(f.busy) == 0) ==> f.busy == 0
    ensures (sectorSize == SIZE_4KB || sectorSize == SIZE_64KB) && old(f.Ready(CMD_WREN)) ==>
              && r == (if addr % sectorSize == 0 then 0 else -1)
              && (r == 0 && f.faithful ==>
                    f.cells == Erased(old(f.cells), addr % FLASH_SIZE / sectorSize * sectorSize, sectorSize))
              && (r == 0 ==> f.busy == Rest(f.eraseTime, f.Elapsed(old(f.transfers) + 3, 32)))
  {
    hide AddressBytes, Decoded, Flash.Elapsed;
    if sectorSize == SIZE_4KB && addr % SIZE_4KB != 0 {
      return -1;
    } else if sectorSize == SIZE_64KB && addr % SIZE_64KB != 0 {
      return -1;
    }
    WriteEnable(f);
    var status := f.ReadStatus();
    if status / 2 % 2 == 0 {
      return -1;
    }
    SectorErase(f, addr, sectorSize);
    WaitReady(f, ERASE_POLLS - 2);
    r := 0;
  }

  method SectorErase(f: Flash, addr: Word, sectorSize: nat)
    requires f.wel
    modifies f
    ensures old(f.busy) == 0 && (sectorSize == SIZE_4KB || sectorSize == SIZE_64KB) ==>
              f.busy == f.eraseTime && f.transfers == old(f.transfers) + 1
    ensures old(f.busy) > 0 || (sectorSize != SIZE_4KB && sectorSize != SIZE_64KB) ==> f.cells == old(f.cells)
    ensures old(f.busy) == 0 ==> f.busy == 0 || f.busy == f.eraseTime
    ensures old(f.busy) == 0 && (sectorSize == SIZE_4KB || sectorSize == SIZE_64KB) && f.faithful ==>
              f.cells == Erased(old(f.cells), addr % FLASH_SIZE / sectorSize * sectorSize, sectorSize)
  {
    hide AddressBytes, Decoded, Erased, SameOutside;
    var command;
    if sectorSize == SIZE_4KB {
      command := CMD_SE;
    } else if sectorSize == SIZE_64KB {
      command := CMD_BE_64K;
    } else {
      return;
    }
    var frame := [command] + AddressBytes(addr);
    assert frame[1..] == AddressBytes(addr);
    AddressReaches(addr);
    f.Command(frame);
  }

  /** How long the flash is still busy with a page program when do_page_program, called at transfer n,
      returns: its polls begin behind the write enable, a status read and the program itself. */
  function Overrun(f: Flash, n: nat): nat {
    Rest(f.programTime, f.Elapsed(n + 3, 602))
  }

  /** do_page_program: the n bytes at src[off..] to the page at addr. It fails on a flash that is busy
      when it is write-enabled, and leaves a ready flash ready again unless that outlasts the polls. */
  method DoPageProgram(f: Flash, src: seq<Byte>, off: nat, addr: Word, n: nat) returns (r: int)
    requires off + RoundUp4(n) <= |src|
    modifies f
    ensures r == 0 <==> n <= PAGE && addr % PAGE == 0 && old(f.Ready(CMD_WREN))
    ensures r != 0 ==> r == -1 && f.cells == old(f.cells)
    ensures r == 0 ==> f.busy == Overrun(f, old(f.transfers)) && (f.programTime <= 602 ==> f.busy == 0)
    ensures r == 0 ==> SameOutside(f.cells, old(f.cells), addr % FLASH_SIZE, n)
    ensures r == 0 && f.faithful ==>
              f.cells == Programmed(old(f.cells), addr % FLASH_SIZE, src[off..off + n])
  {
    hide AddressBytes, Decoded, Programmed, Flash.Elapsed;
    if n > PAGE {
      return -1;
    }
    if addr % PAGE != 0 {
      return -1;
    }
    WriteEnable(f);
    var status := f.ReadStatus();
    if status != STATUS_WEL {
      return -1;
    }
    var frame := [CMD_PP] + AddressBytes(addr);
    assert frame[1..] == AddressBytes(addr);
    AddressReaches(addr);
    BlockAligned(addr, 0, PAGE);
    var _, sent := DataOut(src, off, n);
    f.CommandWithData(frame, sent);
    WaitReady(f, PROGRAM_POLLS - 2);
    r := 0;
  }

  /** spi_data_read into a buffer. */
  method DataRead(f: Flash, dst: array<Byte>, addr: Word, n: nat)
    requires RoundUp4(n) <= dst.Length && n <= MAX_TRANSFER
    modifies dst, f`busy, f`wel, f`transfers
    ensures f.busy == old(f.Left(CMD_READ))
    ensures dst[..n] == Line(if f.busy == 0 then f.cells else f.drives(old(f.transfers)), addr % FLASH_SIZE, n)
  {
    hide AddressBytes, Decoded, Line;
    var frame := [CMD_READ] + AddressBytes(addr);
    assert frame[1..] == AddressBytes(addr);
    AddressReaches(addr);
    var line := f.Read(frame, n);
    var _ := DataIn(line, dst);
  }

  // ---------- bm_spi_flash_program ----------

  function SectorSize(id: nat): nat {
    if id == ID_M25P128 then 256 * 1024 else SIZE_64KB
  }

  /** The number of sectors to erase, computed in 32 bits and kept in 8. */
  function SectorCount(size: Word, sector: nat): (n: nat)
    requires sector > 0
    ensures n < TWO8
  {
    (size + sector) % TWO32 / sector % TWO8
  }

  /** How much is erased: sectors of 256 KB are not, for want of a command. */
  function ErasedBytes(id: nat, size: Word): nat {
    if id == ID_M25P128 then 0 else SectorCount(size, SIZE_64KB) * SIZE_64KB
  }

  method EraseSectors(f: Flash, base: Word, count: nat, sector: nat)
    requires count < 256 && (sector == SIZE_64KB || sector == 256 * 1024) && base % sector == 0
    modifies f
    ensures f.eraseTime <= 32 && old(f.busy) == 0 ==> f.busy == 0
    ensures f.faithful && f.eraseTime <= 32 && old(f.busy) == 0 ==>
              f.cells == AfterErase(old(f.cells), base, if sector == SIZE_64KB then count * SIZE_64KB else 0)
  {
    hide AfterErase, Erased;
    var i := 0;
    ghost var was := f.cells;
    AfterEraseNone(was, base);
    while i < count
      invariant i <= count
      invariant f.eraseTime <= ERASE_POLLS && old(f.busy) == 0 ==> f.busy == 0
      invariant f.faithful && f.eraseTime <= ERASE_POLLS && old(f.busy) == 0 ==>
                  f.cells == AfterErase(was, base, if sector == SIZE_64KB then i * SIZE_64KB else 0)
    {
      var addr := (base + i * sector) % TWO32;
      if sector == SIZE_64KB {
        EraseStep(was, base, i);
        SectorAddress(base, i);
      }
      var _ := EraseSector(f, addr, sector);
      i := i + 1;
    }
  }

  lemma AfterEraseNone(c: Cells, base: nat)
    ensures AfterErase(c, base, 0) == c
  {
  }

  lemma SectorAddress(base: nat, i: nat)
    requires base % SIZE_64KB == 0
    ensures (base + i * SIZE_64KB) % TWO32 % FLASH_SIZE == (base + i * SIZE_64KB) % FLASH_SIZE
    ensures (base + i * SIZE_64KB) % TWO32 % SIZE_64KB == 0
  {
    ModProduct(base + i * SIZE_64KB, 256, FLASH_SIZE, TWO32);
    ModProduct(base + i * SIZE_64KB, 0x1_0000, SIZE_64KB, TWO32);
    DivModUnique(base + i * SIZE_64KB, SIZE_64KB, base / SIZE_64KB + i, 0);
  }

  /** What programming one page and comparing it adds. */
  lemma PageStored(c: Cells, d: Cells, base: nat, src: seq<Byte>, off: nat, n: nat)
    requires base % PAGE == 0 && off % PAGE == 0 && n <= PAGE && off + n <= |src|
    requires Stored(c, base, src, off)
    requires SameOutside(d, c, (base + off) % FLASH_SIZE, n)
    requires Line(d, (base + off) % FLASH_SIZE, n) == src[off..off + n]
    ensures Stored(d, base, src, off + n)
  {
    forall i | 0 <= i < off + n && off + n <= i + FLASH_SIZE
      ensures d[(base + i) % FLASH_SIZE] == src[i]
    {
      if i < off {
        PageIsNew(base, off, n, i);
      } else {
        var line := Line(d, (base + off) % FLASH_SIZE, n);
        assert line[i - off] == src[off..off + n][i - off];
        SameCell(base, off, i - off);
      }
    }
  }

  lemma SameCell(base: nat, off: nat, j: nat)
    ensures ((base + off) % FLASH_SIZE + j) % FLASH_SIZE == (base + (off + j)) % FLASH_SIZE
  {
  }

  /** On a faithful flash the comparison of a page tells whether its bytes were writable. */
  lemma PageWritable(e: Cells, base: nat, src: seq<Byte>, off: nat, n: nat)
    requires off + n <= |src| && off + n <= FLASH_SIZE
    requires Writable(e, base, src, off)
    ensures Line(AfterProgram(e, base, src, off + n), (base + off) % FLASH_SIZE, n) == src[off..off + n]
            <==> Writable(e, base, src, off + n)
  {
    hide ClearBits;
    var line := Line(AfterProgram(e, base, src, off + n), (base + off) % FLASH_SIZE, n);
    forall j | 0 <= j < n
      ensures line[j] == ClearBits(e[(base + (off + j)) % FLASH_SIZE], src[off + j])
    {
      SameCell(base, off, j);
      BehindAt(base, off + j);
    }
    if line == src[off..off + n] {
      forall i | 0 <= i < off + n
        ensures ClearBits(e[(base + i) % FLASH_SIZE], src[i]) == src[i]
      {
        if i >= off {
          assert line[i - off] == src[off..off + n][i - off];
        }
      }
    }
  }

  lemma NotWritable(e: Cells, base: nat, src: seq<Byte>, m: nat, n: nat)
    requires m <= n <= |src|
    ensures Writable(e, base, src, n) ==> Writable(e, base, src, m)
  {
  }

  /** The flash and its timing keep what their data sheet promises, and a small image fits. */
  predicate Sound(faithful: bool, eraseTime: nat, programTime: nat, ready: bool, size: nat) {
    faithful && eraseTime <= ERASE_POLLS && programTime <= PROGRAM_POLLS && ready && size <= FLASH_SIZE
  }

  /** A flash that is still busy behind the polls of a page program, and ready in time for the next. */
  ghost predicate Overruns(f: Flash) {
    && f.programTime > 602
    && forall n: nat :: f.passes(n, CMD_WREN) >= f.programTime && f.passes(n, CMD_RDSR) == f.passes(n, CMD_READ) == 0
  }

  /** What the flash drives while busy happens to be the first n bytes of the image. */
  ghost predicate Shows(f: Flash, base: nat, src: seq<Byte>, n: nat)
    requires n <= |src|
  {
    forall t: nat, i :: 0 <= i < n ==> f.drives(t)[(base + i) % FLASH_SIZE] == src[i]
  }

  lemma {:induction false} ElapsedExact(f: Flash, n: nat, k: nat)
    requires Overruns(f)
    ensures f.Elapsed(n, k) == k
  {
    if k > 0 {
      ElapsedExact(f, n, k - 1);
    }
  }

  lemma ShownLine(f: Flash, base: nat, src: seq<Byte>, off: nat, n: nat, t: nat)
    requires off + n <= |src| && Shows(f, base, src, off + n)
    ensures Line(f.drives(t), (base + off) % FLASH_SIZE, n) == src[off..off + n]
  {
    var line := Line(f.drives(t), (base + off) % FLASH_SIZE, n);
    forall j | 0 <= j < n
      ensures line[j] == src[off..off + n][j]
    {
      SameCell(base, off, j);
      assert f.drives(t)[(base + (off + j)) % FLASH_SIZE] == src[off + j];
    }
  }

  lemma PageAddress(base: nat, off: nat)
    requires base % PAGE == 0 && off % PAGE == 0
    ensures (base + off) % TWO32 % FLASH_SIZE == (base + off) % FLASH_SIZE
    ensures (base + off) % TWO32 % PAGE == 0
  {
    ModProduct(base + off, 256, FLASH_SIZE, TWO32);
    ModProduct(base + off, FLASH_SIZE, PAGE, TWO32);
  }

  /** One round of the loop below: n bytes programmed at distance off, read back and compared. */
  method ProgramPage(f: Flash, src: seq<Byte>, base: Word, off: nat, n: nat, buffer: array<Byte>, ghost e: Cells)
    returns (r: int)
    requires off + RoundUp4(n) <= |src| && 0 < n <= PAGE == buffer.Length
    requires base % PAGE == 0 && off % PAGE == 0
    requires f.programTime <= PROGRAM_POLLS ==> Stored(f.cells, base, src, off)
    modifies f, buffer
    ensures r >= -1
    ensures r == 0 && f.programTime <= 602 ==> f.busy == 0 && Stored(f.cells, base, src, off + n)
    ensures r == 0 && f.faithful && off + n <= FLASH_SIZE && old(f.cells) == AfterProgram(e, base, src, off) ==>
              f.cells == AfterProgram(e, base, src, off + n)
    ensures f.faithful && f.programTime <= 602 && old(f.Ready(CMD_WREN)) && off + n <= FLASH_SIZE
            && Writable(e, base, src, off) && old(f.cells) == AfterProgram(e, base, src, off) ==>
              (r == 0 <==> Writable(e, base, src, off + n))
    ensures Overruns(f) && Shows(f, base, src, off + n) && old(f.busy) <= f.programTime ==>
              r == 0 && f.busy <= f.programTime
  {
    hide AfterProgram, Writable, Programmed, Line, Stored, SameOutside, Shows, Flash.Elapsed;
    PageAddress(base, off);
    ghost var t := f.transfers;
    if f.faithful && off + n <= FLASH_SIZE {
      if off < FLASH_SIZE {
        ProgramStep(e, base, src, off, n);
      }
      if Writable(e, base, src, off) {
        PageWritable(e, base, src, off, n);
      }
    }
    r := DoPageProgram(f, src, off, (base + off) % TWO32, n);
    if r != 0 {
      return -1;
    }
    if Overruns(f) && Shows(f, base, src, off + n) {
      ElapsedExact(f, t + 3, PROGRAM_POLLS);
      ShownLine(f, base, src, off, n, f.transfers);
    }
    DataRead(f, buffer, (base + off) % TWO32, n);
    r := Mem.MemCmp(src[off..], buffer[..], n);
    assert src[off..][..n] == src[off..off + n] && buffer[..][..n] == buffer[..n];
    if r == 0 && f.programTime <= PROGRAM_POLLS {
      PageStored(old(f.cells), f.cells, base, src, off, n);
    }
  }

  /** fw_sp_read_test: eight bytes are read, and only printed. */
  method TrialRead(f: Flash, base: Word)
    modifies f`busy, f`wel, f`transfers
    ensures f.busy == old(f.Left(CMD_READ))
  {
    var buffer := new Byte[8];
    DataRead(f, buffer, base, 8);
  }

  /** The first half of bm_spi_flash_program: identification, alignment, erases and a trial read. */
  method EraseForImage(f: Flash, base: Word, size: Word) returns (ok: bool)
    modifies f
    ensures ok ==> base % PAGE == 0
    ensures !ok ==> f.cells == old(f.cells)
    ensures base % SIZE_64KB != 0 ==> !ok
    ensures old(f.Ready(CMD_RDID)) ==> (ok <==> base % SectorSize(f.id) == 0)
    ensures ok && old(f.Ready(CMD_RDID)) && f.eraseTime <= 32 ==>
              && f.busy == 0
              && (f.faithful ==> f.cells == AfterErase(old(f.cells), base, ErasedBytes(f.id, size)))
  {
    hide AfterErase, SectorCount;
    var id := f.ReadId();
    var sector := SectorSize(id);
    if base % sector != 0 {
      return false;
    }
    PageOfSector(base, id);
    EraseSectors(f, base, SectorCount(size, sector), sector);
    TrialRead(f, base);
    ok := true;
  }

  /** bm_spi_flash_program. On a flash whose page programs end within the polls success means that the
      image is in the flash, whatever else it did to the addressed cells and sectors; on a slower one the
      comparison may have been with whatever a busy flash drives. On a sound flash the result is 0 exactly
      when every byte is writable on what the erases left, and then nothing else has changed. */
  method FlashProgram(f: Flash, src: seq<Byte>, base: Word, size: Word) returns (r: int)
    requires RoundUp4(size) <= |src|
    modifies f
    ensures r >= -1
    ensures r == 0 && f.programTime <= 602 ==> Stored(f.cells, base, src, size)
    ensures base % SIZE_64KB != 0 || (old(f.Ready(CMD_RDID)) && base % SectorSize(f.id) != 0) ==>
              r == -1 && f.cells == old(f.cells)
    ensures Sound(f.faithful, f.eraseTime, f.programTime, old(f.Ready(CMD_RDID)), size)
            && base % SectorSize(f.id) == 0 ==>
              (r == 0 <==> Writable(AfterErase(old(f.cells), base, ErasedBytes(f.id, size)), base, src, size))
    ensures r == 0 && f.faithful && f.eraseTime <= 32 && old(f.Ready(CMD_RDID)) && size <= FLASH_SIZE ==>
              f.cells == AfterProgram(AfterErase(old(f.cells), base, ErasedBytes(f.id, size)), base, src, size)
    ensures Overruns(f) && Shows(f, base, src, size) && f.eraseTime <= 32
            && old(f.Ready(CMD_RDID)) && base % SectorSize(f.id) == 0 ==>
              r == 0 && f.busy <= f.programTime
  {
    hide AfterErase, AfterProgram, Writable, Stored, ErasedBytes, SectorSize, Shows, Overruns;
    ghost var prompt := f.Ready(CMD_RDID) && f.eraseTime <= ERASE_POLLS;
    var ok := EraseForImage(f, base, size);
    if !ok {
      return -1;
    }
    ghost var e := AfterErase(old(f.cells), base, ErasedBytes(f.id, size));
    ghost var sound := prompt && f.faithful && f.programTime <= PROGRAM_POLLS && size <= FLASH_SIZE;
    ghost var fooled := prompt && Overruns(f) && Shows(f, base, src, size);
    var buffer := new Byte[PAGE];
    var off := 0;
    NothingYet(f.cells, e, base, src);
    while off < size
      invariant off <= size && (off % PAGE == 0 || off == size)
      invariant f.programTime <= PROGRAM_POLLS ==> Stored(f.cells, base, src, off)
      invariant prompt && f.faithful && size <= FLASH_SIZE ==> f.cells == AfterProgram(e, base, src, off)
      invariant sound ==> f.busy == 0 && Writable(e, base, src, off)
      invariant fooled ==> f.busy <= f.programTime
    {
      var n := if size - off >= PAGE then PAGE else size - off;
      PageFits(size, off, n);
      ShowsLess(f, base, src, off + n, size);
      r := ProgramPage(f, src, base, off, n, buffer, e);
      if r != 0 {
        NotWritable(e, base, src, off + n, size);
        return;
      }
      off := off + n;
    }
    TrialRead(f, base);
    r := 0;
  }

  lemma ShowsLess(f: Flash, base: nat, src: seq<Byte>, m: nat, n: nat)
    requires m <= n <= |src|
    ensures Shows(f, base, src, n) ==> Shows(f, base, src, m)
  {
  }

  lemma PageFits(size: nat, off: nat, n: nat)
    requires off < size && off % PAGE == 0
    requires n == if size - off >= PAGE then PAGE else size - off
    ensures off + RoundUp4(n) <= RoundUp4(size)
    ensures (off + n) % PAGE == 0 || off + n == size
  {
    hide RoundUp4;
    var q := off / PAGE;
    Split(off, PAGE);
    RoundUpShift(64 * q, n);
    RoundUpMonotone(off + n, size);
    DivModUnique(off + PAGE, PAGE, q + 1, 0);
  }

  lemma PageOfSector(base: nat, id: nat)
    requires base % SectorSize(id) == 0
    ensures base % PAGE == 0
  {
    Split(base, SectorSize(id));
    if id == ID_M25P128 {
      DivModUnique(base, PAGE, base / 0x4_0000 * 0x400, 0);
    } else {
      DivModUnique(base, PAGE, base / 0x1_0000 * 0x100, 0);
    }
  }

  lemma NothingYet(c: Cells, e: Cells, base: nat, src: seq<Byte>)
    ensures Stored(c, base, src, 0) && Writable(e, base, src, 0)
    ensures AfterProgram(e, base, src, 0) == e
  {
  }

  // ---------- which images can be programmed ----------

  lemma ErasedIsWritable(x: Byte)
    ensures ClearBits(0xFF, x) == x
  {
    hide Bitwise, Pow2;
    Pow2Widths();
    AndMask(x, 8);
    Commute(And, x, 0xFF);
  }

  /** The erased sectors cover the image exactly when their number fits a byte and there is an
      erase command for them. */
  lemma ErasesEnough(id: nat, size: Word)
    ensures size <= ErasedBytes(id, size) <==> size == 0 || (id != 0x18_2020 && size / SIZE_64KB + 1 <= 255)
    ensures id != 0x18_2020 && size / SIZE_64KB + 1 <= 255 ==>
              ErasedBytes(id, size) == (size / SIZE_64KB + 1) * SIZE_64KB
  {
  }

  ghost predicate AlwaysWritable(id: nat, base: Word, size: Word) {
    forall c: Cells, src: seq<Byte> :: |src| == size ==>
      Writable(AfterErase(c, base, ErasedBytes(id, size)), base, src, size)
  }

  /** Whether every image of this size can be programmed over any contents. */
  lemma AlwaysWritableIff(id: nat, base: Word, size: Word)
    requires size <= FLASH_SIZE
    ensures AlwaysWritable(id, base, size) <==> size == 0 || (id != 0x18_2020 && size / SIZE_64KB + 1 <= 255)
  {
    hide ErasedBytes, ClearBits;
    var len := ErasedBytes(id, size);
    ErasesEnough(id, size);
    if size <= len {
      forall c: Cells, src: seq<Byte> | |src| == size
        ensures Writable(AfterErase(c, base, len), base, src, size)
      {
        ErasedImage(c, base, src, size, len);
      }
    } else {
      var c: Cells := seq(FLASH_SIZE, _ => 0);
      var src: seq<Byte> := Ones(size);
      BehindAt(base, len);
      ZeroStays();
      assert ClearBits(AfterErase(c, base, len)[(base + len) % FLASH_SIZE], src[len]) == 0;
      assert !Writable(AfterErase(c, base, len), base, src, size);
    }
  }

  function Ones(n: nat): (r: seq<Byte>)
    ensures |r| == n && forall i :: 0 <= i < n ==> r[i] == 0xFF
  {
    seq(n, _ => 0xFF)
  }

  lemma ZeroStays()
    ensures ClearBits(0, 0xFF) == 0
  {
    Commute(And, 0, 0xFF);
    AndZero(0xFF);
  }

  /** For every time a page program can last beyond the polls there is a flash, otherwise faithful, for
      which success is reported although nothing is stored: its cells are 0 and stay so, since sectors of
      256 KB are not erased, and while busy it drives ones. It is ready in the end. */
  method UnseenOverrun(programTime: nat) returns (r: int, busy: nat, stored: bool)
    requires programTime > 602
    ensures r == 0 && busy == 0 && !stored
  {
    hide ClearBits;
    var zeros: Cells, ones: Cells := seq(FLASH_SIZE, _ => 0), seq(FLASH_SIZE, _ => 0xFF);
    var f := new Flash(ID_M25P128, true, 0, programTime,
                       (_, command) => if command == CMD_WREN then programTime else 0, _ => ones, zeros);
    var src := Ones(2 * PAGE);
    r := FlashProgram(f, src, 0, 2 * PAGE);
    ZeroStays();
    WaitReady(f, programTime);
    busy := f.busy;
    assert f.cells[..2 * PAGE][0] == 0 && src[0] == 0xFF;
    stored := f.cells[..2 * PAGE] == src;
  }

  lemma ErasedImage(c: Cells, base: nat, src: seq<Byte>, size: nat, len: nat)
    requires size <= |src| && size <= len && size <= FLASH_SIZE
    ensures Writable(AfterErase(c, base, len), base, src, size)
  {
    hide ClearBits;
    forall i | 0 <= i < size
      ensures ClearBits(AfterErase(c, base, len)[(base + i) % FLASH_SIZE], src[i]) == src[i]
    {
      BehindAt(base, i);
      ErasedIsWritable(src[i]);
    }
  }

  /** When the erased sectors cover the image and end inside the flash, the flash afterwards holds
      the image, erased cells up to the end of the last sector, and everything else as before. */
  lemma WholeImage(c: Cells, base: Word, src: seq<Byte>, size: nat, len: nat)
    requires size <= |src| && size <= len && base + len <= FLASH_SIZE
    ensures forall a :: 0 <= a < FLASH_SIZE ==>
              AfterProgram(AfterErase(c, base, len), base, src, size)[a] ==
              if base <= a < base + size then src[a - base] else if base <= a < base + len then 0xFF else c[a]
  {
    hide ClearBits;
    forall a | 0 <= a < FLASH_SIZE
      ensures AfterProgram(AfterErase(c, base, len), base, src, size)[a] ==
              if base <= a < base + size then src[a - base] else if base <= a < base + len then 0xFF else c[a]
    {
      BehindLinear(a, base);
      if base <= a < base + size {
        ErasedIsWritable(src[a - base]);
      }
    }
  }

  lemma BehindLinear(a: nat, base: nat)
    requires a < FLASH_SIZE && base <= FLASH_SIZE
    ensures Behind(a, base) == if base <= a then a - base else a - base + FLASH_SIZE
  {
  }

  /** A sound flash with 64 KB sectors: an image of at most 254 whole sectors and a bit, ending with
      its last erased sector inside the flash, is always programmed, and nothing outside the erased
      sectors changes. */
  method ProgramImage(f: Flash, src: seq<Byte>, base: Word, size: Word) returns (r: int)
    requires RoundUp4(size) <= |src| && f.id != ID_M25P128
    requires f.faithful && f.eraseTime <= ERASE_POLLS && f.programTime <= PROGRAM_POLLS && f.Ready(CMD_RDID)
    requires base % SIZE_64KB == 0 && size / SIZE_64KB + 1 <= 255
    requires base + (size / SIZE_64KB + 1) * SIZE_64KB <= FLASH_SIZE
    modifies f
    ensures r == 0
    ensures forall a :: 0 <= a < FLASH_SIZE ==>
              f.cells[a] ==
              if base <= a < base + size then src[a - base]
              else if base <= a < base + (size / SIZE_64KB + 1) * SIZE_64KB then 0xFF
              else old(f.cells[a])
  {
    hide AfterErase, AfterProgram, Writable, Stored, ErasedBytes;
    ErasesEnough(f.id, size);
    ghost var len := ErasedBytes(f.id, size);
    ErasedImage(f.cells, base, src, size, len);
    WholeImage(f.cells, base, src, size, len);
    r := FlashProgram(f, src, base, size);
  }
}
