/** Programming a SPI NOR flash (drivers/spi_nor/bm_spi_nor.c): the FIFO loops of the controller
    driver, the erase and page-program protocols and the erase-program-verify loop over them,
    against a flash whose programming can only clear bits. */
module SpiNor {
  import opened MachineWords

  const FLASH_SIZE: nat := 0x100_0000
  const PAGE: nat := 256
  const SIZE_4KB: nat := 0x1000
  const SIZE_64KB: nat := 0x1_0000
  const ID_M25P128: nat := 0x18_2020

  const CMD_WREN: Byte := 0x06
  const CMD_PP: Byte := 0x02
  const CMD_READ: Byte := 0x03
  const CMD_RDSR: Byte := 0x05
  const CMD_RDID: Byte := 0x9F
  const CMD_SE: Byte := 0x20
  const CMD_BE_64K: Byte := 0xD8

  const STATUS_WEL: Byte := 0x02

  const FIFO_DEPTH: nat := 8
  const MAX_TRANSFER: nat := 65535

  /** Status reads after which the two polling loops give up. */
  const ERASE_POLLS: nat := 32
  const PROGRAM_POLLS: nat := 602

  type Cells = c: seq<Byte> | |c| == FLASH_SIZE witness seq(FLASH_SIZE, _ => 0)

  // ---------- three-byte addresses ----------

  /** The address bytes of a command, most significant first. */
  function AddressBytes(addr: nat): (b: seq<Byte>)
    ensures |b| == 3
  {
    [addr / 0x1_0000 % 0x100, addr / 0x100 % 0x100, addr % 0x100]
  }

  /** The address the flash decodes. */
  function Decoded(b: seq<Byte>): (a: nat)
    requires |b| == 3
    ensures a < FLASH_SIZE
  {
    var high: nat, mid: nat, low: nat := b[0], b[1], b[2];
    high * 0x1_0000 + mid * 0x100 + low
  }

  /** Three address bytes reach 16 MB: the flash sees the address modulo its size. */
  lemma AddressReaches(addr: nat)
    ensures Decoded(AddressBytes(addr)) == addr % FLASH_SIZE
  {
    var low, mid, high := addr % 0x100, addr / 0x100 % 0x100, addr / 0x1_0000 % 0x100;
    assert addr / 0x1_0000 == addr / 0x100 / 0x100;
    var rest := addr / 0x1_0000 / 0x100;
    assert addr == rest * FLASH_SIZE + (high * 0x1_0000 + mid * 0x100 + low);
    DivModUnique(addr, FLASH_SIZE, rest, high * 0x1_0000 + mid * 0x100 + low);
  }

  // ---------- what the flash does to its cells ----------

  function Erased(c: Cells, s: nat, len: nat): (r: Cells) {
    seq(FLASH_SIZE, a requires 0 <= a < FLASH_SIZE => if s <= a < s + len then 0xFF else c[a])
  }

  /** Cells whose range [s, s + len) went bad: it now holds whatever `noise` holds. */
  function Spoiled(c: Cells, noise: Cells, s: nat, len: nat): (r: Cells)
    ensures SameOutside(r, c, s, len)
  {
    seq(FLASH_SIZE, a requires 0 <= a < FLASH_SIZE => if s <= a < s + len then noise[a] else c[a])
  }

  /** The n bytes read from address a on; they run on past the end of the array at address 0. */
  function Line(c: Cells, a: nat, n: nat): (r: seq<Byte>)
    ensures |r| == n && forall j :: 0 <= j < n ==> r[j] == c[(a + j) % FLASH_SIZE]
  {
    seq(n, j requires 0 <= j < n => c[(a + j) % FLASH_SIZE])
  }

  function ClearBits(x: Byte, y: Byte): Byte {
    BitwiseByte(And, x, y);
    Bitwise(And, x, y)
  }

  lemma BitwiseByte(op: Op, x: Byte, y: Byte)
    ensures Bitwise(op, x, y) < TWO8
  {
    Pow2Widths();
    BitwiseBound(op, x, y, 8);
  }

  /** The next cell of a page program: the address wraps inside its page. */
  function NextInPage(a: nat): (r: nat)
    requires a < FLASH_SIZE
    ensures r < FLASH_SIZE
  {
    if a % PAGE == PAGE - 1 then a - (PAGE - 1) else a + 1
  }

  /** Page programming, byte by byte: a cell can only lose bits. */
  function Programmed(c: Cells, a: nat, data: seq<Byte>): Cells
    requires a < FLASH_SIZE
    decreases |data|
  {
    if data == [] then c
    else Programmed(c[a := ClearBits(c[a], data[0])], NextInPage(a), data[1..])
  }

  /** A program that stays inside its page touches exactly the addressed cells. */
  lemma {:induction false} ProgrammedCells(c: Cells, a: nat, data: seq<Byte>)
    requires a < FLASH_SIZE && a % PAGE + |data| <= PAGE
    ensures forall x :: 0 <= x < FLASH_SIZE ==>
              Programmed(c, a, data)[x] ==
              if a <= x < a + |data| then ClearBits(c[x], data[x - a]) else c[x]
    decreases |data|
  {
    hide ClearBits;
    if |data| > 1 {
      assert a % PAGE < PAGE - 1 && NextInPage(a) == a + 1 && (a + 1) % PAGE == a % PAGE + 1;
      ProgrammedCells(c[a := ClearBits(c[a], data[0])], a + 1, data[1..]);
    } else if |data| == 1 {
      assert data[1..] == [];
    }
  }

  predicate SameOutside(c: Cells, d: Cells, s: nat, len: nat) {
    forall x :: 0 <= x < FLASH_SIZE && !(s <= x < s + len) ==> c[x] == d[x]
  }

  /** What is left of a time when t of it is over. */
  function Rest(time: nat, t: nat): nat {
    if time <= t then 0 else time - t
  }

  /** The flash. A faithful one erases and programs as its data sheet says; in any other the
      addressed cells, and no others, end up holding anything. While busy it answers status reads only.
      Its commands are write enable (06), page program (02), read (03), status (05), identification (9F)
      and erase of 4 KB (20) or 64 KB (D8). Time is counted in turns of a polling loop; how much of it
      passes before a transfer takes effect, and what a busy flash drives during one, may depend on
      anything. */
  class Flash {
    const id: nat
    const faithful: bool
    const eraseTime: nat
    const programTime: nat
    /** For the n-th transfer and its command byte. */
    const passes: (nat, Byte) -> nat
    const drives: nat -> Cells
    var transfers: nat
    var cells: Cells
    var wel: bool
    var busy: nat

    constructor (id: nat, faithful: bool, eraseTime: nat, programTime: nat,
                 passes: (nat, Byte) -> nat, drives: nat -> Cells, cells: Cells)
      ensures this.id == id && this.faithful == faithful && this.cells == cells
      ensures this.eraseTime == eraseTime && this.programTime == programTime
      ensures this.passes == passes && this.drives == drives
      ensures !wel && busy == 0
    {
      this.id, this.faithful, this.eraseTime, this.programTime := id, faithful, eraseTime, programTime;
      this.passes, this.drives, transfers := passes, drives, 0;
      this.cells, wel, busy := cells, false, 0;
    }

    /** How long the flash is still busy when the next transfer, with this command, takes effect. */
    function Left(command: Byte): nat
      reads this
    {
      Rest(busy, passes(transfers, command))
    }

    /** The write-enable latch at that time; it falls when an operation completes. */
    predicate Latched(command: Byte)
      reads this
    {
      wel && (busy == 0 || Left(command) > 0)
    }

    predicate Ready(command: Byte)
      reads this
    {
      Left(command) == 0
    }

    /** The time k polls take, from the n-th transfer on. */
    function Elapsed(n: nat, k: nat): (t: nat)
      ensures t >= k
    {
      if k == 0 then 0 else Elapsed(n, k - 1) + 1 + passes(n + k - 1, 0x05)
    }

    method Wait(t: nat)
      modifies this`busy, this`wel
      ensures busy == Rest(old(busy), t)
      ensures wel == (old(wel) && (old(busy) == 0 || busy > 0))
    {
      if busy > 0 && busy <= t {
        wel := false;
      }
      busy := Rest(busy, t);
    }

    /** A transfer begins; by the time it takes effect an operation may have completed. */
    method Begin(command: Byte)
      modifies this`busy, this`wel, this`transfers
      ensures transfers == old(transfers) + 1 && busy == old(Left(command)) && wel == old(Latched(command))
    {
      Wait(passes(transfers, command));
      transfers := transfers + 1;
    }

    method ReadStatus() returns (status: Byte)
      modifies this`busy, this`wel, this`transfers
      ensures transfers == old(transfers) + 1 && busy == old(Left(0x05)) && wel == old(Latched(0x05))
      ensures status == (if busy > 0 then 1 else 0) + (if wel then 2 else 0)
    {
      Begin(0x05);
      status := (if busy > 0 then 1 else 0) + (if wel then 2 else 0);
    }

    /** A command without data. */
    method Command(frame: seq<Byte>)
      requires |frame| > 0
      modifies this
      ensures transfers == old(transfers) + 1
      ensures !old(Ready(frame[0])) ==>
                cells == old(cells) && busy == old(Left(frame[0])) && wel == old(Latched(frame[0]))
      ensures old(Ready(frame[0])) && frame == [0x06] ==> cells == old(cells) && wel && busy == 0
      ensures old(Ready(frame[0])) && |frame| == 4 && frame[0] in {0x20, 0xD8} ==>
                var len := if frame[0] == 0x20 then 0x1000 else 0x1_0000;
                var s := Decoded(frame[1..]) / len * len;
                var enabled := old(Latched(frame[0]));
                && (enabled && faithful ==> cells == Erased(old(cells), s, len))
                && (enabled ==> SameOutside(cells, old(cells), s, len) && busy == eraseTime)
                && (!enabled ==> cells == old(cells) && busy == 0)
                && (wel ==> enabled && eraseTime > 0)
    {
      Begin(frame[0]);
      if busy > 0 {
        return;
      }
      if frame == [0x06] {
        wel := true;
      } else if |frame| == 4 && frame[0] in {0x20, 0xD8} && wel {
        var len := if frame[0] == 0x20 then 0x1000 else 0x1_0000;
        var s := Decoded(frame[1..]) / len * len;
        var noise: Cells :| true;
        if faithful {
          cells := Erased(cells, s, len);
        } else {
          cells := Spoiled(cells, noise, s, len);
        }
        Start(eraseTime);
      }
    }

    method Start(time: nat)
      modifies this`busy, this`wel
      ensures busy == time && wel == (old(wel) && time > 0)
    {
      busy := time;
      if time == 0 {
        wel := false;
      }
    }

    /** A command followed by data bytes: only the page program is known. */
    method CommandWithData(frame: seq<Byte>, data: seq<Byte>)
      requires |frame| == 4 && frame[0] == 0x02
      requires Decoded(frame[1..]) % PAGE + |data| <= PAGE
      modifies this
      ensures transfers == old(transfers) + 1
      ensures !old(Ready(0x02) && Latched(0x02)) ==>
                cells == old(cells) && busy == old(Left(0x02)) && wel == old(Latched(0x02))
      ensures old(Ready(0x02) && Latched(0x02)) ==>
                && (faithful ==> cells == Programmed(old(cells), Decoded(frame[1..]), data))
                && SameOutside(cells, old(cells), Decoded(frame[1..]), |data|)
                && busy == programTime && wel == (programTime > 0)
    {
      Begin(0x02);
      if busy > 0 || !wel {
        return;
      }
      var a := Decoded(frame[1..]);
      ProgrammedCells(cells, a, data);
      var noise: Cells :| true;
      if faithful {
        cells := Programmed(cells, a, data);
      } else {
        cells := Spoiled(cells, noise, a, |data|);
      }
      Start(programTime);
    }

    /** A read; a busy flash drives anything. */
    method Read(frame: seq<Byte>, n: nat) returns (line: seq<Byte>)
      requires |frame| == 4 && frame[0] == 0x03
      modifies this`busy, this`wel, this`transfers
      ensures transfers == old(transfers) + 1 && busy == old(Left(0x03)) && wel == old(Latched(0x03))
      ensures line == Line(if busy == 0 then cells else drives(old(transfers)), Decoded(frame[1..]), n)
    {
      var driven := drives(transfers);
      Begin(0x03);
      line := Line(if busy == 0 then cells else driven, Decoded(frame[1..]), n);
    }

    /** The identification; a busy flash gives any. */
    method ReadId() returns (r: nat)
      modifies this`busy, this`wel, this`transfers
      ensures transfers == old(transfers) + 1 && busy == old(Left(0x9F)) && wel == old(Latched(0x9F))
      ensures busy == 0 ==> r == id
    {
      Begin(0x9F);
      r := id;
      if busy > 0 {
        r :| true;
      }
    }
  }

  // ---------- FIFO loops of the controller driver ----------

  function RoundUp4(n: nat): (r: nat)
    ensures r % 4 == 0 && n <= r < n + 4
  {
    (n + 3) / 4 * 4
  }

  lemma {:induction false} BytesRoundTrip(b: seq<Byte>)
    ensures FromLittleEndian(b) < Pow2(8 * |b|)
    ensures LittleEndian(FromLittleEndian(b), |b|) == b
  {
    if b != [] {
      var v, rest := FromLittleEndian(b), FromLittleEndian(b[1..]);
      BytesRoundTrip(b[1..]);
      assert Pow2(8 * |b|) == 0x100 * Pow2(8 * |b[1..]|) by {
        Pow2Sum(8, 8 * |b[1..]|);
        Pow2Widths();
      }
      DivModUnique(v, 0x100, rest, b[0]);
      assert b == [b[0]] + b[1..];
    }
  }

  /** One load of the FIFO, word by word. */
  method PushWords(memory: seq<Byte>, p: nat, words: nat) returns (fifo: seq<Byte>)
    requires p + 4 * words <= |memory|
    ensures fifo == memory[p..p + 4 * words]
  {
    hide LittleEndian, FromLittleEndian;
    fifo := [];
    var i := 0;
    while i < words
      invariant i <= words
      invariant fifo == memory[p..p + 4 * i]
    {
      var bytes := memory[p + 4 * i..p + 4 * i + 4];
      BytesRoundTrip(bytes);
      fifo := fifo + LittleEndian(FromLittleEndian(bytes), 4);
      i := i + 1;
    }
  }

  method StoreWord(word: nat, dst: array<Byte>, p: nat)
    requires word < Pow2(32) && p + 4 <= dst.Length
    modifies dst
    ensures dst[..] == old(dst[..p]) + LittleEndian(word, 4) + old(dst[p + 4..])
  {
    hide LittleEndian;
    var bytes := LittleEndian(word, 4);
    dst[p], dst[p + 1], dst[p + 2], dst[p + 3] := bytes[0], bytes[1], bytes[2], bytes[3];
  }

  /** One unload of the FIFO, word by word. */
  method StoreWords(fifo: seq<Byte>, dst: array<Byte>, p: nat, words: nat)
    requires |fifo| == 4 * words && p + 4 * words <= dst.Length
    modifies dst
    ensures dst[..] == old(dst[..p]) + fifo + old(dst[p + 4 * words..])
  {
    hide LittleEndian, FromLittleEndian, Pow2;
    var i := 0;
    while i < words
      invariant i <= words
      invariant dst[..] == old(dst[..p]) + fifo[..4 * i] + old(dst[p + 4 * i..])
    {
      var k := 4 * i;
      var bytes := fifo[k..k + 4];
      BytesRoundTrip(bytes);
      StoreWord(FromLittleEndian(bytes), dst, p + k);
      assert fifo[..k + 4] == fifo[..k] + bytes;
      i := i + 1;
    }
  }

  lemma RoundUpShift(q: nat, n: nat)
    ensures RoundUp4(4 * q + n) == 4 * q + RoundUp4(n)
  {
    DivModUnique(4 * q + n + 3, 4, q + (n + 3) / 4, (n + 3) % 4);
  }

  lemma RoundUpMonotone(m: nat, n: nat)
    requires m <= n
    ensures RoundUp4(m) <= RoundUp4(n)
  {
  }

  lemma WordsOf(n: nat)
    requires n > 0
    ensures 4 * ((n - 1) / 4 + 1) == RoundUp4(n)
  {
    DivModUnique(n + 3, 4, (n - 1) / 4 + 1, (n - 1) % 4);
  }

  /** The bytes of one round of a transfer and the words they take. */
  lemma RoundOf(n: nat, off: nat, xfer: nat)
    requires off < n && off % FIFO_DEPTH == 0
    requires xfer == if n - off >= FIFO_DEPTH then FIFO_DEPTH else n - off
    ensures off / 4 * 4 == off && 4 * ((xfer - 1) / 4 + 1) == RoundUp4(xfer)
    ensures off + RoundUp4(xfer) <= RoundUp4(n)
    ensures (off + xfer) % FIFO_DEPTH == 0 || off + xfer == n
  {
    hide RoundUp4;
    var q := off / FIFO_DEPTH;
    Split(off, FIFO_DEPTH);
    DivModUnique(off, 4, 2 * q, 0);
    WordsOf(xfer);
    RoundUpShift(2 * q, xfer);
    RoundUpMonotone(off + xfer, n);
    DivModUnique(off + FIFO_DEPTH, FIFO_DEPTH, q + 1, 0);
  }

  function Padding(pad: Byte, n: nat): (r: seq<Byte>)
    ensures |r| == n
  {
    seq(n, _ => pad)
  }

  /** Words of memory, at most two at a time, through the FIFO: exactly the n bytes from `start`
      on go out on the line, although the last word may be read past them. */
  method DataOut(memory: seq<Byte>, start: nat, n: nat) returns (ok: bool, sent: seq<Byte>)
    requires start + RoundUp4(n) <= |memory|
    ensures ok == (n <= 65535)
    ensures sent == if ok then memory[start..start + n] else []
  {
    sent := [];
    if n > MAX_TRANSFER {
      return false, [];
    }
    var off := 0;
    while off < n
      invariant off <= n && (off % FIFO_DEPTH == 0 || off == n)
      invariant sent == memory[start..start + off]
    {
      var xfer := if n - off >= FIFO_DEPTH then FIFO_DEPTH else n - off;
      RoundOf(n, off, xfer);
      var fifo := PushWords(memory, start + off / 4 * 4, (xfer - 1) / 4 + 1);
      assert fifo[..xfer] == memory[start + off..start + off + xfer];
      sent := sent + fifo[..xfer];
      off := off + xfer;
    }
    ok := true;
  }

  /** The bytes of the line, packed into FIFO words and stored word by word: they arrive in order,
      and at most three bytes behind them are overwritten. */
  method DataIn(line: seq<Byte>, dst: array<Byte>) returns (ok: bool)
    requires RoundUp4(|line|) <= dst.Length
    modifies dst
    ensures ok == (|line| <= 65535)
    ensures ok ==> dst[..|line|] == line && dst[RoundUp4(|line|)..] == old(dst[RoundUp4(|line|)..])
    ensures !ok ==> dst[..] == old(dst[..])
  {
    var n := |line|;
    if n > MAX_TRANSFER {
      return false;
    }
    var off := 0;
    while off < n
      invariant off <= n && (off % FIFO_DEPTH == 0 || off == n)
      invariant dst[..off] == line[..off]
      invariant dst[RoundUp4(n)..] == old(dst[RoundUp4(n)..])
    {
      var xfer := if n - off >= FIFO_DEPTH then FIFO_DEPTH else n - off;
      RoundOf(n, off, xfer);
      var words := (xfer - 1) / 4 + 1;
      var pad: Byte :| true;
      var fifo := line[off..off + xfer] + Padding(pad, 4 * words - xfer);
      ghost var before := dst[..];
      StoreWords(fifo, dst, off / 4 * 4, words);
      assert dst[..off + xfer] == before[..off] + line[off..off + xfer];
      assert dst[RoundUp4(n)..] == before[RoundUp4(n)..];
      off := off + xfer;
    }
    ok := true;
  }
}
