/** Card registers read over the long response: assembly of the response words
    (drivers/sdhci/bm_sdhci.c), bit fields across words, and the CID and CSD decoders of
    drivers/sdhci/mmc.c. */
module SdRegister {
  import opened MachineWords

  // ---------- bit fields of a number ----------

  /** The `size` bits of x from bit `start` on. */
  function Field(x: nat, start: nat, size: nat): nat {
    x / Pow2(start) % Pow2(size)
  }

  lemma DivDivOf(x: nat, a: nat, b: nat, q: nat, r: nat, s: nat)
    requires r < a && s < b && x == (q * b + s) * a + r
    ensures x / (a * b) == q
  {
    Regroup(q, b, s, a, r);
    DivModUnique(x, b * a, q, s * a + r);
  }

  lemma DivDiv(x: nat, a: nat, b: nat)
    requires a > 0 && b > 0
    ensures x / a / b == x / (a * b)
  {
    Split(x, a);
    Split(x / a, b);
    DivDivOf(x, a, b, x / a / b, x % a, x / a % b);
  }

  /** A field of a field. */
  lemma FieldOfField(x: nat, i: nat, n: nat, j: nat, m: nat)
    requires j + m <= n
    ensures Field(Field(x, i, n), j, m) == Field(x, i + j, m)
  {
    hide Pow2;
    var y := x / Pow2(i);
    Pow2Sum(i, j);
    DivDiv(x, Pow2(i), Pow2(j));
    Pow2Sum(n - j, j);
    ModProduct(y, Pow2(n - j), Pow2(j), Pow2(n));
    Pow2Sum(n - j - m, m);
    ModProduct(y / Pow2(j), Pow2(n - j - m), Pow2(m), Pow2(n - j));
  }

  // ---------- the response registers ----------

  /** Reads of the response registers, which hold a 128-bit number, low-order byte first. */
  function Read32(r: nat, offset: nat): nat {
    Field(r, 8 * offset, 32)
  }

  function Read8(r: nat, offset: nat): nat {
    Field(r, 8 * offset, 8)
  }

  /** Word i of the long response: 24 bits of a register above the top byte of the one below. */
  function ResponseWord(r: nat, i: nat): nat
    requires i < 4
  {
    var high := Read32(r, (3 - i) * 4) * 0x100 % TWO32;
    if i != 3 then Bitwise(Or, high, Read8(r, (3 - i) * 4 - 1)) else high
  }

  method LongResponse(r: nat, resp: array<Word>)
    requires resp.Length == 4
    modifies resp
    ensures forall i :: 0 <= i < 4 ==> resp[i] == Field(r * 0x100, 32 * (3 - i), 32)
  {
    hide Field, Pow2, Bitwise;
    for i := 0 to 4
      invariant forall j :: 0 <= j < i ==> resp[j] == Field(r * 0x100, 32 * (3 - j), 32)
    {
      ResponseWordIs(r, i);
      resp[i] := Read32(r, (3 - i) * 4) * 0x100 % TWO32;
      if i != 3 {
        resp[i] := Bitwise(Or, resp[i], Read8(r, (3 - i) * 4 - 1));
      }
    }
  }

  /** Response word i is the number shifted up by the byte the controller stripped. */
  lemma ResponseWordIs(r: nat, i: nat)
    requires i < 4
    ensures ResponseWord(r, i) == Field(r * 0x100, 32 * (3 - i), 32) < TWO32
  {
    hide Bitwise, Pow2;
    Pow2Widths();
    var k := 3 - i;
    if k == 0 {
      assert Pow2(0) == 1 by { Pow2Sum(0, 0); }
      LowWord(r);
    } else {
      var b := 32 * k - 8;
      Pow2Sum(b, 8);
      WordFrom(r, Pow2(b), Pow2(b + 8));
    }
  }

  /** The same for p = 2^(8 * offset - 8) and q = 2^(8 * offset), in numbers only. */
  lemma WordFrom(r: nat, p: nat, q: nat)
    requires p > 0 && q == p * 0x100
    ensures Bitwise(Or, r / q % TWO32 * 0x100 % TWO32, r / p % 0x100) == r * 0x100 / q % TWO32
  {
    hide Bitwise, Pow2;
    var y := r / p;
    Pow2Widths();
    DivDiv(r, p, 0x100);
    ShiftedQuotient(r, p);
    LowWord(y / 0x100);
    WordAndByte(y);
    OrDisjoint(y / 0x100 % TWO32 * 0x100 % TWO32, y % 0x100, 8);
  }

  lemma LowWord(y: nat)
    ensures y % TWO32 * 0x100 % TWO32 == y * 0x100 % TWO32
    ensures y * 0x100 % TWO32 % 0x100 == 0
  {
    Split(y, TWO32);
    SameModulo(y / TWO32 * 0x100, TWO32, 1, TWO32, y % TWO32 * 0x100);
    ModProduct(y * 0x100, 0x100_0000, 0x100, TWO32);
    DivModUnique(y * 0x100, 0x100, y, 0);
  }

  lemma WordAndByte(y: nat)
    ensures y / 0x100 * 0x100 % TWO32 + y % 0x100 == y % TWO32
  {
    var z := y / 0x100;
    ModProduct(y, 0x100_0000, 0x100, TWO32);
    Split(y % TWO32, 0x100);
    Split(z, 0x100_0000);
    DivModUnique(z * 0x100, TWO32, z / 0x100_0000, z % 0x100_0000 * 0x100);
  }

  lemma ShiftedQuotient(r: nat, p: nat)
    requires p > 0
    ensures r * 0x100 / (p * 0x100) == r / p
  {
    DivDiv(r * 0x100, 0x100, p);
    DivModUnique(r * 0x100, 0x100, r, 0);
  }

  // ---------- UNSTUFF_BITS ----------

  lemma QuotientOfNat(x: nat, k: nat)
    requires k > 0
    ensures x / k >= 0
  {
  }

  function Down(word: nat, s: nat): nat {
    QuotientOfNat(word, Pow2(s));
    word / Pow2(s)
  }

  function Up(word: nat, s: nat): nat {
    word * Pow2(s) % TWO32
  }

  /** The computation of the macro on a word and the one above it. */
  function Spliced(low: Word, high: Word, shift: nat, size: nat): nat
    requires shift < 32 && 1 <= size <= 32
  {
    var mask := ((if size < 32 then Pow2(size) else 0) + TWO32 - 1) % TWO32;
    var res := Down(low, shift);
    Bitwise(And, if size + shift > 32 then Bitwise(Or, res, Up(high, (32 - shift) % 32)) else res, mask)
  }

  /** The macro: `size` bits from bit `start` on, of four words with the highest first. */
  function UnstuffBits(resp: seq<Word>, start: nat, size: nat): nat
    requires |resp| == 4 && 1 <= size <= 32 && start + size <= 128
  {
    var off, shift := 3 - start / 32, start % 32;
    Spliced(resp[off], if size + shift > 32 then resp[off - 1] else 0, shift, size)
  }

  /** The four words hold the number x modulo 2^128. */
  predicate Holds(resp: seq<Word>, x: nat) {
    |resp| == 4 && forall i :: 0 <= i < 4 ==> resp[i] == Field(x, 32 * (3 - i), 32)
  }

  lemma MaskOf(size: nat)
    requires 1 <= size <= 32
    ensures ((if size < 32 then Pow2(size) else 0) + TWO32 - 1) % TWO32 == Pow2(size) - 1
  {
    hide Pow2;
    Pow2Widths();
    if size < 32 {
      Pow2Below(size, 32);
    }
  }

  lemma Reassociate(y: nat, b: nat, a: nat, q: nat, r: nat)
    ensures (y * b + q) * a + r == y * (b * a) + (q * a + r)
  {
  }

  lemma Distribute(z: nat, t: nat, v: nat, b: nat)
    ensures (z * t + v) * b == z * b * t + v * b
  {
  }

  /** Two neighbouring words, shifted down together by a, where a * b is the size of a word. */
  lemma ShiftedTogether(x: nat, a: nat, b: nat, y: nat, w: nat)
    requires a > 0 && TWO32 == b * a && x == y * TWO32 + w && w < TWO32
    ensures w / a < b && x / a == y * b + w / a
  {
    Split(w, a);
    QuotientBound(w / a, a, b, TWO32);
    Reassociate(y, b, a, w / a, w % a);
    DivModUnique(x, a, y * b + w / a, w % a);
  }

  /** The upper word multiplied within a word keeps its low bits. */
  lemma UpperPart(y: nat, v: nat, a: nat, b: nat)
    requires a > 0 && b > 0 && TWO32 == a * b && v == y % TWO32
    ensures v * b % TWO32 % b == 0
    ensures y * b == (y / TWO32 * b + v * b / TWO32) * TWO32 + v * b % TWO32
  {
    Split(y, TWO32);
    Distribute(y / TWO32, TWO32, v, b);
    ModProduct(v * b, a, b, TWO32);
    DivModUnique(v * b, b, v, 0);
    Split(v * b, TWO32);
    Distribute(1, 0, y / TWO32 * b + v * b / TWO32, TWO32);
  }

  /** Multiples of a multiple of p do not matter modulo p. */
  lemma SameModulo(k: nat, t: nat, c: nat, p: nat, s: nat)
    requires p > 0 && t == c * p
    ensures (k * t + s) % p == s % p
  {
    Split(s, p);
    Reassociate(k, c, p, s / p, s % p);
    DivModUnique(k * t + s, p, k * c + s / p, s % p);
  }

  /** The bits of a field that crosses into the next word, for a = 2^shift and p = 2^size. */
  lemma CrossingOf(x: nat, a: nat, b: nat, c: nat, p: nat, w: nat, v: nat)
    requires a > 0 && b > 0 && p > 0 && TWO32 == a * b && TWO32 == b * a && TWO32 == c * p
    requires w == x % TWO32 && v == x / TWO32 % TWO32
    ensures w / a < b && v * b % TWO32 % b == 0
    ensures (w / a + v * b % TWO32) % p == x / a % p
  {
    var y := x / TWO32;
    Split(x, TWO32);
    ShiftedTogether(x, a, b, y, w);
    UpperPart(y, v, a, b);
    SameModulo(y / TWO32 * b + v * b / TWO32, TWO32, c, p, w / a + v * b % TWO32);
  }

  lemma CrossingParts(x: nat, shift: nat, size: nat, w: nat, v: nat)
    requires 0 < shift < 32 && size <= 32
    requires w == x % TWO32 && v == x / TWO32 % TWO32
    ensures w / Pow2(shift) < Pow2(32 - shift)
    ensures v * Pow2(32 - shift) % TWO32 % Pow2(32 - shift) == 0
    ensures (w / Pow2(shift) + v * Pow2(32 - shift) % TWO32) % Pow2(size) == Field(x, shift, size)
  {
    hide Pow2;
    Pow2Widths();
    Pow2Sum(shift, 32 - shift);
    Pow2Sum(32 - shift, shift);
    Pow2Sum(32 - size, size);
    CrossingOf(x, Pow2(shift), Pow2(32 - shift), Pow2(32 - size), Pow2(size), w, v);
  }

  lemma SplicedMasked(low: Word, high: Word, shift: nat, size: nat)
    requires shift < 32 && 1 <= size <= 32
    ensures size + shift <= 32 ==> Spliced(low, high, shift, size) == Down(low, shift) % Pow2(size)
    ensures size + shift > 32 ==>
              Spliced(low, high, shift, size) == Bitwise(Or, Down(low, shift), Up(high, 32 - shift)) % Pow2(size)
  {
    hide Pow2, Bitwise, Down, Up;
    MaskOf(size);
    var res := Down(low, shift);
    AndMask(res, size);
    if size + shift > 32 {
      AndMask(Bitwise(Or, res, Up(high, 32 - shift)), size);
    }
  }

  /** The field seen from the word it starts in. */
  lemma FieldFromWord(x: nat, k: nat, shift: nat, size: nat, y: nat)
    requires y == x / Pow2(32 * k)
    ensures Field(y, shift, size) == Field(x, 32 * k + shift, size)
    ensures y / TWO32 == x / Pow2(32 * (k + 1))
  {
    hide Pow2;
    Pow2Widths();
    Pow2Sum(32 * k, shift);
    DivDiv(x, Pow2(32 * k), Pow2(shift));
    Pow2Sum(32 * k, 32);
    DivDiv(x, Pow2(32 * k), TWO32);
  }

  lemma SplicedCrossing(resp: seq<Word>, x: nat, k: nat, shift: nat, size: nat)
    requires Holds(resp, x) && k < 3 && shift < 32 && 1 <= size <= 32 && size + shift > 32
    ensures Spliced(resp[3 - k], resp[2 - k], shift, size) == Field(x, 32 * k + shift, size)
  {
    hide Pow2, Bitwise, Field, Spliced;
    var y := x / Pow2(32 * k);
    FieldFromWord(x, k, shift, size, y);
    WordIs(resp, x, k);
    WordIs(resp, x, k + 1);
    CrossingParts(y, shift, size, resp[3 - k], resp[2 - k]);
    OrDisjoint(resp[2 - k] * Pow2(32 - shift) % TWO32, resp[3 - k] / Pow2(shift), 32 - shift);
    SplicedMasked(resp[3 - k], resp[2 - k], shift, size);
  }

  lemma WordIs(resp: seq<Word>, x: nat, k: nat)
    requires Holds(resp, x) && k < 4
    ensures resp[3 - k] == x / Pow2(32 * k) % TWO32
  {
    hide Pow2;
    Pow2Widths();
    assert resp[3 - k] == Field(x, 32 * (3 - (3 - k)), 32);
  }

  /** The macro reads the field of the number the words hold, also across a word boundary. */
  lemma UnstuffIsField(resp: seq<Word>, x: nat, start: nat, size: nat)
    requires Holds(resp, x) && 1 <= size <= 32 && start + size <= 128
    ensures UnstuffBits(resp, start, size) == Field(x, start, size)
  {
    hide Pow2, Spliced;
    var k, shift := start / 32, start % 32;
    if size + shift > 32 {
      SplicedCrossing(resp, x, k, shift, size);
    } else {
      SplicedMasked(resp[3 - k], 0, shift, size);
      assert resp[3 - k] == Field(x, 32 * (3 - (3 - k)), 32);
      FieldOfField(x, 32 * k, 32, shift, size);
    }
  }

  // ---------- from the card to the decoders ----------

  /** What the controller leaves of the 128 bits of a card register: their upper 120, below eight bits
      of anything. */
  predicate Delivers(r: nat, card: nat) {
    Field(r, 0, 120) == Field(card, 8, 120)
  }

  /** Whatever the response registers hold, the macro over the assembled words reads bits of the
      register as the card sent it, but for its low byte, which arrives as 0. */
  lemma UnstuffReadsCard(r: nat, card: nat, resp: seq<Word>, start: nat, size: nat)
    requires Holds(resp, r * 0x100) && Delivers(r, card)
    requires 1 <= size <= 32 && 8 <= start && start + size <= 128
    ensures UnstuffBits(resp, start, size) == Field(card, start, size)
  {
    hide Pow2, UnstuffBits;
    UnstuffIsField(resp, r * 0x100, start, size);
    FieldOfField(card, 8, 120, start - 8, size);
    FieldOfField(r, 0, 120, start - 8, size);
    Pow2Widths();
    Pow2Sum(8, start - 8);
    DivDiv(r * 0x100, 0x100, Pow2(start - 8));
    DivModUnique(r * 0x100, 0x100, r, 0);
  }

  lemma LowByteIsZero(r: nat, resp: seq<Word>)
    requires Holds(resp, r * 0x100)
    ensures UnstuffBits(resp, 0, 8) == 0
  {
    hide Pow2, UnstuffBits;
    UnstuffIsField(resp, r * 0x100, 0, 8);
    Pow2Widths();
    assert Pow2(0) == 1 by { Pow2Sum(0, 0); }
    DivModUnique(r * 0x100, 0x100, r, 0);
  }

  // ---------- CID and CSD ----------

  /** Product name, serial number, date and so on (SD Physical Layer Specification, section 5.2). */
  datatype Cid = Cid(manfid: nat, oemid: nat, name: seq<nat>, hwrev: nat, fwrev: nat, serial: nat,
                     year: nat, month: nat)

  function CidOf(card: nat): Cid {
    Cid(Field(card, 120, 8), Field(card, 104, 16),
        [Field(card, 96, 8), Field(card, 88, 8), Field(card, 80, 8), Field(card, 72, 8), Field(card, 64, 8)],
        Field(card, 60, 4), Field(card, 56, 4), Field(card, 24, 32), Field(card, 12, 8) + 2000, Field(card, 8, 4))
  }

  datatype Csd = Csd(taccNs: int, taccClks: int, maxDtr: int, cmdclass: int, cSize: int, capacity: int,
                     readBlkbits: int, readPartial: int, writeMisalign: int, readMisalign: int, dsrImp: int,
                     r2wFactor: int, writeBlkbits: int, writePartial: int, eraseSize: int)

  const TRAN_EXP := [10000, 100000, 1000000, 10000000, 0, 0, 0, 0]
  const TRAN_MANT := [0, 10, 12, 13, 15, 20, 25, 30, 35, 40, 45, 50, 55, 60, 70, 80]
  const TACC_EXP := [1, 10, 100, 1000, 10000, 100000, 1000000, 10000000]
  const TACC_MANT := [0, 10, 12, 13, 15, 20, 25, 30, 35, 40, 45, 50, 55, 60, 70, 80]

  function TableAt(table: seq<int>, i: nat): int {
    if i < |table| then table[i] else 0
  }

  /** Transfer rate unit and value (section 5.3 of the same specification). */
  function Rate(e: nat, m: nat): int {
    TableAt(TRAN_EXP, e) * TableAt(TRAN_MANT, m)
  }

  /** Access time in nanoseconds. */
  function AccessTime(e: nat, m: nat): int {
    (TableAt(TACC_EXP, e) * TableAt(TACC_MANT, m) + 9) / 10
  }

  /** The smallest unit of erase of a version 1 register, in sectors; the one held before when the
      register does not say. */
  function EraseSizeOf(card: nat, was: int): int {
    if Field(card, 46, 1) != 0 then 1
    else if Field(card, 22, 4) >= 9 then (Field(card, 39, 7) + 1) * Pow2(Field(card, 22, 4) - 9) % TWO32
    else was
  }

  /** The decoded register, in 32 bits, for the structure versions 1.0 and 2.0. */
  function CsdOf(card: nat, was: Csd): (c: Csd) {
    var rate := Rate(Field(card, 96, 3), Field(card, 99, 4));
    if Field(card, 126, 2) == 0 then
      was.(taccNs := AccessTime(Field(card, 112, 3), Field(card, 115, 4)),
           taccClks := Field(card, 104, 8) * 100, maxDtr := rate, cmdclass := Field(card, 84, 12),
           capacity := (1 + Field(card, 62, 12)) * Pow2(Field(card, 47, 3) + 2),
           readBlkbits := Field(card, 80, 4), readPartial := Field(card, 79, 1), writeMisalign := Field(card, 78, 1),
           readMisalign := Field(card, 77, 1), dsrImp := Field(card, 76, 1), r2wFactor := Field(card, 26, 3),
           writeBlkbits := Field(card, 22, 4), writePartial := Field(card, 21, 1),
           eraseSize := EraseSizeOf(card, was.eraseSize))
    else
      was.(taccNs := 0, taccClks := 0, maxDtr := rate, cmdclass := Field(card, 84, 12),
           cSize := Field(card, 48, 22), capacity := (1 + Field(card, 48, 22)) * 0x400 % TWO32,
           readBlkbits := 9, readPartial := 0, writeMisalign := 0, readMisalign := 0, r2wFactor := 4,
           writeBlkbits := 9, writePartial := 0, eraseSize := 1)
  }

  // ---------- what the decoded values mean ----------

  function PowerOfTen(n: nat): nat {
    if n == 0 then 1 else 10 * PowerOfTen(n - 1)
  }

  /** The values of the time and rate codes, in tenths (section 5.3). */
  predicate InTenths(code: nat, tenths: nat) {
    (code, tenths) in {(1, 10), (2, 12), (3, 13), (4, 15), (5, 20), (6, 25), (7, 30), (8, 35), (9, 40), (10, 45),
                       (11, 50), (12, 55), (13, 60), (14, 70), (15, 80)}
  }

  lemma PowersOfTen()
    ensures PowerOfTen(0) == 1 && PowerOfTen(1) == 10 && PowerOfTen(2) == 100 && PowerOfTen(3) == 1000
    ensures PowerOfTen(4) == 10000 && PowerOfTen(5) == 100000 && PowerOfTen(6) == 1000000
    ensures PowerOfTen(7) == 10000000 && PowerOfTen(8) == 100000000
  {
    assert PowerOfTen(2) == 100;
    assert PowerOfTen(4) == 10000;
    assert PowerOfTen(6) == 1000000;
  }

  /** A rate is its value times its unit of 100 kbit/s, 1, 10 or 100 Mbit/s; reserved codes give 0. */
  lemma RateMeans(e: nat, m: nat, tenths: nat)
    ensures e < 4 && InTenths(m, tenths) ==> 10 * Rate(e, m) == PowerOfTen(e + 5) * tenths
    ensures e >= 4 || m == 0 || m >= 16 ==> Rate(e, m) == 0
  {
    hide PowerOfTen;
    PowersOfTen();
    if e < 4 && InTenths(m, tenths) {
      assert 10 * TRAN_EXP[e] == PowerOfTen(e + 5) && TRAN_MANT[m] == tenths;
      Product3(TRAN_EXP[e], tenths, PowerOfTen(e + 5));
    }
  }

  lemma Product3(unit: nat, tenths: nat, u: nat)
    requires 10 * unit == u
    ensures 10 * (unit * tenths) == u * tenths
  {
  }

  /** The default and the high-speed rate of SD cards. */
  lemma UsualRates()
    ensures Rate(2, 6) == 25_000_000 && Rate(2, 11) == 50_000_000
  {
  }

  /** An access time is the smallest number of nanoseconds that is not below value times unit. */
  lemma AccessTimeMeans(e: nat, m: nat, tenths: nat)
    requires e < 8 && (InTenths(m, tenths) || m == tenths == 0)
    ensures 10 * (AccessTime(e, m) - 1) < PowerOfTen(e) * tenths <= 10 * AccessTime(e, m)
  {
    hide PowerOfTen;
    PowersOfTen();
    assert TACC_EXP[e] == PowerOfTen(e) && TACC_MANT[m] == tenths;
  }

  /** The capacity in blocks: for version 1 from size and multiplier; for version 2 in units of 512 KB,
      except that the largest size, 2 TB, comes out as 0. */
  lemma CapacityMeans(card: nat, was: Csd)
    ensures Field(card, 126, 2) == 0 ==>
              CsdOf(card, was).capacity == (Field(card, 62, 12) + 1) * Pow2(Field(card, 47, 3) + 2)
    ensures Field(card, 126, 2) == 1 ==>
              (CsdOf(card, was).capacity * 512 == (Field(card, 48, 22) + 1) * (512 * 1024) <==>
               Field(card, 48, 22) != 0x3F_FFFF)
              && (Field(card, 48, 22) == 0x3F_FFFF ==> CsdOf(card, was).capacity == 0)
  {
    hide Pow2, Field, Rate, AccessTime, EraseSizeOf;
    FieldBound(card, 48, 22);
  }

  lemma FieldBound(x: nat, start: nat, size: nat)
    ensures Field(x, start, size) < Pow2(size)
    ensures Pow2(22) == 0x40_0000
  {
    assert Pow2(11) == 2048;
    Pow2Sum(11, 11);
  }

  /** The smallest unit of erase in sectors: one, or the sector size of version 1 in write blocks of at
      least 512 bytes. */
  lemma EraseSizeMeans(card: nat, was: Csd)
    requires Field(card, 126, 2) < 2
    ensures Field(card, 126, 2) == 1 || Field(card, 46, 1) == 1 ==> CsdOf(card, was).eraseSize == 1
    ensures Field(card, 126, 2) == 0 && Field(card, 46, 1) == 0 && Field(card, 22, 4) >= 9 ==>
              CsdOf(card, was).eraseSize * 512 == (Field(card, 39, 7) + 1) * Pow2(Field(card, 22, 4))
    ensures Field(card, 126, 2) == 0 && Field(card, 46, 1) == 0 && Field(card, 22, 4) < 9 ==>
              CsdOf(card, was).eraseSize == was.eraseSize
  {
    hide Pow2, Field, Rate, AccessTime;
    var n, b := Field(card, 39, 7) + 1, Field(card, 22, 4);
    if b >= 9 {
      FieldBound(card, 39, 7);
      FieldBound(card, 22, 4);
      SmallPowers();
      Pow2Sum(9, b - 9);
      if b - 9 < 7 {
        Pow2Below(b - 9, 7);
      }
      EraseFits(n, Pow2(b - 9));
    }
  }

  lemma SmallPowers()
    ensures Pow2(4) == 16 && Pow2(7) == 128 && Pow2(9) == 512
  {
  }

  lemma EraseFits(n: nat, p: nat)
    requires n <= 128 && p < 128
    ensures n * p % TWO32 == n * p && n * p * 512 == n * (512 * p)
  {
    assert n * p <= 128 * 128;
  }

  /** The card as the decoders fill it in. */
  class Card {
    var rawCid: seq<Word>
    var rawCsd: seq<Word>
    var cid: Cid
    var csd: Csd
    var eraseSize: int

    constructor (rawCid: seq<Word>, rawCsd: seq<Word>, csd: Csd)
      ensures this.rawCid == rawCid && this.rawCsd == rawCsd && this.csd == csd
    {
      this.rawCid, this.rawCsd, this.csd, eraseSize := rawCid, rawCsd, csd, 0;
      cid := Cid(0, 0, [], 0, 0, 0, 0, 0);
    }

    /** mmc_sd_decode_cid: the fields of the register as the card sent it. */
    method DecodeCid(ghost r: nat, ghost card: nat)
      requires Holds(rawCid, r * 0x100) && Delivers(r, card)
      modifies this`cid
      ensures cid == CidOf(card)
    {
      hide Field, Pow2, UnstuffBits, Holds, Delivers;
      ghost var resp := rawCid;
      HoldsFour(resp, r * 0x100);
      ReadCidFields(r, card, resp);
      var name := [UnstuffBits(rawCid, 96, 8), UnstuffBits(rawCid, 88, 8), UnstuffBits(rawCid, 80, 8),
                   UnstuffBits(rawCid, 72, 8), UnstuffBits(rawCid, 64, 8)];
      cid := Cid(UnstuffBits(rawCid, 120, 8), UnstuffBits(rawCid, 104, 16), name, UnstuffBits(rawCid, 60, 4),
                 UnstuffBits(rawCid, 56, 4), UnstuffBits(rawCid, 24, 32), UnstuffBits(rawCid, 12, 8),
                 UnstuffBits(rawCid, 8, 4));
      cid := cid.(year := cid.year + 2000);
    }

    /** mmc_sd_decode_csd: an unknown structure version is an error and changes nothing. */
    method DecodeCsd(ghost r: nat, ghost card: nat) returns (err: int)
      requires Holds(rawCsd, r * 0x100) && Delivers(r, card)
      modifies this`csd, this`eraseSize
      ensures err == if Field(card, 126, 2) < 2 then 0 else -1
      ensures err == 0 ==> csd == CsdOf(card, old(csd)) && eraseSize == csd.eraseSize
      ensures err != 0 ==> csd == old(csd) && eraseSize == old(eraseSize)
    {
      hide Field, Pow2, UnstuffBits, Holds, Delivers, Rate, AccessTime;
      HoldsFour(rawCsd, r * 0x100);
      ReadCsdFields(r, card, rawCsd);
      var structure := UnstuffBits(rawCsd, 126, 2);
      if structure == 0 {
        var m, e := UnstuffBits(rawCsd, 115, 4), UnstuffBits(rawCsd, 112, 3);
        csd := csd.(taccNs := AccessTime(e, m), taccClks := UnstuffBits(rawCsd, 104, 8) * 100);
        m, e := UnstuffBits(rawCsd, 99, 4), UnstuffBits(rawCsd, 96, 3);
        csd := csd.(maxDtr := Rate(e, m), cmdclass := UnstuffBits(rawCsd, 84, 12));
        e, m := UnstuffBits(rawCsd, 47, 3), UnstuffBits(rawCsd, 62, 12);
        csd := csd.(capacity := (1 + m) * Pow2(e + 2), readBlkbits := UnstuffBits(rawCsd, 80, 4),
                    readPartial := UnstuffBits(rawCsd, 79, 1), writeMisalign := UnstuffBits(rawCsd, 78, 1),
                    readMisalign := UnstuffBits(rawCsd, 77, 1), dsrImp := UnstuffBits(rawCsd, 76, 1),
                    r2wFactor := UnstuffBits(rawCsd, 26, 3), writeBlkbits := UnstuffBits(rawCsd, 22, 4),
                    writePartial := UnstuffBits(rawCsd, 21, 1));
        if UnstuffBits(rawCsd, 46, 1) != 0 {
          csd := csd.(eraseSize := 1);
        } else if csd.writeBlkbits >= 9 {
          csd := csd.(eraseSize := (UnstuffBits(rawCsd, 39, 7) + 1) * Pow2(csd.writeBlkbits - 9) % TWO32);
        }
      } else if structure == 1 {
        csd := csd.(taccNs := 0, taccClks := 0);
        var m, e := UnstuffBits(rawCsd, 99, 4), UnstuffBits(rawCsd, 96, 3);
        csd := csd.(maxDtr := Rate(e, m), cmdclass := UnstuffBits(rawCsd, 84, 12),
                    cSize := UnstuffBits(rawCsd, 48, 22));
        m := UnstuffBits(rawCsd, 48, 22);
        csd := csd.(capacity := (1 + m) * 0x400 % TWO32, readBlkbits := 9, readPartial := 0, writeMisalign := 0,
                    readMisalign := 0, r2wFactor := 4, writeBlkbits := 9, writePartial := 0, eraseSize := 1);
      } else {
        return -1;
      }
      eraseSize := csd.eraseSize;
      err := 0;
    }
  }

  lemma HoldsFour(resp: seq<Word>, x: nat)
    requires Holds(resp, x)
    ensures |resp| == 4
  {
  }

  lemma ReadCidFields(r: nat, card: nat, resp: seq<Word>)
    requires Holds(resp, r * 0x100) && Delivers(r, card)
    ensures UnstuffBits(resp, 120, 8) == Field(card, 120, 8) && UnstuffBits(resp, 104, 16) == Field(card, 104, 16)
    ensures UnstuffBits(resp, 96, 8) == Field(card, 96, 8) && UnstuffBits(resp, 88, 8) == Field(card, 88, 8)
    ensures UnstuffBits(resp, 80, 8) == Field(card, 80, 8) && UnstuffBits(resp, 72, 8) == Field(card, 72, 8)
    ensures UnstuffBits(resp, 64, 8) == Field(card, 64, 8) && UnstuffBits(resp, 60, 4) == Field(card, 60, 4)
    ensures UnstuffBits(resp, 56, 4) == Field(card, 56, 4) && UnstuffBits(resp, 24, 32) == Field(card, 24, 32)
    ensures UnstuffBits(resp, 12, 8) == Field(card, 12, 8) && UnstuffBits(resp, 8, 4) == Field(card, 8, 4)
  {
    hide Field, Pow2, UnstuffBits, Delivers;
    UnstuffReadsCard(r, card, resp, 120, 8);
    UnstuffReadsCard(r, card, resp, 104, 16);
    UnstuffReadsCard(r, card, resp, 96, 8);
    UnstuffReadsCard(r, card, resp, 88, 8);
    UnstuffReadsCard(r, card, resp, 80, 8);
    UnstuffReadsCard(r, card, resp, 72, 8);
    UnstuffReadsCard(r, card, resp, 64, 8);
    UnstuffReadsCard(r, card, resp, 60, 4);
    UnstuffReadsCard(r, card, resp, 56, 4);
    UnstuffReadsCard(r, card, resp, 24, 32);
    UnstuffReadsCard(r, card, resp, 12, 8);
    UnstuffReadsCard(r, card, resp, 8, 4);
  }

  lemma ReadCsdFields(r: nat, card: nat, resp: seq<Word>)
    requires Holds(resp, r * 0x100) && Delivers(r, card)
    ensures UnstuffBits(resp, 126, 2) == Field(card, 126, 2) && UnstuffBits(resp, 115, 4) == Field(card, 115, 4)
    ensures UnstuffBits(resp, 112, 3) == Field(card, 112, 3) && UnstuffBits(resp, 104, 8) == Field(card, 104, 8)
    ensures UnstuffBits(resp, 99, 4) == Field(card, 99, 4) && UnstuffBits(resp, 96, 3) == Field(card, 96, 3)
    ensures UnstuffBits(resp, 84, 12) == Field(card, 84, 12) && UnstuffBits(resp, 80, 4) == Field(card, 80, 4)
    ensures UnstuffBits(resp, 79, 1) == Field(card, 79, 1) && UnstuffBits(resp, 78, 1) == Field(card, 78, 1)
    ensures UnstuffBits(resp, 77, 1) == Field(card, 77, 1) && UnstuffBits(resp, 76, 1) == Field(card, 76, 1)
    ensures UnstuffBits(resp, 62, 12) == Field(card, 62, 12) && UnstuffBits(resp, 48, 22) == Field(card, 48, 22)
    ensures UnstuffBits(resp, 47, 3) == Field(card, 47, 3) && UnstuffBits(resp, 46, 1) == Field(card, 46, 1)
    ensures UnstuffBits(resp, 39, 7) == Field(card, 39, 7) && UnstuffBits(resp, 26, 3) == Field(card, 26, 3)
    ensures UnstuffBits(resp, 22, 4) == Field(card, 22, 4) && UnstuffBits(resp, 21, 1) == Field(card, 21, 1)
  {
    hide Field, Pow2, UnstuffBits, Delivers;
    UnstuffReadsCard(r, card, resp, 126, 2);
    UnstuffReadsCard(r, card, resp, 115, 4);
    UnstuffReadsCard(r, card, resp, 112, 3);
    UnstuffReadsCard(r, card, resp, 104, 8);
    UnstuffReadsCard(r, card, resp, 99, 4);
    UnstuffReadsCard(r, card, resp, 96, 3);
    UnstuffReadsCard(r, card, resp, 84, 12);
    UnstuffReadsCard(r, card, resp, 80, 4);
    UnstuffReadsCard(r, card, resp, 79, 1);
    UnstuffReadsCard(r, card, resp, 78, 1);
    UnstuffReadsCard(r, card, resp, 77, 1);
    UnstuffReadsCard(r, card, resp, 76, 1);
    UnstuffReadsCard(r, card, resp, 62, 12);
    UnstuffReadsCard(r, card, resp, 48, 22);
    UnstuffReadsCard(r, card, resp, 47, 3);
    UnstuffReadsCard(r, card, resp, 46, 1);
    UnstuffReadsCard(r, card, resp, 39, 7);
    UnstuffReadsCard(r, card, resp, 26, 3);
    UnstuffReadsCard(r, card, resp, 22, 4);
    UnstuffReadsCard(r, card, resp, 21, 1);
  }
}
