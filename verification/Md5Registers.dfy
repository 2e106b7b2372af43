/** The steps of the firmware's MD5 block function: 32-bit words held in 64-bit `unsigned long`
    registers, whose upper halves collect carries and shifted-out bits (common/md5.c). */
module Md5Registers {
  import opened MachineWords
  import opened Md5Rfc

  type Register = DoubleWord

  /** The 32-bit word a register stands for; its upper half is garbage. */
  function Low(r: Register): Word { r % TWO32 }

  function RegAdd(a: nat, b: nat): Register { (a + b) % TWO64 }

  function RegOp(op: Op, a: Register, b: Register): Register {
    Pow2Widths();
    BitwiseBound(op, a, b, 64);
    Bitwise(op, a, b)
  }

  function RegNot(a: Register): Register { 0xffff_ffff_ffff_ffff - a }

  // The macros F, G, H, I and ROTATE of common/md5.c.

  function RegF(b: Register, c: Register, d: Register): Register {
    RegOp(Xor, RegOp(And, RegOp(Xor, c, d), b), d)
  }

  function RegG(b: Register, c: Register, d: Register): Register {
    RegOp(Xor, RegOp(And, RegOp(Xor, b, c), d), c)
  }

  function RegH(b: Register, c: Register, d: Register): Register {
    RegOp(Xor, RegOp(Xor, b, c), d)
  }

  function RegI(b: Register, c: Register, d: Register): Register {
    RegOp(Xor, RegOp(Or, RegNot(d), b), c)
  }

  function RegMix(round: nat, b: Register, c: Register, d: Register): Register {
    if round == 1 then RegF(b, c, d)
    else if round == 2 then RegG(b, c, d)
    else if round == 3 then RegH(b, c, d)
    else RegI(b, c, d)
  }

  function Rotate(a: Register, n: Amount): Register {
    var masked := RegOp(And, a, 0xffff_ffff);
    ShiftRightShrinks(masked, 32 - n);
    RegOp(Or, ShiftLeft(a, n) % TWO64, ShiftRight(masked, 32 - n))
  }

  lemma {:induction false} ShiftRightShrinks(x: nat, s: nat)
    ensures ShiftRight(x, s) <= x
  {
    if s > 0 {
      ShiftRightShrinks(x / 2, s - 1);
    }
  }

  // ---------- each macro computes the RFC's function on the low halves ----------

  lemma LowAdd(a: nat, b: nat)
    ensures Low(RegAdd(a, b)) == Add(a % TWO32, b % TWO32)
  {
    LowHalf(a + b);
  }

  lemma LowOp(op: Op, a: Register, b: Register)
    ensures Low(RegOp(op, a, b)) == Bitwise(op, Low(a), Low(b))
  {
    Pow2Widths();
    BitwiseLow(op, a, b, 32);
  }

  lemma LowNot(a: Register)
    ensures Low(RegNot(a)) == Not(Low(a))
  {
  }

  /** The rewritten forms of F and G agree with the RFC's, bit by bit. */
  lemma {:induction false} FormF(b: nat, c: nat, d: nat, n: nat)
    requires b < Pow2(n) && c < Pow2(n) && d < Pow2(n)
    ensures Bitwise(Xor, Bitwise(And, Bitwise(Xor, c, d), b), d)
         == Bitwise(Or, Bitwise(And, b, c), Bitwise(And, Pow2(n) - 1 - b, d))
  {
    if n > 0 {
      FormF(b / 2, c / 2, d / 2, n - 1);
      var nb := Pow2(n) - 1 - b;
      BitwiseStep(Xor, c, d);
      BitwiseStep(And, Bitwise(Xor, c, d), b);
      BitwiseStep(Xor, Bitwise(And, Bitwise(Xor, c, d), b), d);
      BitwiseStep(And, b, c);
      BitwiseStep(And, nb, d);
      BitwiseStep(Or, Bitwise(And, b, c), Bitwise(And, nb, d));
      assert nb / 2 == Pow2(n - 1) - 1 - b / 2;
    }
  }

  lemma {:induction false} FormG(b: nat, c: nat, d: nat, n: nat)
    requires b < Pow2(n) && c < Pow2(n) && d < Pow2(n)
    ensures Bitwise(Xor, Bitwise(And, Bitwise(Xor, b, c), d), c)
         == Bitwise(Or, Bitwise(And, b, d), Bitwise(And, c, Pow2(n) - 1 - d))
  {
    if n > 0 {
      FormG(b / 2, c / 2, d / 2, n - 1);
      var nd := Pow2(n) - 1 - d;
      BitwiseStep(Xor, b, c);
      BitwiseStep(And, Bitwise(Xor, b, c), d);
      BitwiseStep(Xor, Bitwise(And, Bitwise(Xor, b, c), d), c);
      BitwiseStep(And, b, d);
      BitwiseStep(And, c, nd);
      BitwiseStep(Or, Bitwise(And, b, d), Bitwise(And, c, nd));
      assert nd / 2 == Pow2(n - 1) - 1 - d / 2;
    }
  }

  lemma LowMix(round: nat, b: Register, c: Register, d: Register)
    ensures Low(RegMix(round, b, c, d)) == Mix(round, Low(b), Low(c), Low(d))
  {
    Pow2Widths();
    if round == 1 {
      LowOp(Xor, c, d);
      LowOp(And, RegOp(Xor, c, d), b);
      LowOp(Xor, RegOp(And, RegOp(Xor, c, d), b), d);
      FormF(Low(b), Low(c), Low(d), 32);
    } else if round == 2 {
      LowOp(Xor, b, c);
      LowOp(And, RegOp(Xor, b, c), d);
      LowOp(Xor, RegOp(And, RegOp(Xor, b, c), d), c);
      FormG(Low(b), Low(c), Low(d), 32);
    } else if round == 3 {
      LowOp(Xor, b, c);
      LowOp(Xor, RegOp(Xor, b, c), d);
    } else {
      LowNot(d);
      LowOp(Or, RegNot(d), b);
      LowOp(Xor, RegOp(Or, RegNot(d), b), c);
      Commute(Or, Not(Low(d)), Low(b));
      Commute(Xor, Bitwise(Or, Low(b), Not(Low(d))), Low(c));
    }
  }

  lemma LowProduct(a: nat, p: nat)
    ensures a * p % TWO32 == a % TWO32 * p % TWO32
  {
    var q := a / TWO32;
    assert a * p == a % TWO32 * p + q * p * TWO32;
    Split(a % TWO32 * p, TWO32);
    DivModUnique(a * p, TWO32, a % TWO32 * p / TWO32 + q * p, a % TWO32 * p % TWO32);
  }

  lemma LowShift(a: Register, n: Amount, u: Register)
    requires u == ShiftLeft(a, n) % TWO64
    ensures u % TWO32 == ShiftLeft(Low(a), n) % TWO32
  {
    LowHalf(ShiftLeft(a, n));
    ShiftLeftPow2(a, n);
    ShiftLeftPow2(Low(a), n);
    LowProduct(a, Pow2(n));
  }

  lemma ShiftedOut(a: Register, n: Amount, u: Register)
    requires u == ShiftLeft(a, n) % TWO64
    ensures u % Pow2(n) == 0
  {
    Pow2Sum(64 - n, n);
    Pow2Widths();
    ShiftLeftPow2(a, n);
    ModProduct(ShiftLeft(a, n), Pow2(64 - n), Pow2(n), TWO64);
    DivModUnique(ShiftLeft(a, n), Pow2(n), a, 0);
  }

  lemma LowRotate(a: Register, n: Amount)
    ensures Low(Rotate(a, n)) == RotateLeft(Low(a), n)
  {
    hide Bitwise, ShiftLeft, ShiftRight, Pow2;
    Pow2Widths();
    AndMask(a, 32);
    var u, v := ShiftLeft(a, n) % TWO64, ShiftRight(Low(a), 32 - n);
    RotateFits(Low(a), n);
    LowShift(a, n, u);
    ShiftedOut(a, n, u);
    OrDisjoint(u, v, n);
    assert Rotate(a, n) == u + v;
  }

  // ---------- the block function, one block ----------

  lemma RunStep(es: seq<Entry>, i: nat, s: Chain, x: seq<Word>)
    requires i < |es| && |x| == 16
    ensures Run(es[i..], s, x) == Run(es[i + 1..], Step(es[i], s, x), x)
  {
    hide Step;
  }

  lemma AddCommutes(a: Word, b: Word)
    ensures Add(a, b) == Add(b, a)
  {
  }

  /** Sums modulo m in any order. */
  lemma SumOrder(a: nat, f: nat, k: nat, t: nat, m: nat)
    requires m > 0
    ensures (a + ((k + t) % m + f) % m) % m == (((a + f) % m + k) % m + t) % m
  {
    AddModulo(k + t, f, m);
    AddModulo(k + t + f, a, m);
    AddModulo(a + f, k, m);
    AddModulo(a + f + k, t, m);
  }

  lemma AddOrder(a: Word, f: Word, k: Word, t: Word)
    ensures Add(a, Add(Add(k, t), f)) == Add(Add(Add(a, f), k), t)
  {
    SumOrder(a, f, k, t, TWO32);
  }

  lemma RunEnd(es: seq<Entry>, s: Chain, x: seq<Word>)
    requires |es| == 0 && |x| == 16
    ensures Run(es, s, x) == s
  {
  }

  function LowChain(a: Register, b: Register, c: Register, d: Register): Chain {
    Chain(Low(a), Low(b), Low(c), Low(d))
  }

  /** The macros R0 to R3 (which differ in the mixing function only) on a 64-bit register; the
      ghost table es says which operation of section 3.4 this use stands for. */
  method R(round: nat, a0: Register, b: Register, c: Register, d: Register, k: Index, s: Amount, t: Word,
           xx: seq<Register>, ghost es: seq<Entry>, ghost i: nat, ghost x: seq<Word>)
    returns (a: Register)
    requires i < |es| && es[i] == Entry(round, k, s, t)
    requires |xx| == |x| == 16 && Low(xx[k]) == x[k]
    ensures Run(es[i..], LowChain(a0, b, c, d), x) == Run(es[i + 1..], LowChain(d, a, b, c), x)
  {
    hide Rotate, RegMix, Mix, RotateLeft, Run, RegAdd, Add;
    var f := RegMix(round, b, c, d);
    a := RegAdd(a0, RegAdd(RegAdd(xx[k], t), f));
    LowMix(round, b, c, d);
    LowAdd(xx[k], t);
    LowAdd(RegAdd(xx[k], t), f);
    LowAdd(a0, RegAdd(RegAdd(xx[k], t), f));
    AddOrder(Low(a0), Low(f), x[k], t);
    assert Low(a) == Add(Add(Add(Low(a0), Low(f)), x[k]), t);
    LowRotate(a, s);
    a := Rotate(a, s);
    LowAdd(a, b);
    AddCommutes(Low(a), Low(b));
    a := RegAdd(a, b);
    RunStep(es, i, LowChain(a0, b, c, d), x);
  }

  method Round1(a0: Register, b0: Register, c0: Register, d0: Register, xx: seq<Register>, ghost x: seq<Word>)
    returns (a: Register, b: Register, c: Register, d: Register)
    requires |xx| == |x| == 16 && forall j :: 0 <= j < 16 ==> Low(xx[j]) == x[j]
    ensures LowChain(a, b, c, d) == Run(ROUND1, LowChain(a0, b0, c0, d0), x)
  {
    hide Run, Low, LowChain;
    ghost var es := ROUND1;
    a, b, c, d := a0, b0, c0, d0;
    assert es[0..] == es;
    a := R(1, a, b, c, d, 0, 7, 0xd76aa478, xx, es, 0, x);
    d := R(1, d, a, b, c, 1, 12, 0xe8c7b756, xx, es, 1, x);
    c := R(1, c, d, a, b, 2, 17, 0x242070db, xx, es, 2, x);
    b := R(1, b, c, d, a, 3, 22, 0xc1bdceee, xx, es, 3, x);
    a := R(1, a, b, c, d, 4, 7, 0xf57c0faf, xx, es, 4, x);
    d := R(1, d, a, b, c, 5, 12, 0x4787c62a, xx, es, 5, x);
    c := R(1, c, d, a, b, 6, 17, 0xa8304613, xx, es, 6, x);
    b := R(1, b, c, d, a, 7, 22, 0xfd469501, xx, es, 7, x);
    a := R(1, a, b, c, d, 8, 7, 0x698098d8, xx, es, 8, x);
    d := R(1, d, a, b, c, 9, 12, 0x8b44f7af, xx, es, 9, x);
    c := R(1, c, d, a, b, 10, 17, 0xffff5bb1, xx, es, 10, x);
    b := R(1, b, c, d, a, 11, 22, 0x895cd7be, xx, es, 11, x);
    a := R(1, a, b, c, d, 12, 7, 0x6b901122, xx, es, 12, x);
    d := R(1, d, a, b, c, 13, 12, 0xfd987193, xx, es, 13, x);
    c := R(1, c, d, a, b, 14, 17, 0xa679438e, xx, es, 14, x);
    b := R(1, b, c, d, a, 15, 22, 0x49b40821, xx, es, 15, x);
    RunEnd(es[16..], LowChain(a, b, c, d), x);
  }

  method Round2(a0: Register, b0: Register, c0: Register, d0: Register, xx: seq<Register>, ghost x: seq<Word>)
    returns (a: Register, b: Register, c: Register, d: Register)
    requires |xx| == |x| == 16 && forall j :: 0 <= j < 16 ==> Low(xx[j]) == x[j]
    ensures LowChain(a, b, c, d) == Run(ROUND2, LowChain(a0, b0, c0, d0), x)
  {
    hide Run, Low, LowChain;
    ghost var es := ROUND2;
    a, b, c, d := a0, b0, c0, d0;
    assert es[0..] == es;
    a := R(2, a, b, c, d, 1, 5, 0xf61e2562, xx, es, 0, x);
    d := R(2, d, a, b, c, 6, 9, 0xc040b340, xx, es, 1, x);
    c := R(2, c, d, a, b, 11, 14, 0x265e5a51, xx, es, 2, x);
    b := R(2, b, c, d, a, 0, 20, 0xe9b6c7aa, xx, es, 3, x);
    a := R(2, a, b, c, d, 5, 5, 0xd62f105d, xx, es, 4, x);
    d := R(2, d, a, b, c, 10, 9, 0x02441453, xx, es, 5, x);
    c := R(2, c, d, a, b, 15, 14, 0xd8a1e681, xx, es, 6, x);
    b := R(2, b, c, d, a, 4, 20, 0xe7d3fbc8, xx, es, 7, x);
    a := R(2, a, b, c, d, 9, 5, 0x21e1cde6, xx, es, 8, x);
    d := R(2, d, a, b, c, 14, 9, 0xc33707d6, xx, es, 9, x);
    c := R(2, c, d, a, b, 3, 14, 0xf4d50d87, xx, es, 10, x);
    b := R(2, b, c, d, a, 8, 20, 0x455a14ed, xx, es, 11, x);
    a := R(2, a, b, c, d, 13, 5, 0xa9e3e905, xx, es, 12, x);
    d := R(2, d, a, b, c, 2, 9, 0xfcefa3f8, xx, es, 13, x);
    c := R(2, c, d, a, b, 7, 14, 0x676f02d9, xx, es, 14, x);
    b := R(2, b, c, d, a, 12, 20, 0x8d2a4c8a, xx, es, 15, x);
    RunEnd(es[16..], LowChain(a, b, c, d), x);
  }

  method Round3(a0: Register, b0: Register, c0: Register, d0: Register, xx: seq<Register>, ghost x: seq<Word>)
    returns (a: Register, b: Register, c: Register, d: Register)
    requires |xx| == |x| == 16 && forall j :: 0 <= j < 16 ==> Low(xx[j]) == x[j]
    ensures LowChain(a, b, c, d) == Run(ROUND3, LowChain(a0, b0, c0, d0), x)
  {
    hide Run, Low, LowChain;
    ghost var es := ROUND3;
    a, b, c, d := a0, b0, c0, d0;
    assert es[0..] == es;
    a := R(3, a, b, c, d, 5, 4, 0xfffa3942, xx, es, 0, x);
    d := R(3, d, a, b, c, 8, 11, 0x8771f681, xx, es, 1, x);
    c := R(3, c, d, a, b, 11, 16, 0x6d9d6122, xx, es, 2, x);
    b := R(3, b, c, d, a, 14, 23, 0xfde5380c, xx, es, 3, x);
    a := R(3, a, b, c, d, 1, 4, 0xa4beea44, xx, es, 4, x);
    d := R(3, d, a, b, c, 4, 11, 0x4bdecfa9, xx, es, 5, x);
    c := R(3, c, d, a, b, 7, 16, 0xf6bb4b60, xx, es, 6, x);
    b := R(3, b, c, d, a, 10, 23, 0xbebfbc70, xx, es, 7, x);
    a := R(3, a, b, c, d, 13, 4, 0x289b7ec6, xx, es, 8, x);
    d := R(3, d, a, b, c, 0, 11, 0xeaa127fa, xx, es, 9, x);
    c := R(3, c, d, a, b, 3, 16, 0xd4ef3085, xx, es, 10, x);
    b := R(3, b, c, d, a, 6, 23, 0x04881d05, xx, es, 11, x);
    a := R(3, a, b, c, d, 9, 4, 0xd9d4d039, xx, es, 12, x);
    d := R(3, d, a, b, c, 12, 11, 0xe6db99e5, xx, es, 13, x);
    c := R(3, c, d, a, b, 15, 16, 0x1fa27cf8, xx, es, 14, x);
    b := R(3, b, c, d, a, 2, 23, 0xc4ac5665, xx, es, 15, x);
    RunEnd(es[16..], LowChain(a, b, c, d), x);
  }

  method Round4(a0: Register, b0: Register, c0: Register, d0: Register, xx: seq<Register>, ghost x: seq<Word>)
    returns (a: Register, b: Register, c: Register, d: Register)
    requires |xx| == |x| == 16 && forall j :: 0 <= j < 16 ==> Low(xx[j]) == x[j]
    ensures LowChain(a, b, c, d) == Run(ROUND4, LowChain(a0, b0, c0, d0), x)
  {
    hide Run, Low, LowChain;
    ghost var es := ROUND4;
    a, b, c, d := a0, b0, c0, d0;
    assert es[0..] == es;
    a := R(4, a, b, c, d, 0, 6, 0xf4292244, xx, es, 0, x);
    d := R(4, d, a, b, c, 7, 10, 0x432aff97, xx, es, 1, x);
    c := R(4, c, d, a, b, 14, 15, 0xab9423a7, xx, es, 2, x);
    b := R(4, b, c, d, a, 5, 21, 0xfc93a039, xx, es, 3, x);
    a := R(4, a, b, c, d, 12, 6, 0x655b59c3, xx, es, 4, x);
    d := R(4, d, a, b, c, 3, 10, 0x8f0ccc92, xx, es, 5, x);
    c := R(4, c, d, a, b, 10, 15, 0xffeff47d, xx, es, 6, x);
    b := R(4, b, c, d, a, 1, 21, 0x85845dd1, xx, es, 7, x);
    a := R(4, a, b, c, d, 8, 6, 0x6fa87e4f, xx, es, 8, x);
    d := R(4, d, a, b, c, 15, 10, 0xfe2ce6e0, xx, es, 9, x);
    c := R(4, c, d, a, b, 6, 15, 0xa3014314, xx, es, 10, x);
    b := R(4, b, c, d, a, 13, 21, 0x4e0811a1, xx, es, 11, x);
    a := R(4, a, b, c, d, 4, 6, 0xf7537e82, xx, es, 12, x);
    d := R(4, d, a, b, c, 11, 10, 0xbd3af235, xx, es, 13, x);
    c := R(4, c, d, a, b, 2, 15, 0x2ad7d2bb, xx, es, 14, x);
    b := R(4, b, c, d, a, 9, 21, 0xeb86d391, xx, es, 15, x);
    RunEnd(es[16..], LowChain(a, b, c, d), x);
  }

  /** HOST_c2l: the j-th group of four bytes, low-order byte first, `or`ed into a register. */
  function HostC2l(data: seq<Byte>, j: nat): Register
    requires 4 * j + 4 <= |data|
  {
    var l := data[4 * j];
    var l := RegOp(Or, l, 0x100 * (data[4 * j + 1] as nat));
    var l := RegOp(Or, l, 0x1_0000 * (data[4 * j + 2] as nat));
    RegOp(Or, l, 0x100_0000 * (data[4 * j + 3] as nat))
  }

  lemma HostC2lIsWord(data: seq<Byte>, j: nat)
    requires 4 * j + 4 <= |data|
    ensures Low(HostC2l(data, j)) == WordAt(data, j)
  {
    hide Bitwise, Pow2;
    Pow2Widths();
    assert Pow2(24) == 0x100_0000 by { Pow2Sum(8, 16); }
    var b0, b1, b2, b3 := data[4 * j] as nat, data[4 * j + 1] as nat, data[4 * j + 2] as nat, data[4 * j + 3] as nat;
    OrDisjoint(0x100 * b1, b0, 8);
    OrDisjoint(0x1_0000 * b2, b0 + 0x100 * b1, 16);
    OrDisjoint(0x100_0000 * b3, b0 + 0x100 * b1 + 0x1_0000 * b2, 24);
  }

  /** The body of the loop of md5_block_data_order: the new A, B, C, D of the context. */
  method OneBlock(s: Chain, block: seq<Byte>) returns (t: Chain)
    requires |block| == 64
    ensures t == Compress(s, block)
  {
    hide Run, RegOp, HostC2l, WordAt, Low, RegAdd, Add;
    LowOfWords(s);
    ghost var x := Words(block);
    var xx := seq(16, j requires 0 <= j < 16 => HostC2l(block, j));
    forall j | 0 <= j < 16
      ensures Low(xx[j]) == x[j]
    {
      HostC2lIsWord(block, j);
    }
    var a, b, c, d := Round1(s.a, s.b, s.c, s.d, xx, x);
    a, b, c, d := Round2(a, b, c, d, xx, x);
    a, b, c, d := Round3(a, b, c, d, xx, x);
    a, b, c, d := Round4(a, b, c, d, xx, x);
    // c->A += A and so on store the low 32 bits.
    LowStore(s.a, a);
    LowStore(s.b, b);
    LowStore(s.c, c);
    LowStore(s.d, d);
    t := Chain(Low(RegAdd(s.a, a)), Low(RegAdd(s.b, b)), Low(RegAdd(s.c, c)), Low(RegAdd(s.d, d)));
  }

  lemma LowOfWords(s: Chain)
    ensures LowChain(s.a, s.b, s.c, s.d) == s
  {
  }

  lemma LowStore(w: Word, r: Register)
    ensures Low(RegAdd(w, r)) == Add(w, Low(r))
  {
    LowAdd(w, r);
  }
}
