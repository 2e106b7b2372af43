/** The table-driven CRC of common/crc16.c, generator polynomial x^16 + x^12 + x^5 + 1: it is
    polynomial division, and it detects every burst of at most 16 bits and every error of odd weight. */
module Crc16 {
  import opened MachineWords

  type Sum = c: nat | c < 0x1_0000

  // ---------- polynomials over GF(2): bits, highest power first ----------

  type Poly = seq<bool>

  function Add(p: Poly, q: Poly): (r: Poly)
    requires |p| == |q|
    ensures |r| == |p|
    ensures forall i :: 0 <= i < |p| ==> r[i] == (p[i] != q[i])
  {
    seq(|p|, i requires 0 <= i < |p| => p[i] != q[i])
  }

  function Zero(n: nat): (z: Poly)
    ensures |z| == n && forall i :: 0 <= i < n ==> !z[i]
  {
    seq(n, _ => false)
  }

  /** The generator without its leading term: x^12 + x^5 + 1. */
  const G16: Poly := [false, false, false, true, false, false, false, false,
                      false, false, true, false, false, false, false, true]

  /** Long division of a dividend of at least 16 bits: the remainder's 16 bits. */
  function Remainder(d: Poly): (r: Poly)
    requires |d| >= 16
    ensures |r| == 16
    decreases |d|
  {
    if |d| == 16 then d
    else Remainder(BringDown(d))
  }

  function Quotient(d: Poly): (q: Poly)
    requires |d| >= 16
    ensures |q| == |d| - 16
    decreases |d|
  {
    if |d| == 16 then []
    else [d[0]] + Quotient(BringDown(d))
  }

  /** The product of q and the generator. */
  function TimesGenerator(q: Poly): (p: Poly)
    ensures |p| == |q| + 16
  {
    if |q| == 0 then Zero(16)
    else
      var rest := [false] + TimesGenerator(q[1..]);
      if q[0] then Add([true] + G16 + Zero(|q| - 1), rest) else rest
  }

  lemma AddAssociative(p: Poly, q: Poly, r: Poly)
    requires |p| == |q| == |r|
    ensures Add(p, Add(q, r)) == Add(Add(p, q), r)
  {
  }

  lemma AddPrefixed(p: Poly, q: Poly)
    requires |p| == |q|
    ensures [false] + Add(p, q) == Add([false] + p, [false] + q)
  {
  }

  /** The dividend that one step of the division leaves. */
  function BringDown(d: Poly): (e: Poly)
    requires |d| > 16
    ensures |e| == |d| - 1
  {
    if d[0] then Add(d[1..], G16 + Zero(|d| - 17)) else d[1..]
  }

  lemma Unfold(d: Poly)
    requires |d| > 16
    ensures Remainder(d) == Remainder(BringDown(d))
    ensures Quotient(d) == [d[0]] + Quotient(BringDown(d))
  {
  }

  lemma TimesUnfold(b: bool, q: Poly)
    ensures TimesGenerator([b] + q) ==
            if b then Add([true] + G16 + Zero(|q|), [false] + TimesGenerator(q)) else [false] + TimesGenerator(q)
  {
    assert ([b] + q)[1..] == q;
  }

  lemma BringDownSubtracts(d: Poly)
    requires |d| > 16
    ensures d == if d[0] then Add([true] + G16 + Zero(|d| - 17), [false] + BringDown(d)) else [false] + BringDown(d)
  {
  }

  lemma ZeroPrefixed(n: nat, r: Poly)
    ensures Zero(n + 1) + r == [false] + (Zero(n) + r)
  {
  }

  /** Long division divides: d = Quotient(d) * G + Remainder(d). */
  lemma {:induction false} Division(d: Poly)
    requires |d| >= 16
    ensures d == Add(TimesGenerator(Quotient(d)), Zero(|d| - 16) + Remainder(d))
    decreases |d|
  {
    if |d| == 16 {
      assert Zero(0) + d == d;
    } else {
      hide TimesGenerator, Quotient, Remainder, BringDown, Add, Zero;
      var g, e := [true] + G16 + Zero(|d| - 17), BringDown(d);
      var t, r := TimesGenerator(Quotient(e)), Zero(|e| - 16) + Remainder(e);
      Division(e);
      Unfold(d);
      TimesUnfold(d[0], Quotient(e));
      BringDownSubtracts(d);
      AddPrefixed(t, r);
      ZeroPrefixed(|e| - 16, Remainder(e));
      if d[0] {
        AddAssociative(g, [false] + t, [false] + r);
      }
    }
  }

  // ---------- the division register ----------

  /** Multiply by x modulo the generator. */
  function Shift(c: Poly): (r: Poly)
    requires |c| == 16
    ensures |r| == 16
  {
    if c[0] then Add(c[1..] + [false], G16) else c[1..] + [false]
  }

  function Shifts(c: Poly, n: nat): (r: Poly)
    requires |c| == 16
    ensures |r| == 16
    decreases n
  {
    if n == 0 then c else Shifts(Shift(c), n - 1)
  }

  function Top(b: bool): (r: Poly)
    ensures |r| == 16
  {
    [b] + Zero(15)
  }

  /** Feed message bits, most significant first. */
  function Feed(c: Poly, bits: Poly): (r: Poly)
    requires |c| == 16
    ensures |r| == 16
    decreases |bits|
  {
    if |bits| == 0 then c else Feed(Shift(Add(c, Top(bits[0]))), bits[1..])
  }

  lemma {:induction false} FeedAppend(c: Poly, s: Poly, t: Poly)
    requires |c| == 16
    ensures Feed(c, s + t) == Feed(Feed(c, s), t)
    decreases |s|
  {
    if |s| == 0 {
      assert s + t == t;
    } else {
      assert (s + t)[1..] == s[1..] + t;
      FeedAppend(Shift(Add(c, Top(s[0]))), s[1..], t);
    }
  }

  lemma ShiftLinear(a: Poly, b: Poly)
    requires |a| == |b| == 16
    ensures Shift(Add(a, b)) == Add(Shift(a), Shift(b))
  {
  }

  lemma {:induction false} ShiftsLinear(a: Poly, b: Poly, n: nat)
    requires |a| == |b| == 16
    ensures Shifts(Add(a, b), n) == Add(Shifts(a, n), Shifts(b, n))
    decreases n
  {
    if n > 0 {
      ShiftLinear(a, b);
      ShiftsLinear(Shift(a), Shift(b), n - 1);
    }
  }

  // ---------- shifting is invertible, so no difference is ever lost ----------

  lemma ShiftInjective(a: Poly, b: Poly)
    requires |a| == |b| == 16 && Shift(a) == Shift(b)
    ensures a == b
  {
    assert Shift(a)[15] == a[0] && Shift(b)[15] == b[0];
    forall i | 1 <= i < 16
      ensures a[i] == b[i]
    {
      assert Shift(a)[i - 1] == (a[i] != (a[0] && G16[i - 1]));
      assert Shift(b)[i - 1] == (b[i] != (b[0] && G16[i - 1]));
    }
  }

  lemma {:induction false} ShiftsInjective(a: Poly, b: Poly, n: nat)
    requires |a| == |b| == 16 && Shifts(a, n) == Shifts(b, n)
    ensures a == b
    decreases n
  {
    if n > 0 {
      ShiftsInjective(Shift(a), Shift(b), n - 1);
      ShiftInjective(a, b);
    }
  }

  lemma AddCancels(a: Poly, b: Poly, t: Poly)
    requires |a| == |b| == |t| && Add(a, t) == Add(b, t)
    ensures a == b
  {
    forall i | 0 <= i < |a|
      ensures a[i] == b[i]
    {
      assert Add(a, t)[i] == Add(b, t)[i];
    }
  }

  lemma {:induction false} FeedInjective(a: Poly, b: Poly, bits: Poly)
    requires |a| == |b| == 16 && Feed(a, bits) == Feed(b, bits)
    ensures a == b
    decreases |bits|
  {
    if |bits| > 0 {
      var t := Top(bits[0]);
      FeedInjective(Shift(Add(a, t)), Shift(Add(b, t)), bits[1..]);
      ShiftInjective(Add(a, t), Add(b, t));
      AddCancels(a, b, t);
    }
  }

  /** Feeding at most sixteen bits is adding them in at the top and shifting. */
  lemma {:induction false} FeedIsShifts(c: Poly, bits: Poly)
    requires |c| == 16 && |bits| <= 16
    ensures Feed(c, bits) == Shifts(Add(c, bits + Zero(16 - |bits|)), |bits|)
    decreases |bits|
  {
    hide Add, Shift, Top;
    if |bits| == 0 {
      NothingAdded(c, bits);
    } else {
      var t := Top(bits[0]);
      var low := [false] + bits[1..] + Zero(16 - |bits|);
      TopAndLow(c, bits, t, low);
      ShiftLinear(Add(c, t), low);
      FeedIsShifts(Shift(Add(c, t)), bits[1..]);
    }
  }

  lemma NothingAdded(c: Poly, bits: Poly)
    requires |c| == 16 && |bits| == 0
    ensures Add(c, bits + Zero(16)) == c
  {
  }

  lemma TopAndLow(c: Poly, bits: Poly, t: Poly, low: Poly)
    requires |c| == 16 && 0 < |bits| <= 16 && t == Top(bits[0])
    requires low == [false] + bits[1..] + Zero(16 - |bits|)
    ensures Add(c, bits + Zero(16 - |bits|)) == Add(Add(c, t), low)
    ensures Shift(low) == bits[1..] + Zero(16 - |bits[1..]|)
  {
  }

  /** The register computes long division: of the message followed by sixteen zeros, with the
      start value added to the first sixteen bits. */
  lemma {:induction false} FeedIsRemainder(c: Poly, bits: Poly)
    requires |c| == 16
    ensures Feed(c, bits) == Remainder(Add(bits + Zero(16), c + Zero(|bits|)))
    decreases |bits|
  {
    var d := Add(bits + Zero(16), c + Zero(|bits|));
    if |bits| == 0 {
      assert d == c;
    } else {
      var s := Shift(Add(c, Top(bits[0])));
      FeedIsRemainder(s, bits[1..]);
      OneStep(c, bits, d, s, Add(bits[1..] + Zero(16), s + Zero(|bits| - 1)));
    }
  }

  /** One register step and one step of the division bring down the same dividend. */
  lemma OneStep(c: Poly, bits: Poly, d: Poly, s: Poly, e: Poly)
    requires |c| == 16 && |bits| > 0
    requires d == Add(bits + Zero(16), c + Zero(|bits|)) && s == Shift(Add(c, Top(bits[0])))
    requires e == Add(bits[1..] + Zero(16), s + Zero(|bits| - 1))
    ensures e == BringDown(d)
  {
  }

  // ---------- numbers and their bits ----------

  /** The n low-order bits of v, most significant first. */
  function BitsOf(v: nat, n: nat): (r: Poly)
    ensures |r| == n
  {
    if n == 0 then [] else BitsOf(v / 2, n - 1) + [v % 2 == 1]
  }

  /** The message as a polynomial. */
  function Bits(m: seq<Byte>): (r: Poly)
    ensures |r| == 8 * |m|
  {
    if |m| == 0 then [] else BitsOf(m[0], 8) + Bits(m[1..])
  }

  lemma {:induction false} BitsAppend(m: seq<Byte>, n: seq<Byte>)
    ensures Bits(m + n) == Bits(m) + Bits(n)
  {
    hide BitsOf;
    if |m| == 0 {
      assert m + n == n;
    } else {
      assert (m + n)[1..] == m[1..] + n;
      BitsAppend(m[1..], n);
    }
  }

  lemma {:induction false} BitsOfXor(a: nat, b: nat, n: nat)
    ensures BitsOf(Bitwise(Xor, a, b), n) == Add(BitsOf(a, n), BitsOf(b, n))
  {
    if n > 0 {
      BitwiseStep(Xor, a, b);
      BitsOfXor(a / 2, b / 2, n - 1);
    }
  }

  lemma {:induction false} BitsOfInjective(a: nat, b: nat, n: nat)
    requires a < Pow2(n) && b < Pow2(n) && BitsOf(a, n) == BitsOf(b, n)
    ensures a == b
  {
    if n > 0 {
      assert BitsOf(a, n)[..n - 1] == BitsOf(a / 2, n - 1) && BitsOf(b, n)[..n - 1] == BitsOf(b / 2, n - 1);
      assert BitsOf(a, n)[n - 1] == (a % 2 == 1) && BitsOf(b, n)[n - 1] == (b % 2 == 1);
      BitsOfInjective(a / 2, b / 2, n - 1);
    }
  }

  lemma {:induction false} BitsInjective(m: seq<Byte>, n: seq<Byte>)
    requires |m| == |n| && Bits(m) == Bits(n)
    ensures m == n
  {
    if |m| > 0 {
      hide BitsOf, Pow2;
      Pow2Widths();
      assert BitsOf(m[0], 8) == Bits(m)[..8] == Bits(n)[..8] == BitsOf(n[0], 8);
      BitsOfInjective(m[0], n[0], 8);
      assert Bits(m[1..]) == Bits(m)[8..] == Bits(n)[8..] == Bits(n[1..]);
      BitsInjective(m[1..], n[1..]);
    }
  }

  lemma {:induction false} BitsOfSplit(v: nat, m: nat, n: nat)
    ensures BitsOf(v, m + n) == BitsOf(ShiftRight(v, n), m) + BitsOf(v, n)
  {
    if n == 0 {
      assert BitsOf(v, 0) == [];
    } else {
      BitsOfSplit(v / 2, m, n - 1);
      assert BitsOf(v, m + n) == BitsOf(v / 2, m + (n - 1)) + [v % 2 == 1];
    }
  }

  /** Bits above the n-th do not count. */
  lemma {:induction false} BitsOfLow(v: nat, n: nat)
    ensures BitsOf(v % Pow2(n), n) == BitsOf(v, n)
  {
    if n > 0 {
      LowPow2(v, n);
      BitsOfLow(v / 2, n - 1);
    }
  }

  lemma {:induction false} BitsOfZero(n: nat)
    ensures BitsOf(0, n) == Zero(n)
  {
    if n > 0 {
      BitsOfZero(n - 1);
    }
  }

  lemma {:induction false} BitAt(v: nat, n: nat, k: nat)
    requires k < n
    ensures BitsOf(v, n)[n - 1 - k] == (ShiftRight(v, k) % 2 == 1)
  {
    if k > 0 {
      BitAt(v / 2, n - 1, k - 1);
    }
  }

  /** High and low byte of a sum. */
  lemma Bytes(c: nat)
    ensures BitsOf(c, 16) == BitsOf(c / 0x100, 8) + BitsOf(c, 8)
    ensures BitsOf(0x100 * c, 16) == BitsOf(c, 8) + Zero(8)
  {
    hide BitsOf, ShiftRight;
    assert Pow2(8) == 0x100 by { Pow2Widths(); }
    BitsOfSplit(c, 8, 8);
    BitsOfSplit(0x100 * c, 8, 8);
    ShiftRightPow2(c, 8);
    ShiftRightPow2(0x100 * c, 8);
    BitsOfLow(0x100 * c, 8);
    BitsOfZero(8);
  }

  // ---------- the table ----------

  // crc16_tab, sixteen entries a row.
  const ROW0: seq<Sum> := [0x0000, 0x1021, 0x2042, 0x3063, 0x4084, 0x50a5, 0x60c6, 0x70e7,
                           0x8108, 0x9129, 0xa14a, 0xb16b, 0xc18c, 0xd1ad, 0xe1ce, 0xf1ef]
  const ROW1: seq<Sum> := [0x1231, 0x0210, 0x3273, 0x2252, 0x52b5, 0x4294, 0x72f7, 0x62d6,
                           0x9339, 0x8318, 0xb37b, 0xa35a, 0xd3bd, 0xc39c, 0xf3ff, 0xe3de]
  const ROW2: seq<Sum> := [0x2462, 0x3443, 0x0420, 0x1401, 0x64e6, 0x74c7, 0x44a4, 0x5485,
                           0xa56a, 0xb54b, 0x8528, 0x9509, 0xe5ee, 0xf5cf, 0xc5ac, 0xd58d]
  const ROW3: seq<Sum> := [0x3653, 0x2672, 0x1611, 0x0630, 0x76d7, 0x66f6, 0x5695, 0x46b4,
                           0xb75b, 0xa77a, 0x9719, 0x8738, 0xf7df, 0xe7fe, 0xd79d, 0xc7bc]
  const ROW4: seq<Sum> := [0x48c4, 0x58e5, 0x6886, 0x78a7, 0x0840, 0x1861, 0x2802, 0x3823,
                           0xc9cc, 0xd9ed, 0xe98e, 0xf9af, 0x8948, 0x9969, 0xa90a, 0xb92b]
  const ROW5: seq<Sum> := [0x5af5, 0x4ad4, 0x7ab7, 0x6a96, 0x1a71, 0x0a50, 0x3a33, 0x2a12,
                           0xdbfd, 0xcbdc, 0xfbbf, 0xeb9e, 0x9b79, 0x8b58, 0xbb3b, 0xab1a]
  const ROW6: seq<Sum> := [0x6ca6, 0x7c87, 0x4ce4, 0x5cc5, 0x2c22, 0x3c03, 0x0c60, 0x1c41,
                           0xedae, 0xfd8f, 0xcdec, 0xddcd, 0xad2a, 0xbd0b, 0x8d68, 0x9d49]
  const ROW7: seq<Sum> := [0x7e97, 0x6eb6, 0x5ed5, 0x4ef4, 0x3e13, 0x2e32, 0x1e51, 0x0e70,
                           0xff9f, 0xefbe, 0xdfdd, 0xcffc, 0xbf1b, 0xaf3a, 0x9f59, 0x8f78]
  const ROW8: seq<Sum> := [0x9188, 0x81a9, 0xb1ca, 0xa1eb, 0xd10c, 0xc12d, 0xf14e, 0xe16f,
                           0x1080, 0x00a1, 0x30c2, 0x20e3, 0x5004, 0x4025, 0x7046, 0x6067]
  const ROW9: seq<Sum> := [0x83b9, 0x9398, 0xa3fb, 0xb3da, 0xc33d, 0xd31c, 0xe37f, 0xf35e,
                           0x02b1, 0x1290, 0x22f3, 0x32d2, 0x4235, 0x5214, 0x6277, 0x7256]
  const ROW10: seq<Sum> := [0xb5ea, 0xa5cb, 0x95a8, 0x8589, 0xf56e, 0xe54f, 0xd52c, 0xc50d,
                            0x34e2, 0x24c3, 0x14a0, 0x0481, 0x7466, 0x6447, 0x5424, 0x4405]
  const ROW11: seq<Sum> := [0xa7db, 0xb7fa, 0x8799, 0x97b8, 0xe75f, 0xf77e, 0xc71d, 0xd73c,
                            0x26d3, 0x36f2, 0x0691, 0x16b0, 0x6657, 0x7676, 0x4615, 0x5634]
  const ROW12: seq<Sum> := [0xd94c, 0xc96d, 0xf90e, 0xe92f, 0x99c8, 0x89e9, 0xb98a, 0xa9ab,
                            0x5844, 0x4865, 0x7806, 0x6827, 0x18c0, 0x08e1, 0x3882, 0x28a3]
  const ROW13: seq<Sum> := [0xcb7d, 0xdb5c, 0xeb3f, 0xfb1e, 0x8bf9, 0x9bd8, 0xabbb, 0xbb9a,
                            0x4a75, 0x5a54, 0x6a37, 0x7a16, 0x0af1, 0x1ad0, 0x2ab3, 0x3a92]
  const ROW14: seq<Sum> := [0xfd2e, 0xed0f, 0xdd6c, 0xcd4d, 0xbdaa, 0xad8b, 0x9de8, 0x8dc9,
                            0x7c26, 0x6c07, 0x5c64, 0x4c45, 0x3ca2, 0x2c83, 0x1ce0, 0x0cc1]
  const ROW15: seq<Sum> := [0xef1f, 0xff3e, 0xcf5d, 0xdf7c, 0xaf9b, 0xbfba, 0x8fd9, 0x9ff8,
                            0x6e17, 0x7e36, 0x4e55, 0x5e74, 0x2e93, 0x3eb2, 0x0ed1, 0x1ef0]

  function Row(r: nat): (row: seq<Sum>)
    ensures |row| == 16
  {
    match r
    case 0 => ROW0
    case 1 => ROW1
    case 2 => ROW2
    case 3 => ROW3
    case 4 => ROW4
    case 5 => ROW5
    case 6 => ROW6
    case 7 => ROW7
    case 8 => ROW8
    case 9 => ROW9
    case 10 => ROW10
    case 11 => ROW11
    case 12 => ROW12
    case 13 => ROW13
    case 14 => ROW14
    case _ => ROW15
  }

  function Entry(k: nat): Sum { Row(k / 16)[k % 16] }

  /** Xor with the generator's sixteen bits 0x1021: bits 0, 5 and 12 flip. */
  function XorG(c: nat): int {
    c + (1 - 2 * (c % 2)) + 0x20 * (1 - 2 * (c / 0x20 % 2)) + 0x1000 * (1 - 2 * (c / 0x1000 % 2))
  }

  /** How the entries 2 * k and 2 * k + 1 follow from entry k: shifted, and reduced by the
      generator if a one comes out at the top. */
  predicate Doubled(c: Sum, even: Sum, odd: Sum) {
    var m := 2 * c % TWO16;
    if c < 0x8000 then even == m && odd == XorG(m) else even == XorG(m) && odd == m
  }

  /** Half a row, from entry lo on, determines a whole row. */
  ghost predicate HalfDoubles(row: seq<Sum>, lo: nat, next: seq<Sum>)
    requires lo + 8 <= |row| && |next| == 16
  {
    forall j :: 0 <= j < 8 ==> Doubled(row[lo + j], next[2 * j], next[2 * j + 1])
  }

  lemma Facts0()
    ensures XorG(0x0000) == 0x1021 && XorG(0x2042) == 0x3063 && XorG(0x4084) == 0x50a5 && XorG(0x60c6) == 0x70e7
    ensures XorG(0x8108) == 0x9129 && XorG(0xa14a) == 0xb16b && XorG(0xc18c) == 0xd1ad && XorG(0xe1ce) == 0xf1ef
  {
  }

  lemma Half0()
    ensures HalfDoubles(ROW0, 0, ROW0)
  {
    Facts0();
    hide XorG;
  }

  lemma Facts1()
    ensures XorG(0x0210) == 0x1231 && XorG(0x2252) == 0x3273 && XorG(0x4294) == 0x52b5 && XorG(0x62d6) == 0x72f7
    ensures XorG(0x8318) == 0x9339 && XorG(0xa35a) == 0xb37b && XorG(0xc39c) == 0xd3bd && XorG(0xe3de) == 0xf3ff
  {
  }

  lemma Half1()
    ensures HalfDoubles(ROW0, 8, ROW1)
  {
    Facts1();
    hide XorG;
  }

  lemma Facts2()
    ensures XorG(0x2462) == 0x3443 && XorG(0x0420) == 0x1401 && XorG(0x64e6) == 0x74c7 && XorG(0x44a4) == 0x5485
    ensures XorG(0xa56a) == 0xb54b && XorG(0x8528) == 0x9509 && XorG(0xe5ee) == 0xf5cf && XorG(0xc5ac) == 0xd58d
  {
  }

  lemma Half2()
    ensures HalfDoubles(ROW1, 0, ROW2)
  {
    Facts2();
    hide XorG;
  }

  lemma Facts3()
    ensures XorG(0x2672) == 0x3653 && XorG(0x0630) == 0x1611 && XorG(0x66f6) == 0x76d7 && XorG(0x46b4) == 0x5695
    ensures XorG(0xa77a) == 0xb75b && XorG(0x8738) == 0x9719 && XorG(0xe7fe) == 0xf7df && XorG(0xc7bc) == 0xd79d
  {
  }

  lemma Half3()
    ensures HalfDoubles(ROW1, 8, ROW3)
  {
    Facts3();
    hide XorG;
  }

  lemma Facts4()
    ensures XorG(0x48c4) == 0x58e5 && XorG(0x6886) == 0x78a7 && XorG(0x0840) == 0x1861 && XorG(0x2802) == 0x3823
    ensures XorG(0xc9cc) == 0xd9ed && XorG(0xe98e) == 0xf9af && XorG(0x8948) == 0x9969 && XorG(0xa90a) == 0xb92b
  {
  }

  lemma Half4()
    ensures HalfDoubles(ROW2, 0, ROW4)
  {
    Facts4();
    hide XorG;
  }

  lemma Facts5()
    ensures XorG(0x4ad4) == 0x5af5 && XorG(0x6a96) == 0x7ab7 && XorG(0x0a50) == 0x1a71 && XorG(0x2a12) == 0x3a33
    ensures XorG(0xcbdc) == 0xdbfd && XorG(0xeb9e) == 0xfbbf && XorG(0x8b58) == 0x9b79 && XorG(0xab1a) == 0xbb3b
  {
  }

  lemma Half5()
    ensures HalfDoubles(ROW2, 8, ROW5)
  {
    Facts5();
    hide XorG;
  }

  lemma Facts6()
    ensures XorG(0x6ca6) == 0x7c87 && XorG(0x4ce4) == 0x5cc5 && XorG(0x2c22) == 0x3c03 && XorG(0x0c60) == 0x1c41
    ensures XorG(0xedae) == 0xfd8f && XorG(0xcdec) == 0xddcd && XorG(0xad2a) == 0xbd0b && XorG(0x8d68) == 0x9d49
  {
  }

  lemma Half6()
    ensures HalfDoubles(ROW3, 0, ROW6)
  {
    Facts6();
    hide XorG;
  }

  lemma Facts7()
    ensures XorG(0x6eb6) == 0x7e97 && XorG(0x4ef4) == 0x5ed5 && XorG(0x2e32) == 0x3e13 && XorG(0x0e70) == 0x1e51
    ensures XorG(0xefbe) == 0xff9f && XorG(0xcffc) == 0xdfdd && XorG(0xaf3a) == 0xbf1b && XorG(0x8f78) == 0x9f59
  {
  }

  lemma Half7()
    ensures HalfDoubles(ROW3, 8, ROW7)
  {
    Facts7();
    hide XorG;
  }

  lemma Facts8()
    ensures XorG(0x9188) == 0x81a9 && XorG(0xb1ca) == 0xa1eb && XorG(0xd10c) == 0xc12d && XorG(0xf14e) == 0xe16f
    ensures XorG(0x1080) == 0x00a1 && XorG(0x30c2) == 0x20e3 && XorG(0x5004) == 0x4025 && XorG(0x7046) == 0x6067
  {
  }

  lemma Half8()
    ensures HalfDoubles(ROW4, 0, ROW8)
  {
    Facts8();
    hide XorG;
  }

  lemma Facts9()
    ensures XorG(0x9398) == 0x83b9 && XorG(0xb3da) == 0xa3fb && XorG(0xd31c) == 0xc33d && XorG(0xf35e) == 0xe37f
    ensures XorG(0x1290) == 0x02b1 && XorG(0x32d2) == 0x22f3 && XorG(0x5214) == 0x4235 && XorG(0x7256) == 0x6277
  {
  }

  lemma Half9()
    ensures HalfDoubles(ROW4, 8, ROW9)
  {
    Facts9();
    hide XorG;
  }

  lemma Facts10()
    ensures XorG(0xb5ea) == 0xa5cb && XorG(0x95a8) == 0x8589 && XorG(0xf56e) == 0xe54f && XorG(0xd52c) == 0xc50d
    ensures XorG(0x34e2) == 0x24c3 && XorG(0x14a0) == 0x0481 && XorG(0x7466) == 0x6447 && XorG(0x5424) == 0x4405
  {
  }

  lemma Half10()
    ensures HalfDoubles(ROW5, 0, ROW10)
  {
    Facts10();
    hide XorG;
  }

  lemma Facts11()
    ensures XorG(0xb7fa) == 0xa7db && XorG(0x97b8) == 0x8799 && XorG(0xf77e) == 0xe75f && XorG(0xd73c) == 0xc71d
    ensures XorG(0x36f2) == 0x26d3 && XorG(0x16b0) == 0x0691 && XorG(0x7676) == 0x6657 && XorG(0x5634) == 0x4615
  {
  }

  lemma Half11()
    ensures HalfDoubles(ROW5, 8, ROW11)
  {
    Facts11();
    hide XorG;
  }

  lemma Facts12()
    ensures XorG(0xd94c) == 0xc96d && XorG(0xf90e) == 0xe92f && XorG(0x99c8) == 0x89e9 && XorG(0xb98a) == 0xa9ab
    ensures XorG(0x5844) == 0x4865 && XorG(0x7806) == 0x6827 && XorG(0x18c0) == 0x08e1 && XorG(0x3882) == 0x28a3
  {
  }

  lemma Half12()
    ensures HalfDoubles(ROW6, 0, ROW12)
  {
    Facts12();
    hide XorG;
  }

  lemma Facts13()
    ensures XorG(0xdb5c) == 0xcb7d && XorG(0xfb1e) == 0xeb3f && XorG(0x9bd8) == 0x8bf9 && XorG(0xbb9a) == 0xabbb
    ensures XorG(0x5a54) == 0x4a75 && XorG(0x7a16) == 0x6a37 && XorG(0x1ad0) == 0x0af1 && XorG(0x3a92) == 0x2ab3
  {
  }

  lemma Half13()
    ensures HalfDoubles(ROW6, 8, ROW13)
  {
    Facts13();
    hide XorG;
  }

  lemma Facts14()
    ensures XorG(0xfd2e) == 0xed0f && XorG(0xdd6c) == 0xcd4d && XorG(0xbdaa) == 0xad8b && XorG(0x9de8) == 0x8dc9
    ensures XorG(0x7c26) == 0x6c07 && XorG(0x5c64) == 0x4c45 && XorG(0x3ca2) == 0x2c83 && XorG(0x1ce0) == 0x0cc1
  {
  }

  lemma Half14()
    ensures HalfDoubles(ROW7, 0, ROW14)
  {
    Facts14();
    hide XorG;
  }

  lemma Facts15()
    ensures XorG(0xff3e) == 0xef1f && XorG(0xdf7c) == 0xcf5d && XorG(0xbfba) == 0xaf9b && XorG(0x9ff8) == 0x8fd9
    ensures XorG(0x7e36) == 0x6e17 && XorG(0x5e74) == 0x4e55 && XorG(0x3eb2) == 0x2e93 && XorG(0x1ef0) == 0x0ed1
  {
  }

  lemma Half15()
    ensures HalfDoubles(ROW7, 8, ROW15)
  {
    Facts15();
    hide XorG;
  }

  lemma RowDoubles(r: nat)
    requires r < 16
    ensures HalfDoubles(Row(r / 2), 8 * (r % 2), Row(r))
  {
    hide HalfDoubles;
    if r == 0 { Half0(); }
    else if r == 1 { Half1(); }
    else if r == 2 { Half2(); }
    else if r == 3 { Half3(); }
    else if r == 4 { Half4(); }
    else if r == 5 { Half5(); }
    else if r == 6 { Half6(); }
    else if r == 7 { Half7(); }
    else if r == 8 { Half8(); }
    else if r == 9 { Half9(); }
    else if r == 10 { Half10(); }
    else if r == 11 { Half11(); }
    else if r == 12 { Half12(); }
    else if r == 13 { Half13(); }
    else if r == 14 { Half14(); }
    else { Half15(); }
  }

  lemma TableDoubles(k: nat)
    requires k < 128
    ensures Doubled(Entry(k), Entry(2 * k), Entry(2 * k + 1))
  {
    hide Row, Doubled;
    var r, j := k / 8, k % 8;
    RowDoubles(r);
    assert r / 2 == k / 16 && 8 * (r % 2) + j == k % 16;
    assert 2 * k / 16 == r && 2 * k % 16 == 2 * j && (2 * k + 1) / 16 == r && (2 * k + 1) % 16 == 2 * j + 1;
  }

  lemma {:induction false} ShiftsCommute(c: Poly, n: nat)
    requires |c| == 16
    ensures Shifts(Shift(c), n) == Shift(Shifts(c, n))
    decreases n
  {
    hide Shift;
    if n > 0 {
      ShiftsCommute(Shift(c), n - 1);
    }
  }

  lemma {:induction false} ShiftsSum(c: Poly, m: nat, n: nat)
    requires |c| == 16
    ensures Shifts(c, m + n) == Shifts(Shifts(c, m), n)
    decreases m
  {
    hide Shift;
    if m > 0 {
      ShiftsSum(Shift(c), m - 1, n);
    }
  }

  /** As long as zeros come out at the top, shifting only moves. */
  lemma {:induction false} ShiftsOfLeadingZeros(low: Poly, n: nat)
    requires |low| + n == 16
    ensures Shifts(Zero(n) + low, n) == low + Zero(n)
    decreases n
  {
    if n == 0 {
      assert Zero(0) + low == low + Zero(0) == low;
    } else {
      assert Shift(Zero(n) + low) == Zero(n - 1) + (low + [false]);
      ShiftsOfLeadingZeros(low + [false], n - 1);
      assert low + [false] + Zero(n - 1) == low + Zero(n);
    }
  }

  // ---------- numbers shift like polynomials ----------

  lemma BitsOfDouble(v: nat, b: nat, n: nat)
    requires b < 2
    ensures BitsOf(2 * v + b, n + 1) == BitsOf(v, n) + [b == 1]
  {
  }

  function Flip(p: Poly, i: nat): Poly
    requires i < |p|
  {
    p[i := !p[i]]
  }

  /** Adding or subtracting 2p does to a number what adding or subtracting p does to its half. */
  lemma FlipHalf(v: nat, p: nat, w: int)
    requires p > 0 && w == if v / (2 * p) % 2 == 1 then v - 2 * p else v + 2 * p
    ensures var u := if v / 2 / p % 2 == 1 then v / 2 - p else v / 2 + p; u >= 0 && w == 2 * u + v % 2
  {
    Split(v / 2, p);
    Halve(v, v / 2 / p, v / 2 % p, p);
    if v / 2 / p >= 1 {
      Product(0, v / 2 / p, p);
    }
  }

  lemma FlipPrefix(p: Poly, b: bool, i: nat)
    requires i < |p|
    ensures Flip(p + [b], i) == Flip(p, i) + [b]
  {
  }

  /** Adding or subtracting 2^k, as bit k says, flips bit k. */
  lemma {:induction false} BitsOfFlip(v: nat, n: nat, k: nat, w: int)
    requires k < n && w == if v / Pow2(k) % 2 == 1 then v - Pow2(k) else v + Pow2(k)
    ensures w >= 0 && BitsOf(w, n) == Flip(BitsOf(v, n), n - 1 - k)
  {
    hide BitsOf;
    BitsOfDouble(v / 2, v % 2, n - 1);
    if k == 0 {
      BitsOfDouble(v / 2, 1 - v % 2, n - 1);
    } else {
      hide Flip;
      var p := Pow2(k - 1);
      assert Pow2(k) == 2 * p;
      hide Pow2;
      FlipHalf(v, p, w);
      var u := if v / 2 / p % 2 == 1 then v / 2 - p else v / 2 + p;
      BitsOfFlip(v / 2, n - 1, k - 1, u);
      BitsOfDouble(u, v % 2, n - 1);
      FlipPrefix(BitsOf(v / 2, n - 1), v % 2 == 1, n - 1 - k);
    }
  }

  lemma FlipsAreG16(p: Poly)
    requires |p| == 16
    ensures Flip(Flip(Flip(p, 15), 10), 3) == Add(p, G16)
  {
  }

  /** Flipping a low bit leaves the higher ones alone. */
  lemma FlipKeepsHigh(c: nat, c0: int, c5: int)
    requires c0 == c + (1 - 2 * (c % 2)) && c5 == c0 + 0x20 * (1 - 2 * (c0 / 0x20 % 2))
    ensures c0 / 0x20 == c / 0x20 && c5 / 0x1000 == c / 0x1000
  {
    assert c0 / 2 == c / 2;
    assert c0 / 0x20 == c0 / 2 / 0x10 && c / 0x20 == c / 2 / 0x10;
    assert c5 / 0x40 == c0 / 0x40;
    assert c0 / 0x40 == c0 / 0x20 / 2 && c / 0x40 == c / 0x20 / 2;
    assert c5 / 0x1000 == c5 / 0x40 / 0x40 && c / 0x1000 == c / 0x40 / 0x40;
  }

  lemma XorGBits(c: Sum)
    ensures 0 <= XorG(c) < TWO16
    ensures BitsOf(XorG(c), 16) == Add(BitsOf(c, 16), G16)
  {
    hide BitsOf, Add, Flip;
    assert Pow2(0) == 1 && Pow2(5) == 0x20 && Pow2(12) == 0x1000;
    var c0 := c + (1 - 2 * (c % 2));
    var c5 := c0 + 0x20 * (1 - 2 * (c0 / 0x20 % 2));
    FlipKeepsHigh(c, c0, c5);
    BitsOfFlip(c, 16, 0, c0);
    BitsOfFlip(c0, 16, 5, c5);
    BitsOfFlip(c5, 16, 12, XorG(c));
    FlipsAreG16(BitsOf(c, 16));
  }

  lemma TopBit(c: Sum)
    ensures BitsOf(c, 16)[0] <==> c >= 0x8000
  {
    hide BitsOf, ShiftRight;
    assert Pow2(15) == 0x8000 by { Pow2Widths(); }
    BitAt(c, 16, 15);
    ShiftRightPow2(c, 15);
  }

  /** Doubling modulo 2^16 drops the top bit and appends a zero. */
  lemma DoubleBits(c: Sum)
    ensures BitsOf(2 * c % TWO16, 16) == BitsOf(c, 16)[1..] + [false]
  {
    hide BitsOf, ShiftRight, Pow2;
    Pow2Widths();
    BitsOfSplit(c, 1, 15);
    BitsOfLow(2 * c, 16);
    BitsOfDouble(c, 0, 15);
  }

  /** Entry k is what eight register steps make of byte k. */
  lemma {:induction false} TableIsShifts(k: nat)
    requires k < 256
    ensures BitsOf(Entry(k), 16) == Shifts(BitsOf(k, 8) + Zero(8), 8)
  {
    hide BitsOf, Entry, Shifts, Shift, XorG;
    if k == 0 {
      FirstEntry();
      BitsOfZero(8);
      BitsOfZero(16);
      ShiftsOfLeadingZeros(Zero(8), 8);
      assert Zero(8) + Zero(8) == Zero(16);
    } else {
      var j := k / 2;
      TableIsShifts(j);
      TableDoubles(j);
      EvenByte(j);
      OddByte(j);
      DoubledBits(Entry(j), Entry(2 * j), Entry(2 * j + 1));
    }
  }

  lemma FirstEntry()
    ensures Entry(0) == 0
  {
  }

  lemma DoubledBits(c: Sum, even: Sum, odd: Sum)
    requires Doubled(c, even, odd)
    ensures BitsOf(even, 16) == Shift(BitsOf(c, 16)) && BitsOf(odd, 16) == Add(Shift(BitsOf(c, 16)), G16)
  {
    hide BitsOf, XorG;
    var m := 2 * c % TWO16;
    TopBit(c);
    DoubleBits(c);
    XorGBits(m);
    var s := BitsOf(m, 16);
    assert Add(Add(s, G16), G16) == s;
  }

  lemma EvenByte(j: nat)
    requires j < 128
    ensures Shifts(BitsOf(2 * j, 8) + Zero(8), 8) == Shift(Shifts(BitsOf(j, 8) + Zero(8), 8))
  {
    hide BitsOf, Shifts;
    var b := BitsOf(j, 8);
    SevenBits(j);
    assert Shift(b + Zero(8)) == BitsOf(2 * j, 8) + Zero(8);
    ShiftsCommute(b + Zero(8), 8);
  }

  lemma SevenBits(j: nat)
    requires j < 128
    ensures BitsOf(j, 8) == [false] + BitsOf(j, 7)
    ensures BitsOf(2 * j, 8) == BitsOf(j, 7) + [false] && BitsOf(2 * j + 1, 8) == BitsOf(j, 7) + [true]
  {
    hide BitsOf;
    assert Pow2(7) == 128;
    LeadingZero(j, 7);
    BitsOfDouble(j, 0, 7);
    BitsOfDouble(j, 1, 7);
  }

  lemma {:induction false} LeadingZero(v: nat, n: nat)
    requires v < Pow2(n)
    ensures BitsOf(v, n + 1) == [false] + BitsOf(v, n)
  {
    if n > 0 {
      LeadingZero(v / 2, n - 1);
    }
  }

  lemma OddByte(j: nat)
    requires j < 128
    ensures Shifts(BitsOf(2 * j + 1, 8) + Zero(8), 8) == Add(Shifts(BitsOf(2 * j, 8) + Zero(8), 8), G16)
  {
    hide BitsOf, Shifts;
    SevenBits(j);
    var one := Zero(7) + ([true] + Zero(8));
    assert BitsOf(2 * j + 1, 8) + Zero(8) == Add(BitsOf(2 * j, 8) + Zero(8), one);
    ShiftsLinear(BitsOf(2 * j, 8) + Zero(8), one, 8);
    OneShifted(one);
  }

  lemma OneShifted(one: Poly)
    requires one == Zero(7) + ([true] + Zero(8))
    ensures Shifts(one, 8) == G16
  {
    hide Shift;
    ShiftsSum(one, 7, 1);
    ShiftsOfLeadingZeros([true] + Zero(8), 7);
    var top := [true] + Zero(8) + Zero(7);
    assert Shifts(top, 1) == Shifts(Shift(top), 0) == Shift(top);
    TopShifted(top);
  }

  lemma TopShifted(top: Poly)
    requires top == [true] + Zero(8) + Zero(7)
    ensures Shift(top) == G16
  {
  }

  // ---------- the loop of crc16_ccitt ----------

  /** `crc16_tab[((cksum >> 8) ^ b) & 0xff] ^ (cksum << 8)`, stored in 16 bits. */
  function TableStep(c: Sum, b: Byte): Sum {
    Bitwise(Xor, Entry(Index(c, b)), 0x100 * c) % TWO16
  }

  function Index(c: Sum, b: nat): Byte {
    ByteMask(Bitwise(Xor, c / 0x100, b));
    Bitwise(And, Bitwise(Xor, c / 0x100, b), 0xff)
  }

  lemma ByteMask(v: nat)
    ensures Bitwise(And, v, 0xff) == v % 0x100
  {
    AndMask(v, 8);
    Pow2Widths();
  }

  /** One round of the loop feeds one byte to the register. */
  lemma TableStepBits(c: Sum, b: Byte)
    ensures BitsOf(TableStep(c, b), 16) == Feed(BitsOf(c, 16), BitsOf(b, 8))
  {
    hide BitsOf, Bitwise, Shifts, Feed, Entry;
    var k := Index(c, b);
    var x := Bitwise(Xor, c / 0x100, b);
    var hi, lo, bits := BitsOf(c / 0x100, 8), BitsOf(c, 8), BitsOf(b, 8);
    Bytes(c);
    ByteMask(x);
    assert Pow2(8) == 0x100 && Pow2(16) == TWO16 by { Pow2Widths(); }
    BitsOfLow(x, 8);
    BitsOfXor(c / 0x100, b, 8);
    BitsOfLow(Bitwise(Xor, Entry(k), 0x100 * c), 16);
    BitsOfXor(Entry(k), 0x100 * c, 16);
    TableIsShifts(k);
    assert BitsOf(k, 8) == Add(hi, bits);
    FeedByte(hi, lo, bits);
  }

  lemma FeedByte(hi: Poly, lo: Poly, bits: Poly)
    requires |hi| == |lo| == |bits| == 8
    ensures Feed(hi + lo, bits) == Add(Shifts(Add(hi, bits) + Zero(8), 8), lo + Zero(8))
  {
    hide Shifts, Feed;
    FeedIsShifts(hi + lo, bits);
    assert Add(hi + lo, bits + Zero(8)) == Add(Add(hi, bits) + Zero(8), Zero(8) + lo);
    ShiftsLinear(Add(hi, bits) + Zero(8), Zero(8) + lo, 8);
    ShiftsOfLeadingZeros(lo, 8);
  }

  /** The checksum of m continued from c. */
  function Ccitt(c: Sum, m: seq<Byte>): Sum
    decreases |m|
  {
    if |m| == 0 then c else TableStep(Ccitt(c, m[..|m| - 1]), m[|m| - 1])
  }

  /** crc16_ccitt; a negative len reads nothing. */
  method Crc16Ccitt(crcStart: Sum, buf: seq<Byte>, len: int) returns (cksum: Sum)
    requires len <= |buf|
    ensures cksum == Ccitt(crcStart, if len < 0 then [] else buf[..len])
  {
    cksum := crcStart;
    var i := 0;
    while i < len
      invariant 0 <= i && (i <= len || i == 0)
      invariant cksum == Ccitt(crcStart, buf[..i])
    {
      assert buf[..i + 1][..i] == buf[..i];
      cksum := TableStep(cksum, buf[i]);
      i := i + 1;
    }
  }

  function LowBytes(words: seq<Word>): seq<Byte> {
    seq(|words|, i requires 0 <= i < |words| => words[i] % 0x100)
  }

  /** crc16_pacing: one byte in the low end of each 32-bit word. */
  method Crc16Pacing(crcStart: Sum, buf: seq<Word>, len: int) returns (cksum: Sum)
    requires len <= |buf|
    ensures cksum == Ccitt(crcStart, if len < 0 then [] else LowBytes(buf[..len]))
  {
    cksum := crcStart;
    var i := 0;
    while i < len
      invariant 0 <= i && (i <= len || i == 0)
      invariant cksum == Ccitt(crcStart, LowBytes(buf[..i]))
    {
      hide Bitwise, Index, Entry;
      assert LowBytes(buf[..i + 1])[..i] == LowBytes(buf[..i]);
      ByteMask(buf[i]);
      cksum := Bitwise(Xor, Entry(Index(cksum, Bitwise(And, buf[i], 0xff))), 0x100 * cksum) % TWO16;
      i := i + 1;
    }
  }

  // ---------- what the checksum is ----------

  lemma {:induction false} CcittFeeds(c: Sum, m: seq<Byte>)
    ensures BitsOf(Ccitt(c, m), 16) == Feed(BitsOf(c, 16), Bits(m))
    decreases |m|
  {
    hide BitsOf, TableStep;
    if |m| > 0 {
      var n := |m| - 1;
      CcittFeeds(c, m[..n]);
      TableStepBits(Ccitt(c, m[..n]), m[n]);
      assert m == m[..n] + [m[n]];
      BitsAppend(m[..n], [m[n]]);
      assert [m[n]][1..] == [] && BitsOf(m[n], 8) + [] == BitsOf(m[n], 8);
      FeedAppend(BitsOf(c, 16), Bits(m[..n]), BitsOf(m[n], 8));
    }
  }

  /** The table loop is polynomial division: it leaves the remainder of the message times x^16,
      with the start value added to the first 16 bits, and that remainder is a true one. */
  lemma CcittIsDivision(c: Sum, m: seq<Byte>)
    ensures var d := Add(Bits(m) + Zero(16), BitsOf(c, 16) + Zero(8 * |m|));
            && BitsOf(Ccitt(c, m), 16) == Remainder(d)
            && d == Add(TimesGenerator(Quotient(d)), Zero(8 * |m|) + BitsOf(Ccitt(c, m), 16))
  {
    hide BitsOf, Feed, Remainder, Quotient, TimesGenerator, Add;
    CcittFeeds(c, m);
    FeedIsRemainder(BitsOf(c, 16), Bits(m));
    Division(Add(Bits(m) + Zero(16), BitsOf(c, 16) + Zero(8 * |m|)));
  }

  /** The checksum of a concatenation is the second part's, continued from the first part's. */
  lemma {:induction false} CcittAppend(c: Sum, m: seq<Byte>, n: seq<Byte>)
    ensures Ccitt(c, m + n) == Ccitt(Ccitt(c, m), n)
    decreases |n|
  {
    hide TableStep;
    if |n| == 0 {
      assert m + n == m;
    } else {
      assert (m + n)[..|m + n| - 1] == m + n[..|n| - 1];
      CcittAppend(c, m, n[..|n| - 1]);
    }
  }

  /** A message followed by its checksum, high byte first, has checksum 0. */
  lemma AppendedChecksum(c: Sum, m: seq<Byte>)
    ensures var s := Ccitt(c, m); Ccitt(c, m + [s / 0x100, s % 0x100]) == 0
  {
    hide BitsOf, Feed, Shifts, Ccitt;
    var s := Ccitt(c, m);
    var hi, lo := s / 0x100, s % 0x100;
    CcittAppend(c, m, [hi, lo]);
    CcittFeeds(s, [hi, lo]);
    assert Pow2(8) == 0x100 && Pow2(16) == TWO16 by { Pow2Widths(); }
    Bytes(s);
    BitsOfLow(s, 8);
    assert Bits([hi, lo]) == BitsOf(s, 16) by {
      assert [hi, lo][1..] == [lo] && [lo][1..] == [];
    }
    FeedIsShifts(BitsOf(s, 16), BitsOf(s, 16));
    assert Add(BitsOf(s, 16), BitsOf(s, 16) + Zero(0)) == Zero(16);
    ZeroShifts(16);
    BitsOfZero(16);
    BitsOfInjective(Ccitt(s, [hi, lo]), 0, 16);
  }

  lemma {:induction false} ZeroShifts(n: nat)
    ensures Shifts(Zero(16), n) == Zero(16)
    decreases n
  {
    if n > 0 {
      assert Shift(Zero(16)) == Zero(16);
      ZeroShifts(n - 1);
    }
  }

  // ---------- error detection ----------

  /** The bit sequences agree outside [at, at + width). */
  ghost predicate DifferWithin(p: Poly, q: Poly, at: nat, width: nat) {
    |p| == |q| && forall i :: 0 <= i < |p| && !(at <= i < at + width) ==> p[i] == q[i]
  }

  lemma WindowDetected(s: Poly, v: Poly, w: Poly)
    requires |s| == 16 && |v| == |w| <= 16 && v != w
    ensures Feed(s, v) != Feed(s, w)
  {
    hide Feed, Shifts, Add, Zero;
    if Feed(s, v) == Feed(s, w) {
      var z := Zero(16 - |v|);
      FeedIsShifts(s, v);
      FeedIsShifts(s, w);
      ShiftsInjective(Add(s, v + z), Add(s, w + z), |v|);
      AddCancelsLeft(s, v + z, w + z);
      PrefixCancels(v, w, z);
    }
  }

  lemma PrefixCancels(v: Poly, w: Poly, z: Poly)
    requires |v| == |w| && v + z == w + z
    ensures v == w
  {
    assert v == (v + z)[..|v|] && w == (w + z)[..|v|];
  }

  lemma Cut(p: Poly, lo: nat, hi: nat)
    requires lo <= hi <= |p|
    ensures p == p[..lo] + (p[lo..hi] + p[hi..])
  {
  }

  lemma FeedCut(c: Poly, p: Poly, lo: nat, hi: nat)
    requires |c| == 16 && lo <= hi <= |p|
    ensures Feed(c, p) == Feed(Feed(Feed(c, p[..lo]), p[lo..hi]), p[hi..])
  {
    hide Feed;
    Cut(p, lo, hi);
    FeedAppend(c, p[..lo], p[lo..hi] + p[hi..]);
    FeedAppend(Feed(c, p[..lo]), p[lo..hi], p[hi..]);
  }

  lemma FeedDetects(c: Poly, p: Poly, q: Poly, at: nat)
    requires |c| == 16 && p != q && DifferWithin(p, q, at, 16)
    ensures Feed(c, p) != Feed(c, q)
  {
    hide Feed;
    var n := |p|;
    var lo := if at < n then at else n;
    var hi := if at + 16 < n then at + 16 else n;
    assert p[..lo] == q[..lo] && p[hi..] == q[hi..];
    Cut(p, lo, hi);
    Cut(q, lo, hi);
    var s := Feed(c, p[..lo]);
    FeedCut(c, p, lo, hi);
    FeedCut(c, q, lo, hi);
    WindowDetected(s, p[lo..hi], q[lo..hi]);
    if Feed(c, p) == Feed(c, q) {
      FeedInjective(Feed(s, p[lo..hi]), Feed(s, q[lo..hi]), p[hi..]);
    }
  }

  lemma AddCancelsLeft(t: Poly, a: Poly, b: Poly)
    requires |a| == |b| == |t| && Add(t, a) == Add(t, b)
    ensures a == b
  {
    assert Add(t, a) == Add(a, t) && Add(t, b) == Add(b, t);
    AddCancels(a, b, t);
  }

  /** Two different messages of one length whose bits differ within 16 consecutive positions only
      never have the same checksum. */
  lemma BurstDetected(c: Sum, m: seq<Byte>, n: seq<Byte>, at: nat)
    requires |m| == |n| && m != n && DifferWithin(Bits(m), Bits(n), at, 16)
    ensures Ccitt(c, m) != Ccitt(c, n)
  {
    hide BitsOf, Feed, Ccitt, Bits, DifferWithin;
    if Bits(m) == Bits(n) {
      BitsInjective(m, n);
    }
    CcittFeeds(c, m);
    CcittFeeds(c, n);
    FeedDetects(BitsOf(c, 16), Bits(m), Bits(n), at);
  }

  lemma TopDiffers(c: Poly, b: bool)
    requires |c| == 16
    ensures Shift(Add(c, Top(!b))) == Add(Shift(Add(c, Top(b))), G16)
  {
    assert Add(c, Top(!b)) == Add(Add(c, Top(b)), Top(true));
    ShiftLinear(Add(c, Top(b)), Top(true));
    assert Shift(Top(true)) == G16;
  }

  lemma FeedMissesGenerator(c: Poly, p: Poly, q: Poly)
    requires |c| == 16 && |p| == 17 && q == Add(p, [true] + G16)
    ensures Feed(c, p) == Feed(c, q)
  {
    var s, t := Shift(Add(c, Top(p[0]))), Shift(Add(c, Top(q[0])));
    TopDiffers(c, p[0]);
    hide Shift, Shifts, Top;
    FeedIsShifts(s, p[1..]);
    FeedIsShifts(t, q[1..]);
    assert q[1..] == Add(p[1..], G16);
    hide Add, Zero;
    BothShifted(s, p[1..]);
    assert p[1..] + Zero(0) == p[1..] && q[1..] + Zero(0) == q[1..];
  }

  lemma BothShifted(s: Poly, w: Poly)
    requires |s| == |w| == 16
    ensures Add(Add(s, G16), Add(w, G16)) == Add(s, w)
  {
  }

  lemma FeedMissesAt(c: Poly, p: Poly, q: Poly, at: nat)
    requires |c| == 16 && at + 17 <= |p|
    requires q == Add(p, Zero(at) + ([true] + G16) + Zero(|p| - at - 17))
    ensures Feed(c, p) == Feed(c, q)
  {
    hide Feed;
    var hi := at + 17;
    assert p[..at] == q[..at] && p[hi..] == q[hi..];
    assert q[at..hi] == Add(p[at..hi], [true] + G16);
    FeedCut(c, p, at, hi);
    FeedCut(c, q, at, hi);
    FeedMissesGenerator(Feed(c, p[..at]), p[at..hi], q[at..hi]);
  }

  /** Sixteen is the limit: adding the 17 bits of the generator anywhere goes unnoticed. */
  lemma GeneratorMissed(c: Sum, m: seq<Byte>, n: seq<Byte>, at: nat)
    requires |m| == |n| && at + 17 <= 8 * |m|
    requires Bits(n) == Add(Bits(m), Zero(at) + ([true] + G16) + Zero(8 * |m| - at - 17))
    ensures Ccitt(c, m) == Ccitt(c, n)
  {
    hide BitsOf, Feed, Ccitt, Bits, Add, Zero;
    CcittFeeds(c, m);
    CcittFeeds(c, n);
    FeedMissesAt(BitsOf(c, 16), Bits(m), Bits(n), at);
    assert Pow2(16) == TWO16 by { Pow2Widths(); }
    BitsOfInjective(Ccitt(c, m), Ccitt(c, n), 16);
  }

  // ---------- errors of odd weight ----------

  /** The number of ones. */
  function Weight(p: Poly): nat {
    if p == [] then 0 else (if p[0] then 1 else 0) + Weight(p[1..])
  }

  lemma {:induction false} WeightAppend(p: Poly, q: Poly)
    ensures Weight(p + q) == Weight(p) + Weight(q)
  {
    if p == [] {
      assert p + q == q;
    } else {
      assert (p + q)[1..] == p[1..] + q;
      WeightAppend(p[1..], q);
    }
  }

  /** Adding keeps the parity of the weights. */
  lemma {:induction false} WeightOfSum(p: Poly, q: Poly)
    requires |p| == |q|
    ensures Weight(Add(p, q)) % 2 == (Weight(p) + Weight(q)) % 2
  {
    if p != [] {
      assert Add(p, q)[1..] == Add(p[1..], q[1..]);
      WeightOfSum(p[1..], q[1..]);
    }
  }

  lemma WeightOfGenerator()
    ensures Weight(G16) == 3
  {
    hide Weight;
    assert G16 == [false, false, false, true] + [false, false, false, false]
                  + [false, false, true, false] + [false, false, false, true];
    WeightAppend([false, false, false, true] + [false, false, false, false] + [false, false, true, false],
                 [false, false, false, true]);
    WeightAppend([false, false, false, true] + [false, false, false, false], [false, false, true, false]);
    WeightAppend([false, false, false, true], [false, false, false, false]);
    WeightOfFour(false, false, false, true);
    WeightOfFour(false, false, false, false);
    WeightOfFour(false, false, true, false);
    WeightOfOne(true);
    WeightOfOne(false);
  }

  lemma WeightOfFour(a: bool, b: bool, c: bool, d: bool)
    ensures Weight([a, b, c, d]) == Weight([a]) + Weight([b]) + Weight([c]) + Weight([d])
  {
    hide Weight;
    WeightAppend([a], [b, c, d]);
    WeightAppend([b], [c, d]);
    WeightAppend([c], [d]);
    assert [a, b, c, d] == [a] + [b, c, d] && [b, c, d] == [b] + [c, d] && [c, d] == [c] + [d];
  }

  lemma TopAndRest(c: Poly)
    requires |c| > 0
    ensures Weight(c) == (if c[0] then 1 else 0) + Weight(c[1..] + [false])
  {
    hide Weight;
    WeightAppend([c[0]], c[1..]);
    WeightAppend(c[1..], [false]);
    assert c == [c[0]] + c[1..];
    WeightOfOne(c[0]);
    WeightOfOne(false);
  }

  lemma Reduced(rest: Poly, g: Poly)
    requires |rest| == |g| && Weight(g) == 3
    ensures Weight(Add(rest, g)) % 2 == (1 + Weight(rest)) % 2
  {
    hide Weight, Add;
    WeightOfSum(rest, g);
  }

  /** x + 1 divides the generator: the term that comes out at the top and the three that go in are an
      even number. */
  lemma ShiftKeepsParity(c: Poly)
    requires |c| == 16
    ensures Weight(Shift(c)) % 2 == Weight(c) % 2
  {
    hide Weight, Add;
    TopAndRest(c);
    WeightOfGenerator();
    if c[0] {
      Reduced(c[1..] + [false], G16);
    }
  }

  lemma WeightOfOne(b: bool)
    ensures Weight([b]) == if b then 1 else 0
  {
  }

  lemma {:induction false} WeightOfZero(n: nat)
    ensures Weight(Zero(n)) == 0
  {
    if n > 0 {
      assert Zero(n)[1..] == Zero(n - 1);
      WeightOfZero(n - 1);
    }
  }

  /** The register and the bits fed to it have, together, the parity of what comes out. */
  lemma {:induction false} FeedParity(c: Poly, p: Poly)
    requires |c| == 16
    ensures Weight(Feed(c, p)) % 2 == (Weight(c) + Weight(p)) % 2
    decreases |p|
  {
    hide Weight, Shift;
    if p == [] {
      WeightOfZero(0);
      assert Zero(0) == p;
    } else {
      var t := Add(c, Top(p[0]));
      WeightOfSum(c, Top(p[0]));
      WeightOfTop(p[0]);
      ShiftKeepsParity(t);
      FeedParity(Shift(t), p[1..]);
      WeightAppend([p[0]], p[1..]);
      WeightOfOne(p[0]);
      assert p == [p[0]] + p[1..];
    }
  }

  lemma WeightOfTop(b: bool)
    ensures Weight(Top(b)) == if b then 1 else 0
  {
    hide Weight;
    assert Top(b) == [b] + Zero(15);
    WeightAppend([b], Zero(15));
    WeightOfOne(b);
    WeightOfZero(15);
  }

  /** Two messages of one length whose bits differ in an odd number of places, however spread, never
      have the same checksum. */
  lemma OddErrorDetected(c: Sum, m: seq<Byte>, n: seq<Byte>)
    requires |m| == |n| && Weight(Add(Bits(m), Bits(n))) % 2 == 1
    ensures Ccitt(c, m) != Ccitt(c, n)
  {
    hide BitsOf, Feed, Ccitt, Bits, Weight;
    CcittFeeds(c, m);
    CcittFeeds(c, n);
    FeedParity(BitsOf(c, 16), Bits(m));
    FeedParity(BitsOf(c, 16), Bits(n));
    WeightOfSum(Bits(m), Bits(n));
  }
}
