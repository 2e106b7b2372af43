/** Unsigned machine integers as natural numbers: powers of two, bitwise operations and
    byte order. Widths and wrap-around are written out where they matter. */
module MachineWords {

  const TWO8: nat := 0x100
  const TWO16: nat := 0x1_0000
  const TWO32: nat := 0x1_0000_0000
  const TWO64: nat := 0x1_0000_0000_0000_0000

  type Byte = b: nat | b < 0x100
  type Word = w: nat | w < 0x1_0000_0000
  type DoubleWord = d: nat | d < 0x1_0000_0000_0000_0000

  // ---------- powers of two ----------

  function Pow2(n: nat): (p: nat)
    ensures p > 0
  {
    if n == 0 then 1 else 2 * Pow2(n - 1)
  }

  lemma {:induction false} Pow2Sum(m: nat, n: nat)
    ensures Pow2(m + n) == Pow2(m) * Pow2(n)
  {
    if m > 0 {
      Pow2Sum(m - 1, n);
    }
  }

  lemma {:induction false} Pow2Below(b: nat, n: nat)
    requires b < n
    ensures Pow2(b) < Pow2(n)
  {
    if b > 0 {
      Pow2Below(b - 1, n - 1);
    }
  }

  lemma Pow2Of8()
    ensures Pow2(8) == TWO8
  {
    assert Pow2(4) == 16;
    Pow2Sum(4, 4);
  }

  lemma Pow2Widths()
    ensures Pow2(8) == TWO8 && Pow2(16) == TWO16 && Pow2(32) == TWO32 && Pow2(64) == TWO64
  {
    hide Pow2;
    Pow2Of8();
    Pow2Sum(8, 8);
    Pow2Sum(16, 16);
    Pow2Sum(32, 32);
  }

  /** Quotient and remainder are the only ones of their kind. */
  lemma DivModUnique(x: int, k: int, q: int, r: int)
    requires 0 <= r < k && x == q * k + r
    ensures x / k == q && x % k == r
  {
    var d := q - x / k;
    assert d * k == x % k - r;
    assert d >= 1 ==> d * k >= k;
    assert d <= -1 ==> d * k <= -k;
  }

  lemma Regroup(z: nat, p: nat, w: nat, k: nat, r: nat)
    requires w < p && r < k
    ensures (z * p + w) * k + r == z * (p * k) + (w * k + r)
    ensures w * k + r < p * k
  {
    assert (w + 1) * k <= p * k;
  }

  lemma ModProductOf(x: nat, p: nat, k: nat, n: nat, y: nat, r: nat, z: nat, w: nat)
    requires x == y * k + r && r < k && y == z * p + w && w < p && n == p * k
    ensures n > 0 && x % n % k == r && x % n / k == w
  {
    Regroup(z, p, w, k, r);
    DivModUnique(x, n, z, w * k + r);
    DivModUnique(w * k + r, k, w, r);
  }

  lemma Split(x: nat, k: nat)
    requires k > 0
    ensures x == x / k * k + x % k
  {
  }

  /** What the remainder modulo n = p * k leaves modulo k, and its quotient by k. */
  lemma ModProduct(x: nat, p: nat, k: nat, n: nat)
    requires p > 0 && k > 0 && n > 0 && n == p * k
    ensures x % n % k == x % k && x % n / k == x / k % p
  {
    var y := x / k;
    Split(x, k);
    Split(y, p);
    ModProductOf(x, p, k, n, y, x % k, y / p, y % p);
  }

  lemma AddModulo(x: nat, y: nat, m: nat)
    requires m > 0
    ensures (x % m + y) % m == (x + y) % m
  {
    Split(x, m);
    Split(x % m + y, m);
    var q := x / m + (x % m + y) / m;
    assert q * m == x / m * m + (x % m + y) / m * m;
    DivModUnique(x + y, m, q, (x % m + y) % m);
  }

  function Min(x: nat, y: nat): nat {
    if x < y then x else y
  }

  lemma LowHalf(x: nat)
    ensures x % TWO64 % TWO32 == x % TWO32
  {
    ModProduct(x, TWO32, TWO32, TWO64);
  }

  lemma LowPow2(x: nat, m: nat)
    requires m > 0
    ensures x % Pow2(m) % 2 == x % 2
    ensures x % Pow2(m) / 2 == x / 2 % Pow2(m - 1)
  {
    ModProduct(x, Pow2(m - 1), 2, Pow2(m));
  }

  // ---------- bitwise operations ----------

  datatype Op = And | Or | Xor

  predicate OnBits(op: Op, a: bool, b: bool) {
    match op
    case And => a && b
    case Or => a || b
    case Xor => a != b
  }

  function Bitwise(op: Op, x: nat, y: nat): nat
    decreases x + y
  {
    if x == 0 && y == 0 then 0
    else 2 * Bitwise(op, x / 2, y / 2) + (if OnBits(op, x % 2 == 1, y % 2 == 1) then 1 else 0)
  }

  lemma BitwiseStep(op: Op, x: nat, y: nat)
    ensures Bitwise(op, x, y) / 2 == Bitwise(op, x / 2, y / 2)
    ensures Bitwise(op, x, y) % 2 == 1 <==> OnBits(op, x % 2 == 1, y % 2 == 1)
  {
  }

  lemma {:induction false} Commute(op: Op, x: nat, y: nat)
    ensures Bitwise(op, x, y) == Bitwise(op, y, x)
    decreases x + y
  {
    if x > 0 || y > 0 {
      Commute(op, x / 2, y / 2);
    }
  }

  lemma {:induction false} BitwiseBound(op: Op, x: nat, y: nat, n: nat)
    requires x < Pow2(n) && y < Pow2(n)
    ensures Bitwise(op, x, y) < Pow2(n)
  {
    if n > 0 {
      BitwiseBound(op, x / 2, y / 2, n - 1);
    }
  }

  lemma BitwiseWord(op: Op, x: Word, y: Word)
    ensures Bitwise(op, x, y) < TWO32
  {
    Pow2Widths();
    BitwiseBound(op, x, y, 32);
  }

  lemma {:induction false} BitwiseLow(op: Op, x: nat, y: nat, m: nat)
    ensures Bitwise(op, x, y) % Pow2(m) == Bitwise(op, x % Pow2(m), y % Pow2(m))
  {
    if m > 0 {
      var z := Bitwise(op, x, y);
      var u := Bitwise(op, x % Pow2(m), y % Pow2(m));
      LowPow2(x, m);
      LowPow2(y, m);
      LowPow2(z, m);
      BitwiseStep(op, x, y);
      BitwiseStep(op, x % Pow2(m), y % Pow2(m));
      BitwiseLow(op, x / 2, y / 2, m - 1);
      assert z % Pow2(m) / 2 == u / 2;
      assert z % Pow2(m) % 2 == u % 2;
    }
  }

  /** An `or` of values without common bits is their sum. */
  lemma {:induction false} OrDisjoint(u: nat, v: nat, k: nat)
    requires u % Pow2(k) == 0 && v < Pow2(k)
    ensures Bitwise(Or, u, v) == u + v
    ensures Bitwise(Or, v, u) == u + v
  {
    if k == 0 {
      OrZero(u);
    } else {
      LowPow2(u, k);
      assert u % 2 == 0 && u / 2 % Pow2(k - 1) == 0;
      OrDisjoint(u / 2, v / 2, k - 1);
      BitwiseStep(Or, u, v);
      BitwiseStep(Or, v, u);
    }
  }

  lemma {:induction false} OrZero(u: nat)
    ensures Bitwise(Or, u, 0) == u && Bitwise(Or, 0, u) == u
  {
    if u > 0 {
      OrZero(u / 2);
    }
  }

  /** Masking with k ones keeps the k low bits. */
  lemma {:induction false} AndMask(x: nat, k: nat)
    ensures Bitwise(And, x, Pow2(k) - 1) == x % Pow2(k)
  {
    if k == 0 {
      AndZero(x);
    } else {
      AndMask(x / 2, k - 1);
      AndMaskStep(x, k);
    }
  }

  lemma AndMaskStep(x: nat, k: nat)
    requires k > 0 && Bitwise(And, x / 2, Pow2(k - 1) - 1) == x / 2 % Pow2(k - 1)
    ensures Bitwise(And, x, Pow2(k) - 1) == x % Pow2(k)
  {
    hide Pow2, Bitwise;
    OddMask(k);
    LowPow2(x, k);
    BitwiseStep(And, x, Pow2(k) - 1);
    SameHalves(Bitwise(And, x, Pow2(k) - 1), x % Pow2(k));
  }

  lemma OddMask(k: nat)
    requires k > 0
    ensures (Pow2(k) - 1) % 2 == 1 && (Pow2(k) - 1) / 2 == Pow2(k - 1) - 1
  {
  }

  lemma SameHalves(x: nat, y: nat)
    ensures x / 2 == y / 2 && (x % 2 == 1 <==> y % 2 == 1) ==> x == y
  {
  }

  lemma {:induction false} AndZero(x: nat)
    ensures Bitwise(And, x, 0) == 0
  {
    if x > 0 {
      AndZero(x / 2);
    }
  }

  // ---------- single bits ----------

  predicate Bit(x: nat, k: nat) {
    if k == 0 then x % 2 == 1 else Bit(x / 2, k - 1)
  }

  lemma {:induction false} BitOfBitwise(op: Op, x: nat, y: nat, k: nat)
    ensures Bit(Bitwise(op, x, y), k) == OnBits(op, Bit(x, k), Bit(y, k))
  {
    BitwiseStep(op, x, y);
    if k > 0 {
      BitOfBitwise(op, x / 2, y / 2, k - 1);
    }
  }

  lemma {:induction false} BitOfZero(k: nat)
    ensures !Bit(0, k)
  {
    if k > 0 {
      BitOfZero(k - 1);
    }
  }

  lemma {:induction false} BitOfPow2(b: nat, k: nat)
    ensures Bit(Pow2(b), k) == (b == k)
  {
    if b == 0 && k > 0 {
      BitOfZero(k - 1);
    } else if b > 0 && k > 0 {
      BitOfPow2(b - 1, k - 1);
    }
  }

  lemma {:induction false} BitOfOnes(n: nat, k: nat)
    requires k < n
    ensures Bit(Pow2(n) - 1, k)
  {
    if k > 0 {
      BitOfOnes(n - 1, k - 1);
    }
  }

  lemma HalfHole(p: nat, q: nat)
    requires q < p
    ensures (2 * p - 1 - 2 * q) / 2 == p - 1 - q && (2 * p - 1 - 2 * q) % 2 == 1
    ensures (2 * p - 1 - 1) / 2 == p - 1 && (2 * p - 1 - 1) % 2 == 0
  {
  }

  /** All ones but one. */
  lemma {:induction false} BitOfHole(n: nat, b: nat, k: nat)
    requires b < n && k < n
    ensures Pow2(b) < Pow2(n)
    ensures Bit(Pow2(n) - 1 - Pow2(b), k) == (b != k)
  {
    Pow2Below(b, n);
    if b > 0 {
      Pow2Below(b - 1, n - 1);
      HalfHole(Pow2(n - 1), Pow2(b - 1));
      if k > 0 {
        BitOfHole(n - 1, b - 1, k - 1);
      }
    } else {
      HalfHole(Pow2(n - 1), 0);
      if k > 0 {
        BitOfOnes(n - 1, k - 1);
      }
    }
  }

  lemma {:induction false} BitBound(x: nat, k: nat, n: nat)
    requires Bit(x, k) && x < Pow2(n)
    ensures k < n
  {
    if n == 0 {
      BitOfZero(k);
    } else if k > 0 {
      BitBound(x / 2, k - 1, n - 1);
    }
  }

  /** The position of the highest bit set. */
  function HighestBit(x: nat): (b: nat)
    requires x > 0
    ensures Bit(x, b) && Pow2(b) <= x < Pow2(b + 1)
  {
    if x == 1 then 0 else 1 + HighestBit(x / 2)
  }

  // ---------- shifts ----------

  function ShiftLeft(x: nat, s: nat): nat {
    if s == 0 then x else 2 * ShiftLeft(x, s - 1)
  }

  function ShiftRight(x: nat, s: nat): nat {
    if s == 0 then x else ShiftRight(x / 2, s - 1)
  }

  lemma {:induction false} ShiftLeftPow2(x: nat, s: nat)
    ensures ShiftLeft(x, s) == x * Pow2(s)
  {
    if s > 0 {
      ShiftLeftPow2(x, s - 1);
    }
  }

  lemma {:induction false} ShiftRightPow2(x: nat, s: nat)
    ensures ShiftRight(x, s) == x / Pow2(s)
  {
    if s > 0 {
      var p := Pow2(s - 1);
      ShiftRightPow2(x / 2, s - 1);
      Split(x / 2, p);
      Halve(x, x / 2 / p, x / 2 % p, p);
    }
  }

  lemma Halve(x: nat, q: nat, r: nat, p: nat)
    requires x / 2 == q * p + r && r < p
    ensures x / (2 * p) == q
  {
    assert x == q * (2 * p) + (2 * r + x % 2);
    DivModUnique(x, 2 * p, q, 2 * r + x % 2);
  }

  /** For n = p * q, x / q and the multiple x * p mod n of p never overlap. */
  lemma RotateHalves(x: nat, p: nat, q: nat, n: nat, u: nat, v: nat)
    requires p > 0 && q > 0 && n > 0 && n == q * p && x < n
    requires u == x * p % n && v == x / q
    ensures u % p == 0 && v < p && u + v < n
  {
    ModProduct(x * p, q, p, n);
    DivModUnique(x * p, p, x, 0);
    Split(x, q);
    QuotientBound(v, q, p, n);
    MultipleBelow(u, p, q, n);
  }

  lemma MultipleBelow(u: nat, p: nat, q: nat, n: nat)
    requires p > 0 && u % p == 0 && u < n == q * p
    ensures u + p <= n
  {
    Split(u, p);
    QuotientBound(u / p, p, q, n);
    Product(u / p, q, p);
  }

  lemma QuotientBound(y: nat, k: nat, p: nat, n: nat)
    requires y * k < n && n == k * p
    ensures y < p
  {
    assert y >= p ==> y * k >= p * k;
  }

  lemma Product(y: nat, q: nat, p: nat)
    requires y < q
    ensures y * p + p <= q * p
  {
    assert (y + 1) * p <= q * p;
  }

  lemma RotateFits(x: Word, s: nat)
    requires 0 < s < 32
    ensures ShiftRight(x, 32 - s) < Pow2(s)
    ensures ShiftLeft(x, s) % TWO32 % Pow2(s) == 0
    ensures ShiftLeft(x, s) % TWO32 + ShiftRight(x, 32 - s) < TWO32
  {
    Pow2Sum(32 - s, s);
    Pow2Widths();
    ShiftLeftPow2(x, s);
    ShiftRightPow2(x, 32 - s);
    RotateHalves(x, Pow2(s), Pow2(32 - s), TWO32, ShiftLeft(x, s) % TWO32, ShiftRight(x, 32 - s));
  }

  // ---------- byte order ----------

  /** The n low-order bytes of v, low-order byte first. */
  function LittleEndian(v: nat, n: nat): (b: seq<Byte>)
    ensures |b| == n
  {
    if n == 0 then [] else [v % 0x100] + LittleEndian(v / 0x100, n - 1)
  }

  function FromLittleEndian(b: seq<Byte>): nat {
    if |b| == 0 then 0 else b[0] + 0x100 * FromLittleEndian(b[1..])
  }

  lemma {:induction false} LittleEndianRoundTrip(v: nat, n: nat)
    requires v < Pow2(8 * n)
    ensures FromLittleEndian(LittleEndian(v, n)) == v
  {
    if n > 0 {
      Pow2Sum(8, 8 * (n - 1));
      assert Pow2(8) == 0x100;
      LittleEndianRoundTrip(v / 0x100, n - 1);
      assert LittleEndian(v, n)[1..] == LittleEndian(v / 0x100, n - 1);
    }
  }
}
