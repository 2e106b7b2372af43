/** The MD5 message digest as RFC 1321 defines it: the reference that the firmware's
    streaming, 64-bit-register implementation (common/md5.c) is proved against. */
module Md5Rfc {

  import opened MachineWords

  /** The four-word buffer (A, B, C, D) of section 3.3. */
  datatype Chain = Chain(a: Word, b: Word, c: Word, d: Word)

  const INITIAL := Chain(0x67452301, 0xefcdab89, 0x98badcfe, 0x10325476)

  // ---------- section 3.4: the auxiliary functions and the 64 operations ----------

  function BitAnd(x: Word, y: Word): Word {
    BitwiseWord(And, x, y);
    Bitwise(And, x, y)
  }

  function BitOr(x: Word, y: Word): Word {
    BitwiseWord(Or, x, y);
    Bitwise(Or, x, y)
  }

  function BitXor(x: Word, y: Word): Word {
    BitwiseWord(Xor, x, y);
    Bitwise(Xor, x, y)
  }

  function Not(x: Word): Word { 0xffff_ffff - x }

  function F(x: Word, y: Word, z: Word): Word { BitOr(BitAnd(x, y), BitAnd(Not(x), z)) }

  function G(x: Word, y: Word, z: Word): Word { BitOr(BitAnd(x, z), BitAnd(y, Not(z))) }

  function H(x: Word, y: Word, z: Word): Word { BitXor(BitXor(x, y), z) }

  function I(x: Word, y: Word, z: Word): Word { BitXor(y, BitOr(x, Not(z))) }

  function Mix(round: nat, x: Word, y: Word, z: Word): Word {
    if round == 1 then F(x, y, z)
    else if round == 2 then G(x, y, z)
    else if round == 3 then H(x, y, z)
    else I(x, y, z)
  }

  /** A rotation amount and an index into the sixteen message words. */
  type Amount = s: nat | 0 < s < 32 witness 1
  type Index = k: nat | k < 16

  /** `x <<< s`: the s high-order bits of x come round to the low end. */
  function RotateLeft(x: Word, s: Amount): Word {
    RotateFits(x, s);
    ShiftLeft(x, s) % TWO32 + ShiftRight(x, 32 - s)
  }

  function Add(x: nat, y: nat): Word { (x + y) % TWO32 }

  /** One operation `a = b + ((a + f(b,c,d) + X[k] + T[i]) <<< s)`. */
  function Operation(round: nat, a: Word, b: Word, c: Word, d: Word, x: Word, s: Amount, t: Word): Word {
    Add(b, RotateLeft(Add(Add(Add(a, Mix(round, b, c, d)), x), t), s))
  }

  /** An entry `[abcd k s i]` of the table in section 3.4; t is T[i] = floor(2^32 * abs(sin(i))). */
  datatype Entry = Entry(round: nat, k: Index, s: Amount, t: Word)

  const ROUND1: seq<Entry> := [
    Entry(1, 0, 7, 0xd76aa478), Entry(1, 1, 12, 0xe8c7b756), Entry(1, 2, 17, 0x242070db), Entry(1, 3, 22, 0xc1bdceee),
    Entry(1, 4, 7, 0xf57c0faf), Entry(1, 5, 12, 0x4787c62a), Entry(1, 6, 17, 0xa8304613), Entry(1, 7, 22, 0xfd469501),
    Entry(1, 8, 7, 0x698098d8), Entry(1, 9, 12, 0x8b44f7af), Entry(1, 10, 17, 0xffff5bb1), Entry(1, 11, 22, 0x895cd7be),
    Entry(1, 12, 7, 0x6b901122), Entry(1, 13, 12, 0xfd987193), Entry(1, 14, 17, 0xa679438e), Entry(1, 15, 22, 0x49b40821)]

  const ROUND2: seq<Entry> := [
    Entry(2, 1, 5, 0xf61e2562), Entry(2, 6, 9, 0xc040b340), Entry(2, 11, 14, 0x265e5a51), Entry(2, 0, 20, 0xe9b6c7aa),
    Entry(2, 5, 5, 0xd62f105d), Entry(2, 10, 9, 0x02441453), Entry(2, 15, 14, 0xd8a1e681), Entry(2, 4, 20, 0xe7d3fbc8),
    Entry(2, 9, 5, 0x21e1cde6), Entry(2, 14, 9, 0xc33707d6), Entry(2, 3, 14, 0xf4d50d87), Entry(2, 8, 20, 0x455a14ed),
    Entry(2, 13, 5, 0xa9e3e905), Entry(2, 2, 9, 0xfcefa3f8), Entry(2, 7, 14, 0x676f02d9), Entry(2, 12, 20, 0x8d2a4c8a)]

  const ROUND3: seq<Entry> := [
    Entry(3, 5, 4, 0xfffa3942), Entry(3, 8, 11, 0x8771f681), Entry(3, 11, 16, 0x6d9d6122), Entry(3, 14, 23, 0xfde5380c),
    Entry(3, 1, 4, 0xa4beea44), Entry(3, 4, 11, 0x4bdecfa9), Entry(3, 7, 16, 0xf6bb4b60), Entry(3, 10, 23, 0xbebfbc70),
    Entry(3, 13, 4, 0x289b7ec6), Entry(3, 0, 11, 0xeaa127fa), Entry(3, 3, 16, 0xd4ef3085), Entry(3, 6, 23, 0x04881d05),
    Entry(3, 9, 4, 0xd9d4d039), Entry(3, 12, 11, 0xe6db99e5), Entry(3, 15, 16, 0x1fa27cf8), Entry(3, 2, 23, 0xc4ac5665)]

  const ROUND4: seq<Entry> := [
    Entry(4, 0, 6, 0xf4292244), Entry(4, 7, 10, 0x432aff97), Entry(4, 14, 15, 0xab9423a7), Entry(4, 5, 21, 0xfc93a039),
    Entry(4, 12, 6, 0x655b59c3), Entry(4, 3, 10, 0x8f0ccc92), Entry(4, 10, 15, 0xffeff47d), Entry(4, 1, 21, 0x85845dd1),
    Entry(4, 8, 6, 0x6fa87e4f), Entry(4, 15, 10, 0xfe2ce6e0), Entry(4, 6, 15, 0xa3014314), Entry(4, 13, 21, 0x4e0811a1),
    Entry(4, 4, 6, 0xf7537e82), Entry(4, 11, 10, 0xbd3af235), Entry(4, 2, 15, 0x2ad7d2bb), Entry(4, 9, 21, 0xeb86d391)]

  /** The buffer after one operation; its roles rotate ABCD, DABC, CDAB, BCDA. */
  function Step(e: Entry, s: Chain, x: seq<Word>): Chain
    requires |x| == 16
  {
    Chain(s.d, Operation(e.round, s.a, s.b, s.c, s.d, x[e.k], e.s, e.t), s.b, s.c)
  }

  function Run(es: seq<Entry>, s: Chain, x: seq<Word>): Chain
    requires |x| == 16
  {
    if |es| == 0 then s else Run(es[1..], Step(es[0], s, x), x)
  }

  function Rounds(s: Chain, x: seq<Word>): Chain
    requires |x| == 16
  {
    Run(ROUND4, Run(ROUND3, Run(ROUND2, Run(ROUND1, s, x), x), x), x)
  }

  function Plus(s: Chain, t: Chain): Chain {
    Chain(Add(s.a, t.a), Add(s.b, t.b), Add(s.c, t.c), Add(s.d, t.d))
  }

  /** Four bytes as a word, low-order byte first (section 2). */
  function WordAt(b: seq<Byte>, j: nat): Word
    requires 4 * j + 4 <= |b|
  {
    b[4 * j] + 0x100 * (b[4 * j + 1] + 0x100 * (b[4 * j + 2] + 0x100 * (b[4 * j + 3] as nat)))
  }

  function Words(b: seq<Byte>): (x: seq<Word>)
    requires |b| == 64
    ensures |x| == 16
  {
    seq(16, j requires 0 <= j < 16 => WordAt(b, j))
  }

  /** One pass of section 3.4 over a 64-byte block; blocks of another size do not occur. */
  function Compress(s: Chain, block: seq<Byte>): Chain {
    if |block| != 64 then s else Plus(s, Rounds(s, Words(block)))
  }

  /** Process a whole number of blocks with block function f. */
  function Fold(f: (Chain, seq<Byte>) -> Chain, s: Chain, m: seq<Byte>): Chain
    requires |m| % 64 == 0
    decreases |m|
  {
    if |m| == 0 then s else Fold(f, f(s, m[..64]), m[64..])
  }

  lemma {:induction false} FoldAppend(f: (Chain, seq<Byte>) -> Chain, s: Chain, m: seq<Byte>, n: seq<Byte>)
    requires |m| % 64 == 0 && |n| % 64 == 0
    ensures Fold(f, s, m + n) == Fold(f, Fold(f, s, m), n)
    decreases |m|
  {
    if |m| == 0 {
      assert m + n == n;
    } else {
      assert (m + n)[..64] == m[..64];
      assert (m + n)[64..] == m[64..] + n;
      FoldAppend(f, f(s, m[..64]), m[64..], n);
    }
  }

  /** The buffer after processing a message that is a whole number of 16-word blocks. */
  function Absorb(s: Chain, m: seq<Byte>): Chain
    requires |m| % 64 == 0
  {
    Fold(Compress, s, m)
  }

  // ---------- sections 3.1, 3.2 and 3.5: padding and output ----------

  function Zeros(n: nat): (z: seq<Byte>)
    ensures |z| == n
  {
    seq(n, _ => 0)
  }

  /** The number of zero bytes after the 0x80 byte for a message of n bytes. */
  function ZeroCount(n: nat): (k: nat)
    ensures (n + 1 + k) % 64 == 56 && k < 64
  {
    (119 - n % 64) % 64
  }

  function Padded(m: seq<Byte>): (p: seq<Byte>)
    ensures |p| % 64 == 0
  {
    PaddedLength(|m|);
    m + [0x80] + Zeros(ZeroCount(|m|)) + LittleEndian(8 * |m| % TWO64, 8)
  }

  lemma PaddedLength(n: nat)
    ensures (n + 1 + ZeroCount(n) + 8) % 64 == 0
  {
  }

  function Output(s: Chain): (b: seq<Byte>)
    ensures |b| == 16
  {
    LittleEndian(s.a, 4) + LittleEndian(s.b, 4) + LittleEndian(s.c, 4) + LittleEndian(s.d, 4)
  }

  function Digest(m: seq<Byte>): (d: seq<Byte>)
    ensures |d| == 16
  {
    Output(Absorb(INITIAL, Padded(m)))
  }
}
