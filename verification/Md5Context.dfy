/** The streaming interface of common/md5.c: a context that is initialised, updated with arbitrary
    pieces of a message and finished. Every way of cutting a message gives its RFC 1321 digest. */
module Md5Context {
  import opened MachineWords
  import opened Md5Rfc
  import opened Md5Registers

  /** The message made of a list of pieces. */
  function Concat(pieces: seq<seq<Byte>>): seq<Byte> {
    if |pieces| == 0 then [] else pieces[0] + Concat(pieces[1..])
  }

  /** The bytes of m that a streaming hash has not passed to the block function yet. */
  function Tail(m: seq<Byte>): (t: seq<Byte>)
    ensures |t| == |m| % 64
  {
    m[|m| - |m| % 64..]
  }

  function Whole(m: seq<Byte>): (w: seq<Byte>)
    ensures |w| % 64 == 0
  {
    m[..|m| - |m| % 64]
  }

  lemma FoldSnoc(s: Chain, m: seq<Byte>, b: seq<Byte>)
    requires |m| % 64 == 0 && |b| == 64
    ensures Absorb(s, m + b) == Compress(Absorb(s, m), b)
  {
    hide Compress;
    FoldAppend(Compress, s, m, b);
    assert b[..64] == b && b[64..] == [];
  }

  lemma AbsorbAppend(s: Chain, m: seq<Byte>, n: seq<Byte>)
    requires |m| % 64 == 0 && |n| % 64 == 0
    ensures Absorb(s, m + n) == Absorb(Absorb(s, m), n)
  {
    hide Compress;
    FoldAppend(Compress, s, m, n);
  }

  /** The tail topped up by the first k bytes of d completes a block. */
  lemma TopUp(m: seq<Byte>, d: seq<Byte>, k: nat)
    requires k <= |d| && |m| % 64 + k == 64
    ensures Whole(m) + (Tail(m) + d[..k]) == m + d[..k]
    ensures |m + d[..k]| % 64 == 0
    ensures m + d == (m + d[..k]) + d[k..]
  {
  }

  lemma StillShort(m: seq<Byte>, d: seq<Byte>)
    requires |m| % 64 + |d| < 64
    ensures Tail(m + d) == Tail(m) + d && Whole(m + d) == Whole(m)
  {
    var q, n := |m| / 64, |m| - |m| % 64;
    DivModUnique(|m + d|, 64, q, |m| % 64 + |d|);
    assert (m + d)[n..] == m[n..] + d;
    assert (m + d)[..n] == m[..n];
  }

  lemma WholeTail(m: seq<Byte>)
    ensures m == Whole(m) + Tail(m)
  {
  }

  lemma NoTail(m: seq<Byte>)
    requires |m| % 64 == 0
    ensures Whole(m) == m
  {
  }

  lemma Aligned(done: seq<Byte>, d: seq<Byte>)
    requires |done| % 64 == 0
    ensures Whole(done + d) == done + d[..64 * (|d| / 64)]
    ensures Tail(done + d) == d[64 * (|d| / 64)..]
  {
    var n := 64 * (|d| / 64);
    DivModUnique(|done + d|, 64, |done| / 64 + |d| / 64, |d| % 64);
    assert |done + d| - |done + d| % 64 == |done| + n;
  }

  /** Adding a length to the split bit counter, with the carry test of Update. */
  function CountLow(nl: Word, len: DoubleWord): Word {
    (nl + len % TWO32 * 8 % TWO32) % TWO32
  }

  function CountHigh(nl: Word, nh: Word, len: DoubleWord): Word {
    var nh1 := if CountLow(nl, len) < nl then (nh + 1) % TWO32 else nh;
    (nh1 + len / 0x2000_0000) % TWO32
  }

  /** Nh and Nl are the high and low half of the message's length in bits, modulo 2^64. */
  predicate Counts(nl: Word, nh: Word, total: nat) {
    nh * TWO32 + nl == 8 * total % TWO64
  }

  lemma CountAdds(nl: Word, nh: Word, len: DoubleWord, total: nat)
    requires Counts(nl, nh, total)
    ensures Counts(CountLow(nl, len), CountHigh(nl, nh, len), total + len)
  {
    var low := len % TWO32 * 8 % TWO32;
    ShiftedLength(len);
    Carry(nl, low);
    var carry := (nl + low) / TWO32;
    var high := nh + carry + len / 0x2000_0000;
    assert CountHigh(nl, nh, len) == high % TWO32;
    Join(high, CountLow(nl, len));
    AddModulo(8 * total, 8 * len, TWO64);
  }

  lemma TimesEight(w: nat, a: nat, r: nat)
    requires w == a * 0x2000_0000 + r && r < 0x2000_0000
    ensures 8 * w == a * TWO32 + 8 * r && w * 8 % TWO32 == 8 * r
  {
    DivModUnique(w * 8, TWO32, a, 8 * r);
  }

  lemma ShiftedLength(len: DoubleWord)
    ensures 8 * len == len / 0x2000_0000 * TWO32 + len % TWO32 * 8 % TWO32
  {
    var r := len % 0x2000_0000;
    ModProduct(len, 8, 0x2000_0000, TWO32);
    Split(len, 0x2000_0000);
    Split(len % TWO32, 0x2000_0000);
    TimesEight(len, len / 0x2000_0000, r);
    TimesEight(len % TWO32, len % TWO32 / 0x2000_0000, r);
  }

  lemma Carry(nl: Word, low: Word)
    ensures (nl + low) / TWO32 == if (nl + low) % TWO32 < nl then 1 else 0
  {
  }

  lemma Join(high: nat, low: Word)
    ensures high % TWO32 * TWO32 + low == (high * TWO32 + low) % TWO64
  {
    DivModUnique(high * TWO32 + low, TWO64, high / TWO32, high % TWO32 * TWO32 + low);
  }

  /** HOST_l2c: the four bytes of a word, by shifts and masks, low-order byte first. */
  function HostL2c(l: Word): (b: seq<Byte>)
    ensures |b| == 4
  {
    [l % 0x100, l / 0x100 % 0x100, l / 0x1_0000 % 0x100, l / 0x100_0000 % 0x100]
  }

  lemma HostL2cIsLittleEndian(l: Word)
    ensures HostL2c(l) == LittleEndian(l, 4)
  {
    LittleEndianUnfold(l);
    assert l / 0x100 / 0x100 == l / 0x1_0000 && l / 0x1_0000 / 0x100 == l / 0x100_0000;
  }

  lemma LittleEndianUnfold(l: nat)
    ensures LittleEndian(l, 4)
         == [l % 0x100, l / 0x100 % 0x100, l / 0x100 / 0x100 % 0x100, l / 0x100 / 0x100 / 0x100 % 0x100]
  {
    var l1, l2, l3 := l / 0x100, l / 0x100 / 0x100, l / 0x100 / 0x100 / 0x100;
    assert LittleEndian(l3, 1) == [l3 % 0x100] + LittleEndian(l3 / 0x100, 0);
    assert LittleEndian(l2, 2) == [l2 % 0x100] + LittleEndian(l3, 1);
    assert LittleEndian(l1, 3) == [l1 % 0x100] + LittleEndian(l2, 2);
    assert LittleEndian(l, 4) == [l % 0x100] + LittleEndian(l1, 3);
  }

  /** The 64-bit length in bits that ends the padding. */
  function Length(m: seq<Byte>): (b: seq<Byte>)
    ensures |b| == 8
  {
    LittleEndian(8 * |m| % TWO64, 8)
  }

  /** The padding completes the tail's block or, when the 0x80 byte leaves no room for the
      length, that block and one more. */
  lemma PaddedBlocks(m: seq<Byte>)
    ensures |m| % 64 < 56 ==>
              Padded(m) == Whole(m) + (Tail(m) + [0x80] + Zeros(55 - |m| % 64) + Length(m))
    ensures |m| % 64 >= 56 ==>
              Padded(m) == Whole(m) + (Tail(m) + [0x80] + Zeros(63 - |m| % 64)) + ([] + Zeros(56) + Length(m))
  {
    var r := |m| % 64;
    hide Tail, Whole, LittleEndian, Zeros;
    WholeTail(m);
    if r < 56 {
      assert ZeroCount(|m|) == 55 - r;
    } else {
      assert ZeroCount(|m|) == 119 - r;
      ZerosAppend(63 - r, 56);
    }
  }

  lemma ZerosAppend(m: nat, n: nat)
    ensures Zeros(m + n) == Zeros(m) + Zeros(n)
  {
  }

  /** The number whose n low-order bytes are those of low, with high above them. */
  function Above(low: nat, high: nat, n: nat): nat {
    if n == 0 then high else low % 0x100 + 0x100 * Above(low / 0x100, high, n - 1)
  }

  lemma {:induction false} LittleEndianAbove(low: nat, high: nat, n: nat)
    ensures LittleEndian(Above(low, high, n), n + 4) == LittleEndian(low, n) + LittleEndian(high, 4)
  {
    if n == 0 {
      assert LittleEndian(low, 0) == [];
    } else {
      var v := Above(low, high, n);
      LittleEndianAbove(low / 0x100, high, n - 1);
      assert v / 0x100 == Above(low / 0x100, high, n - 1) && v % 0x100 == low % 0x100;
      assert LittleEndian(v, n + 4) == [v % 0x100] + LittleEndian(v / 0x100, n - 1 + 4);
    }
  }

  /** The two counter words, one after the other, are the 64-bit length of the padding. */
  lemma LengthBytes(nl: Word, nh: Word, total: nat)
    requires Counts(nl, nh, total)
    ensures forall m: seq<Byte> :: |m| == total ==> HostL2c(nl) + HostL2c(nh) == Length(m)
  {
    hide LittleEndian, HostL2c;
    HostL2cIsLittleEndian(nl);
    HostL2cIsLittleEndian(nh);
    LittleEndianAbove(nl, nh, 4);
    var l1, l2, l3 := nl / 0x100, nl / 0x100 / 0x100, nl / 0x100 / 0x100 / 0x100;
    assert Above(nl, nh, 4) == nl % 0x100 + 0x100 * Above(l1, nh, 3);
    assert Above(l1, nh, 3) == l1 % 0x100 + 0x100 * Above(l2, nh, 2);
    assert Above(l2, nh, 2) == l2 % 0x100 + 0x100 * Above(l3, nh, 1);
    assert Above(l3, nh, 1) == l3 % 0x100 + 0x100 * nh;
  }

  class Context {
    var A: Word
    var B: Word
    var C: Word
    var D: Word
    var Nl: Word
    var Nh: Word
    var num: nat
    const data: array<Byte>

    /** Everything hashed so far. */
    ghost var message: seq<Byte>

    ghost function Buffer(): Chain
      reads this
    {
      Chain(A, B, C, D)
    }

    /** num < 64, the buffer holds exactly the unprocessed tail, the chain covers the rest, and
        the counter is the message's length in bits modulo 2^64. */
    ghost predicate Valid()
      reads this, data
    {
      && data.Length == 64
      && num == |message| % 64
      && data[..num] == Tail(message)
      && Buffer() == Absorb(INITIAL, Whole(message))
      && Counts(Nl, Nh, |message|)
    }

    /** The initial state, on a fresh context. */
    constructor ()
      ensures Valid() && message == []
      ensures fresh(data)
    {
      A, B, C, D := 0x67452301, 0xefcdab89, 0x98badcfe, 0x10325476;
      Nl, Nh, num := 0, 0, 0;
      data := new Byte[64](_ => 0);
      message := [];
    }

    /** md5_block_data_order. */
    method BlockDataOrder(p: seq<Byte>, n: nat)
      requires |p| == 64 * n
      modifies this`A, this`B, this`C, this`D
      ensures Buffer() == Absorb(old(Buffer()), p)
    {
      hide Compress;
      ghost var s0 := Buffer();
      var i := 0;
      while i < n
        invariant i <= n
        invariant Buffer() == Absorb(s0, p[..64 * i])
      {
        var block := p[64 * i..64 * i + 64];
        FoldSnoc(s0, p[..64 * i], block);
        assert p[..64 * i] + block == p[..64 * (i + 1)];
        var t := OneBlock(Chain(A, B, C, D), block);
        A, B, C, D := t.a, t.b, t.c, t.d;
        i := i + 1;
      }
      assert p[..64 * n] == p;
    }

    /** osal_memcpy(p + at, src, |src|) into the context's buffer. */
    method CopyIn(at: nat, src: seq<Byte>)
      requires at + |src| <= data.Length
      modifies data
      ensures data[..] == old(data[..at]) + src + old(data[at + |src|..])
    {
      forall i | 0 <= i < |src| {
        data[at + i] := src[i];
      }
    }

    /** The buffered tail of `done`, topped up to a block, goes through the block function. */
    method FillBlock(d: seq<Byte>, ghost done: seq<Byte>)
      requires data.Length == 64 && num + |d| == 64 && num == |done| % 64
      requires data[..num] == Tail(done) && Buffer() == Absorb(INITIAL, Whole(done))
      modifies this`A, this`B, this`C, this`D, this`num, data
      ensures num == 0 && |done + d| % 64 == 0 && Buffer() == Absorb(INITIAL, done + d)
    {
      hide Compress, Absorb, Tail, Whole;
      TopUp(done, d, 64 - num);
      assert d[..64 - num] == d;
      CopyIn(num, d);
      assert data[..] == Tail(done) + d;
      AbsorbAppend(INITIAL, Whole(done), data[..]);
      BlockDataOrder(data[..], 1);
      num := 0;
      CopyIn(0, Zeros(64)); // leave nothing behind
    }

    method Update(piece: seq<Byte>)
      requires Valid() && |piece| < TWO64
      modifies this, data
      ensures Valid() && message == old(message) + piece
    {
      hide Compress, Absorb, Tail, Whole, CountLow, CountHigh, Counts, Fold, Zeros;
      var d, len := piece, |piece|;
      if len == 0 {
        assert message + piece == message;
        return;
      }
      CountAdds(Nl, Nh, len, |message|);
      var l := CountLow(Nl, len);
      Nh := CountHigh(Nl, Nh, len);
      Nl := l;

      ghost var done := message;
      message := message + piece;
      var n := num;
      if n != 0 {
        if len >= 64 || len + n >= 64 {
          FillBlock(d[..64 - n], done);
          TopUp(done, d, 64 - n);
          done := done + d[..64 - n];
          n := 64 - n;
          d := d[n..];
          len := len - n;
        } else {
          StillShort(done, d);
          CopyIn(n, d);
          num := num + len;
          return;
        }
      } else {
        NoTail(done);
      }

      WholeBlocks(d, done);
    }

    /** The end of Update: whole blocks of d straight from the caller, the rest into the buffer. */
    method WholeBlocks(d0: seq<Byte>, ghost done: seq<Byte>)
      requires data.Length == 64 && num == 0
      requires |done| % 64 == 0 && Buffer() == Absorb(INITIAL, done)
      modifies this`A, this`B, this`C, this`D, this`num, data
      ensures num == |done + d0| % 64 && data[..num] == Tail(done + d0)
      ensures Buffer() == Absorb(INITIAL, Whole(done + d0))
    {
      hide Compress, Absorb, Tail, Whole;
      var d, len := d0, |d0|;
      Aligned(done, d);
      var n := len / 64;
      ghost var w := d[..64 * n];
      if n > 0 {
        AbsorbAppend(INITIAL, done, w);
        BlockDataOrder(d[..64 * n], n);
        d := d[64 * n..];
        len := len - 64 * n;
      } else {
        assert done + w == done;
      }
      if len != 0 {
        num := len;
        CopyIn(0, d);
      }
    }

    /** Zeros up to the length field, and the length. */
    method FillLength(n: nat, ghost rest: seq<Byte>)
      requires data.Length == 64 && n == |rest| <= 56 && data[..n] == rest
      requires Counts(Nl, Nh, |message|)
      modifies data
      ensures data[..] == rest + Zeros(56 - n) + Length(message)
    {
      hide Counts, LittleEndian, Zeros, Length, HostL2c;
      CopyIn(n, Zeros(56 - n));
      LengthBytes(Nl, Nh, |message|);
      CopyIn(56, HostL2c(Nl) + HostL2c(Nh));
    }

    /** The full buffer, behind what has been processed, goes through the block function. */
    method ProcessBuffer(ghost done: seq<Byte>)
      requires data.Length == 64 && |done| % 64 == 0 && Buffer() == Absorb(INITIAL, done)
      modifies this`A, this`B, this`C, this`D
      ensures |done + data[..]| % 64 == 0 && Buffer() == Absorb(INITIAL, done + data[..])
    {
      hide Compress, Absorb;
      AbsorbAppend(INITIAL, done, data[..]);
      BlockDataOrder(data[..], 1);
    }

    /** The padding of the message, block by block. */
    method FinishBlocks()
      requires Valid()
      modifies this`A, this`B, this`C, this`D, data
      ensures Buffer() == Absorb(INITIAL, Padded(message)) && data.Length == 64
    {
      hide Compress, Absorb, Tail, Whole, Counts, LittleEndian, Padded, Zeros, ZeroCount, Length, Buffer;
      var n := num;
      ghost var done := Whole(message);
      ghost var rest := Tail(message) + [0x80];
      PaddedBlocks(message);

      data[n] := 0x80; // num < 64
      n := n + 1;
      assert data[..n] == rest;
      if n > 56 {
        CopyIn(n, Zeros(64 - n));
        assert data[..] == rest + Zeros(64 - n);
        ProcessBuffer(done);
        done := done + data[..];
        rest := [];
        n := 0;
      }
      assert data[..n] == rest;
      FillLength(n, rest);
      ProcessBuffer(done);
    }

    method Final() returns (md: seq<Byte>)
      requires Valid()
      modifies this, data
      ensures md == Digest(message) && message == old(message)
    {
      hide Compress, Absorb, Padded, Zeros, HostL2c, Output, Tail, Whole, Counts;
      FinishBlocks();
      num := 0;
      CopyIn(0, Zeros(64));
      md := HostL2c(A) + HostL2c(B) + HostL2c(C) + HostL2c(D);
      OutputBytes(A, B, C, D);
    }
  }

  lemma OutputBytes(a: Word, b: Word, c: Word, d: Word)
    ensures HostL2c(a) + HostL2c(b) + HostL2c(c) + HostL2c(d) == Output(Chain(a, b, c, d))
  {
    hide HostL2c, LittleEndian;
    HostL2cIsLittleEndian(a);
    HostL2cIsLittleEndian(b);
    HostL2cIsLittleEndian(c);
    HostL2cIsLittleEndian(d);
  }

  lemma ConcatStep(pieces: seq<seq<Byte>>, i: nat, m: seq<Byte>)
    requires i < |pieces|
    ensures m + Concat(pieces[i..]) == m + pieces[i] + Concat(pieces[i + 1..])
  {
    assert pieces[i..][1..] == pieces[i + 1..];
    assert m + (pieces[i] + Concat(pieces[i + 1..])) == m + pieces[i] + Concat(pieces[i + 1..]);
  }

  lemma ConcatEnds(pieces: seq<seq<Byte>>, m: seq<Byte>)
    ensures m + Concat(pieces[|pieces|..]) == m && [] + Concat(pieces[0..]) == Concat(pieces)
  {
    assert pieces[0..] == pieces;
  }

  /** The digest of one buffer. */
  method Md5(d: seq<Byte>) returns (md: seq<Byte>)
    requires |d| < TWO64
    ensures md == Digest(d)
  {
    hide Digest, Context.Valid;
    var c := new Context();
    c.Update(d);
    assert [] + d == d;
    md := c.Final();
  }

  /** Any sequence of updates, empty pieces included, hashes the concatenation. */
  method DigestOfPieces(pieces: seq<seq<Byte>>) returns (md: seq<Byte>)
    requires forall p :: p in pieces ==> |p| < TWO64
    ensures md == Digest(Concat(pieces))
  {
    hide Digest, Concat, Context.Valid;
    var c := new Context();
    var i := 0;
    ConcatEnds(pieces, []);
    while i < |pieces|
      invariant 0 <= i <= |pieces|
      invariant c.Valid() && fresh(c) && fresh(c.data)
      invariant c.message + Concat(pieces[i..]) == Concat(pieces)
    {
      ConcatStep(pieces, i, c.message);
      c.Update(pieces[i]);
      i := i + 1;
    }
    ConcatEnds(pieces, c.message);
    md := c.Final();
  }
}
