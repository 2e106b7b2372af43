/** Programmed transfers of drivers/sdhci/bm_sdhci.c: blocks of any size through the 32-bit buffer
    register, last block first, resumed as often as the controller is not ready. */
module SdhciPio {
  import opened MachineWords

  // ---------- words and bytes ----------

  /** The bytes a sequence of words carries. */
  function Bytes(words: seq<Word>): (b: seq<Byte>)
    ensures |b| == 4 * |words|
  {
    if words == [] then [] else LittleEndian(words[0], 4) + Bytes(words[1..])
  }

  lemma {:induction false} BytesAppend(a: seq<Word>, b: seq<Word>)
    ensures Bytes(a + b) == Bytes(a) + Bytes(b)
  {
    if a == [] {
      assert a + b == b;
    } else {
      assert (a + b)[1..] == a[1..] + b;
      BytesAppend(a[1..], b);
    }
  }

  function WordsFor(n: nat): nat {
    (n + 3) / 4
  }

  lemma {:induction false} FromLittleEndianAppend(g: seq<Byte>, b: Byte)
    ensures FromLittleEndian(g + [b]) == FromLittleEndian(g) + b * Pow2(8 * |g|)
  {
    if g == [] {
      assert g + [b] == [b];
      assert [b][1..] == [];
    } else {
      assert (g + [b])[1..] == g[1..] + [b];
      FromLittleEndianAppend(g[1..], b);
      Pow2Sum(8, 8 * |g[1..]|);
      Pow2Widths();
      assert 0x100 * (b * Pow2(8 * |g[1..]|)) == b * (0x100 * Pow2(8 * |g[1..]|));
    }
  }

  lemma {:induction false} FromLittleEndianBound(g: seq<Byte>)
    ensures FromLittleEndian(g) < Pow2(8 * |g|)
  {
    if g != [] {
      FromLittleEndianBound(g[1..]);
      Pow2Sum(8, 8 * |g[1..]|);
      Pow2Widths();
    }
  }

  /** The bytes of a short last word are followed by zeros. */
  lemma {:induction false} LittleEndianPadded(g: seq<Byte>, n: nat)
    requires |g| <= n
    ensures LittleEndian(FromLittleEndian(g), n)[..|g|] == g
  {
    if g != [] {
      var v, rest := FromLittleEndian(g), FromLittleEndian(g[1..]);
      DivModUnique(v, 0x100, rest, g[0]);
      LittleEndianPadded(g[1..], n - 1);
      assert LittleEndian(v, n) == [g[0]] + LittleEndian(rest, n - 1);
      assert g == [g[0]] + g[1..];
    }
  }

  // ---------- one block ----------

  /** One more byte into the scratch word. */
  lemma ScratchStep(g: seq<Byte>, b: Byte)
    requires |g| < 4
    ensures Bitwise(Or, FromLittleEndian(g), b * Pow2(8 * |g|)) == FromLittleEndian(g + [b]) < TWO32
  {
    hide Bitwise, FromLittleEndian, Pow2;
    FromLittleEndianBound(g);
    FromLittleEndianAppend(g, b);
    DivModUnique(b * Pow2(8 * |g|), Pow2(8 * |g|), b, 0);
    OrDisjoint(b * Pow2(8 * |g|), FromLittleEndian(g), 8 * |g|);
    FromLittleEndianBound(g + [b]);
    Pow2Monotone(8 * |g + [b]|, 32);
    Pow2Widths();
  }

  lemma Pow2Monotone(m: nat, n: nat)
    requires m <= n
    ensures Pow2(m) <= Pow2(n)
  {
    if m < n {
      Pow2Below(m, n);
    }
  }

  /** bm_sdhci_write_block_pio: the words written to the buffer register carry the block. */
  method WriteBlock(buf: array<Byte>, p: nat, blksz: nat) returns (words: seq<Word>)
    requires p + blksz <= buf.Length
    ensures |words| == WordsFor(blksz)
    ensures Bytes(words)[..blksz] == buf[p..p + blksz]
  {
    hide Bitwise, FromLittleEndian, LittleEndian, Pow2, Bytes;
    words := [];
    var q, left, chunk := p, blksz, 0;
    var scratch: Word := 0;
    ghost var g: seq<Byte> := [];
    Empty();
    while left > 0
      invariant 0 <= left <= blksz && q == p + (blksz - left)
      invariant chunk == |g| < 4 && scratch == FromLittleEndian(g)
      invariant chunk == 0 || left > 0
      invariant left > 0 ==> Bytes(words) + g == buf[p..q] && 4 * |words| + chunk == blksz - left
      invariant left == 0 ==> |words| == WordsFor(blksz) && Bytes(words)[..blksz] == buf[p..q]
    {
      ScratchStep(g, buf[q]);
      scratch := Bitwise(Or, scratch, buf[q] * Pow2(8 * chunk));
      g := g + [buf[q]];
      q := q + 1;
      chunk := chunk + 1;
      left := left - 1;
      assert buf[p..q] == buf[p..q - 1] + [buf[q - 1]];
      assert Bytes(words) + g == buf[p..q];
      if chunk == 4 || left == 0 {
        LittleEndianPadded(g, 4);
        BytesAppend(words, [scratch]);
        OneWord(scratch);
        words := words + [scratch];
        assert Bytes(words)[..blksz - left] == buf[p..q];
        chunk, scratch, g := 0, 0, [];
      }
    }
  }

  lemma Empty()
    ensures Bytes([]) == [] && FromLittleEndian([]) == 0
  {
  }

  lemma OneWord(w: Word)
    ensures Bytes([w]) == LittleEndian(w, 4)
  {
    assert [w][1..] == [];
    assert Bytes([]) == [];
  }

  lemma PeelByte(v: nat, n: nat, rest: seq<Byte>)
    requires n > 0
    ensures LittleEndian(v, n) + rest == [v % 0x100] + (LittleEndian(v / 0x100, n - 1) + rest)
  {
  }

  /** bm_sdhci_read_block_pio: the block receives the first bytes of the words read. */
  method ReadBlock(buf: array<Byte>, p: nat, blksz: nat, input: seq<Word>) returns (rest: seq<Word>)
    requires p + blksz <= buf.Length && WordsFor(blksz) <= |input|
    modifies buf
    ensures rest == input[WordsFor(blksz)..]
    ensures buf[..] == old(buf[..p]) + Bytes(input)[..blksz] + old(buf[p + blksz..])
  {
    hide LittleEndian, Bytes, WordsFor;
    rest := input;
    ghost var was, stream := buf[..], Bytes(input);
    var q, left, chunk := p, blksz, 0;
    var scratch: nat := 0;
    ghost var i: nat, w: nat := 0, 0;
    NoByte(input);
    WordsOf(0, 0, 0);
    while left > 0
      invariant 0 <= left <= blksz && i == blksz - left && q == p + i
      invariant 0 <= chunk < 4 && 4 * w == i + chunk && w <= |input| && rest == input[w..]
      invariant stream[i..] == LittleEndian(scratch, chunk) + Bytes(rest)
      invariant buf[..] == Filled(was, p, stream, i)
    {
      if chunk == 0 {
        WordsLeft(blksz, i, w);
        NextWord(rest);
        scratch := rest[0];
        rest := rest[1..];
        chunk := 4;
        w := w + 1;
      }
      PeelByte(scratch, chunk, Bytes(rest));
      NextByte(stream, i, scratch % 0x100, LittleEndian(scratch / 0x100, chunk - 1) + Bytes(rest));
      FilledStep(was, p, stream, i);
      buf[q] := scratch % 0x100;
      q := q + 1;
      scratch := scratch / 0x100;
      chunk := chunk - 1;
      left := left - 1;
      i := i + 1;
    }
    WordsOf(blksz, w, chunk);
  }

  function Filled(was: seq<Byte>, p: nat, stream: seq<Byte>, i: nat): seq<Byte>
    requires p + i <= |was| && i <= |stream|
  {
    was[..p] + stream[..i] + was[p + i..]
  }

  lemma FilledStep(was: seq<Byte>, p: nat, stream: seq<Byte>, i: nat)
    requires p + i < |was| && i < |stream|
    ensures Filled(was, p, stream, i)[p + i := stream[i]] == Filled(was, p, stream, i + 1)
  {
  }

  lemma NextByte(stream: seq<Byte>, i: nat, b: Byte, tail: seq<Byte>)
    requires i < |stream| && stream[i..] == [b] + tail
    ensures stream[i] == b && stream[i + 1..] == tail
  {
    assert stream[i] == stream[i..][0];
    assert stream[i + 1..] == stream[i..][1..];
  }

  lemma WordsOf(n: nat, w: nat, chunk: nat)
    requires chunk < 4 && 4 * w == n + chunk
    ensures w == WordsFor(n)
  {
  }

  lemma WordsLeft(n: nat, i: nat, w: nat)
    requires i < n && 4 * w == i
    ensures w < WordsFor(n)
  {
  }

  lemma NoByte(words: seq<Word>)
    ensures LittleEndian(0, 0) + Bytes(words) == Bytes(words)
  {
  }

  lemma NextWord(words: seq<Word>)
    requires words != []
    ensures forall v: nat :: LittleEndian(v, 0) == []
    ensures LittleEndian(words[0], 4) + Bytes(words[1..]) == Bytes(words)
  {
  }

  // ---------- whole transfers ----------

  lemma BlockFits(k: nat, n: nat, blksz: nat)
    requires k < n
    ensures k * blksz + blksz == (k + 1) * blksz <= n * blksz
  {
    assert (n - k - 1) * blksz >= 0;
  }

  function Block(m: seq<Byte>, blksz: nat, k: nat): (b: seq<Byte>)
    requires (k + 1) * blksz <= |m|
  {
    BlockFits(k, k + 1, blksz);
    m[k * blksz..k * blksz + blksz]
  }

  /** The words carry the blocks from hi - 1 down to lo. */
  predicate Carries(words: seq<Word>, m: seq<Byte>, blksz: nat, hi: nat, lo: nat)
    requires lo <= hi && hi * blksz <= |m|
    decreases hi
  {
    if hi == lo then words == []
    else
      BlockFits(hi - 1, hi, blksz);
      var w := WordsFor(blksz);
      && w <= |words| && Bytes(words[..w])[..blksz] == Block(m, blksz, hi - 1)
      && Carries(words[w..], m, blksz, hi - 1, lo)
  }

  lemma {:induction false} CarriesAppend(a: seq<Word>, b: seq<Word>, m: seq<Byte>, blksz: nat, hi: nat, mid: nat, lo: nat)
    requires lo <= mid <= hi && hi * blksz <= |m| && mid * blksz <= |m|
    requires Carries(a, m, blksz, hi, mid) && Carries(b, m, blksz, mid, lo)
    ensures Carries(a + b, m, blksz, hi, lo)
    decreases hi
  {
    hide Bytes, Block, WordsFor;
    if hi == mid {
      assert a + b == b;
    } else {
      BlockFits(hi - 1, hi, blksz);
      var w := WordsFor(blksz);
      assert (a + b)[..w] == a[..w] && (a + b)[w..] == a[w..] + b;
      CarriesAppend(a[w..], b, m, blksz, hi - 1, mid, lo);
    }
  }

  lemma CarriesOne(words: seq<Word>, m: seq<Byte>, blksz: nat, hi: nat)
    requires 0 < hi && hi * blksz <= |m| && |words| == WordsFor(blksz)
    requires Bytes(words)[..blksz] == m[(hi - 1) * blksz..(hi - 1) * blksz + blksz]
    ensures Carries(words, m, blksz, hi, hi - 1)
  {
    BlockFits(hi - 1, hi, blksz);
    assert words[..WordsFor(blksz)] == words && words[WordsFor(blksz)..] == [];
  }

  /** What the first block of a stream of words holds, and what the words behind it carry. */
  lemma CarriesFirst(words: seq<Word>, m: seq<Byte>, blksz: nat, hi: nat, lo: nat)
    requires lo < hi && hi * blksz <= |m| && Carries(words, m, blksz, hi, lo)
    ensures (hi - 1) * blksz + blksz == hi * blksz && WordsFor(blksz) <= |words|
    ensures Bytes(words)[..blksz] == m[(hi - 1) * blksz..hi * blksz]
    ensures Carries(words[WordsFor(blksz)..], m, blksz, hi - 1, lo)
  {
    hide Bytes, WordsFor;
    BlockFits(hi - 1, hi, blksz);
    var w := WordsFor(blksz);
    BytesAppend(words[..w], words[w..]);
    assert words == words[..w] + words[w..];
    EnoughBytes(blksz);
  }

  lemma EnoughBytes(blksz: nat)
    ensures blksz <= 4 * WordsFor(blksz)
  {
  }

  /** A memory whose range [lo, hi) holds that of another. */
  function Patched(was: seq<Byte>, src: seq<Byte>, lo: nat, hi: nat): (r: seq<Byte>)
    requires lo <= hi <= |was| && hi <= |src|
  {
    was[..lo] + src[lo..hi] + was[hi..]
  }

  lemma PatchedMore(was: seq<Byte>, src: seq<Byte>, p: nat, lo: nat, hi: nat)
    requires p <= lo <= hi <= |was| && hi <= |src|
    ensures var r := Patched(was, src, lo, hi);
            r[..p] + src[p..lo] + r[lo..] == Patched(was, src, p, hi)
  {
  }

  /** The data of a request: `blocks` counts those still to be moved. */
  class Request {
    const buf: array<Byte>
    const blksz: nat
    var blocks: nat

    constructor (buf: array<Byte>, blksz: nat, blocks: nat)
      ensures this.buf == buf && this.blksz == blksz && this.blocks == blocks
    {
      this.buf, this.blksz, this.blocks := buf, blksz, blocks;
    }

    /** bm_sdhci_transfer_pio for a write; the controller has room for `ready` more blocks. */
    method TransferWrite(ready: nat) returns (words: seq<Word>)
      requires blocks * blksz <= buf.Length
      modifies this`blocks
      ensures blocks == if ready <= old(blocks) then old(blocks) - ready else 0
      ensures blocks * blksz <= buf.Length && Carries(words, buf[..], blksz, old(blocks), blocks)
    {
      hide Carries, WordsFor, Bytes;
      words := [];
      NothingCarried(buf[..], blksz, blocks);
      if blocks == 0 {
        return;
      }
      var more := ready;
      while more > 0
        invariant 0 <= more <= ready && blocks == old(blocks) - (ready - more) && blocks > 0
        invariant blocks * blksz <= buf.Length && Carries(words, buf[..], blksz, old(blocks), blocks)
      {
        BlockFits(blocks - 1, blocks, blksz);
        var block := WriteBlock(buf, (blocks - 1) * blksz, blksz);
        CarriesOne(block, buf[..], blksz, blocks);
        CarriesAppend(words, block, buf[..], blksz, old(blocks), blocks, blocks - 1);
        words := words + block;
        blocks := blocks - 1;
        more := more - 1;
        if blocks == 0 {
          break;
        }
      }
    }

    /** One round of the loop below. */
    method NextBlock(input: seq<Word>, ghost src: seq<Byte>, ghost end: nat, ghost was: seq<Byte>, ghost hi: nat)
      returns (rest: seq<Word>)
      requires end < blocks && blocks * blksz <= hi <= |was| && hi <= |src|
      requires Carries(input, src, blksz, blocks, end)
      requires buf[..] == Patched(was, src, blocks * blksz, hi)
      modifies this`blocks, buf
      ensures blocks == old(blocks) - 1 && blocks * blksz <= hi && Carries(rest, src, blksz, blocks, end)
      ensures buf[..] == Patched(was, src, blocks * blksz, hi)
    {
      hide Carries, WordsFor, Bytes;
      CarriesFirst(input, src, blksz, blocks, end);
      ghost var lo, p := blocks * blksz, (blocks - 1) * blksz;
      PatchedMore(was, src, p, lo, hi);
      blocks := blocks - 1;
      rest := ReadBlock(buf, blocks * blksz, blksz, input);
    }

    /** bm_sdhci_transfer_pio for a read; the controller holds `ready` more blocks, of a stream that
        carries those of src. */
    method TransferRead(ready: nat, input: seq<Word>, ghost src: seq<Byte>, ghost end: nat) returns (rest: seq<Word>)
      requires blocks * blksz <= buf.Length && blocks * blksz <= |src|
      requires end <= blocks && (end + ready <= blocks || end == 0) && Carries(input, src, blksz, blocks, end)
      modifies this`blocks, buf
      ensures blocks == if ready <= old(blocks) then old(blocks) - ready else 0
      ensures end <= blocks && blocks * blksz <= old(blocks) * blksz && Carries(rest, src, blksz, blocks, end)
      ensures buf[..] == Patched(old(buf[..]), src, blocks * blksz, old(blocks) * blksz)
    {
      hide Carries, WordsFor, Bytes, Patched;
      rest := input;
      PatchedNone(buf[..], src, blocks * blksz);
      if blocks == 0 {
        return;
      }
      ghost var hi := blocks * blksz;
      var more := ready;
      while more > 0
        invariant 0 <= more <= ready && blocks == old(blocks) - (ready - more) && 0 < blocks && end <= blocks
        invariant blocks * blksz <= hi && Carries(rest, src, blksz, blocks, end)
        invariant buf[..] == Patched(old(buf[..]), src, blocks * blksz, hi)
      {
        rest := NextBlock(rest, src, end, old(buf[..]), hi);
        more := more - 1;
        if blocks == 0 {
          break;
        }
      }
    }
  }

  lemma PatchedNone(was: seq<Byte>, src: seq<Byte>, lo: nat)
    requires lo <= |was| && lo <= |src|
    ensures Patched(was, src, lo, lo) == was
  {
  }

  lemma NothingCarried(m: seq<Byte>, blksz: nat, hi: nat)
    requires hi * blksz <= |m|
    ensures Carries([], m, blksz, hi, hi)
  {
  }

  function SumTo(s: seq<nat>, i: nat): nat
    requires i <= |s|
  {
    if i == 0 then 0 else SumTo(s, i - 1) + s[i - 1]
  }

  function Left(n: nat, moved: nat): nat {
    if moved <= n then n - moved else 0
  }

  /** All the calls of a write, the controller being ready for room[i] blocks in call i. */
  method SendBlocks(src: array<Byte>, blksz: nat, n: nat, room: seq<nat>) returns (words: seq<Word>, left: nat)
    requires n * blksz <= src.Length
    ensures left == Left(n, SumTo(room, |room|)) && left * blksz <= src.Length
    ensures Carries(words, src[..], blksz, n, left)
  {
    hide Carries;
    var request := new Request(src, blksz, n);
    words := [];
    NothingCarried(src[..], blksz, n);
    for i := 0 to |room|
      invariant request.buf == src && request.blksz == blksz
      invariant request.blocks == Left(n, SumTo(room, i)) && request.blocks * blksz <= src.Length
      invariant Carries(words, src[..], blksz, n, request.blocks)
    {
      ghost var mid := request.blocks;
      var more := request.TransferWrite(room[i]);
      CarriesAppend(words, more, src[..], blksz, n, mid, request.blocks);
      words := words + more;
    }
    left := request.blocks;
  }

  /** All the calls of a read of what such a write sent: when as many blocks have moved both ways, the
      buffer is restored, for every block size, and nothing behind it changes. */
  method ReceiveBlocks(dst: array<Byte>, blksz: nat, n: nat, words: seq<Word>, data: seq<nat>, ghost src: seq<Byte>)
    returns (left: nat)
    requires n * blksz <= dst.Length && n * blksz <= |src|
    requires Carries(words, src, blksz, n, 0)
    modifies dst
    ensures left == Left(n, SumTo(data, |data|)) && left * blksz <= n * blksz
    ensures dst[..] == Patched(old(dst[..]), src, left * blksz, n * blksz)
  {
    hide Carries, Patched;
    var request := new Request(dst, blksz, n);
    var rest := words;
    PatchedNone(dst[..], src, n * blksz);
    for i := 0 to |data|
      invariant request.buf == dst && request.blksz == blksz && fresh(request)
      invariant request.blocks == Left(n, SumTo(data, i)) && request.blocks * blksz <= n * blksz
      invariant Carries(rest, src, blksz, request.blocks, 0)
      invariant dst[..] == Patched(old(dst[..]), src, request.blocks * blksz, n * blksz)
    {
      ghost var mid, lo := dst[..], request.blocks * blksz;
      rest := request.TransferRead(data[i], rest, src, 0);
      PatchedTwice(old(dst[..]), src, request.blocks * blksz, lo, n * blksz);
    }
    left := request.blocks;
  }

  lemma PatchedTwice(was: seq<Byte>, src: seq<Byte>, p: nat, lo: nat, hi: nat)
    requires p <= lo <= hi <= |was| && hi <= |src|
    ensures Patched(Patched(was, src, lo, hi), src, p, lo) == Patched(was, src, p, hi)
  {
  }

  /** A write followed by a read of what it sent, however often either was interrupted. */
  method SendAndReceive(src: array<Byte>, dst: array<Byte>, blksz: nat, n: nat, room: seq<nat>, data: seq<nat>)
    returns (done: bool)
    requires src != dst && n * blksz <= src.Length && n * blksz <= dst.Length
    modifies dst
    ensures done <==> n <= SumTo(room, |room|) && n <= SumTo(data, |data|)
    ensures done ==> dst[..] == src[..n * blksz] + old(dst[n * blksz..])
  {
    hide Carries;
    var words, unsent := SendBlocks(src, blksz, n, room);
    if unsent > 0 {
      return false;
    }
    var missing := ReceiveBlocks(dst, blksz, n, words, data, src[..]);
    done := missing == 0;
  }
}
