/** The MD5 message digest of RFC 1321 as a function of the whole message,
    and the abstract view of a streaming context that has absorbed a prefix. */
module Md5Reference {
  import opened Words
  import opened Md5Compress

  const TwoTo32: nat := 0x1_0000_0000

  /** The state after compressing the complete 64-byte blocks of `data` in
      order (RFC 1321 section 3.4); the hashed messages are always whole blocks.
      The split into `FoldNonEmpty` and `CompressThenFold` only keeps the
      compression arithmetic from unfolding by default; `FoldStep` is the
      unfolding equation. */
  function Fold(s: Regs, data: seq<bv8>): Regs
    decreases |data|, 2
  {
    if |data| < 64 then s else FoldNonEmpty(s, data)
  }

  /** Folds data of at least one block; a separate step so that unfolding
      `Fold` does not at once unfold the compression function. */
  function FoldNonEmpty(s: Regs, data: seq<bv8>): Regs
    requires |data| >= 64
    decreases |data|, 1
  {
    CompressThenFold(s, data)
  }

  /** Compresses the first block of `data` into `s`, then folds the rest. */
  function CompressThenFold(s: Regs, data: seq<bv8>): Regs
    requires |data| >= 64
    decreases |data|, 0
  {
    Fold(Compress(s, WordsOf(data[..64])), data[64..])
  }

  /** Unfolding equation of `Fold`: folding data of at least one block
      compresses its first block, then folds the rest. */
  lemma FoldStep(s: Regs, data: seq<bv8>)
    requires |data| >= 64
    ensures Fold(s, data) == Fold(Compress(s, WordsOf(data[..64])), data[64..])
  {
    assert Fold(s, data) == FoldNonEmpty(s, data);
    assert FoldNonEmpty(s, data) == CompressThenFold(s, data);
  }

  /** Folding a concatenation is folding the second part from where the first left off. */
  lemma {:induction false} FoldConcat(s: Regs, u: seq<bv8>, v: seq<bv8>)
    requires |u| % 64 == 0 && |v| % 64 == 0
    ensures Fold(s, u + v) == Fold(Fold(s, u), v)
    decreases |u|
  {
    if |u| >= 64 {
      assert (u + v)[..64] == u[..64];
      assert (u + v)[64..] == u[64..] + v;
      FoldStep(s, u + v);
      FoldStep(s, u);
      FoldConcat(Compress(s, WordsOf(u[..64])), u[64..], v);
    } else {
      assert u == [];
      assert u + v == v;
    }
  }

  /** Folding one more block at the end compresses it into the folded state. */
  lemma FoldBlock(s: Regs, u: seq<bv8>, block: seq<bv8>)
    requires |u| % 64 == 0 && |block| == 64
    ensures Fold(s, u + block) == Compress(Fold(s, u), WordsOf(block))
  {
    FoldConcat(s, u, block);
    FoldOne(Fold(s, u), block);
  }

  /** Folding one block further into a message is one more compression. */
  lemma FoldPrefix(s: Regs, m: seq<bv8>, n: nat)
    requires n % 64 == 0 && n + 64 <= |m|
    ensures Fold(s, m[..n + 64]) == Compress(Fold(s, m[..n]), WordsOf(m[n..n + 64]))
  {
    assert m[..n] + m[n..n + 64] == m[..n + 64];
    FoldBlock(s, m[..n], m[n..n + 64]);
  }

  /** Folding exactly one block is one compression. */
  lemma FoldOne(s: Regs, block: seq<bv8>)
    requires |block| == 64
    ensures Fold(s, block) == Compress(s, WordsOf(block))
  {
    assert block[..64] == block;
    assert |block[64..]| < 64;
    FoldStep(s, block);
  }

  /** `n` zero bytes. */
  function Zeros(n: nat): (z: seq<bv8>)
    ensures |z| == n && forall i :: 0 <= i < n ==> z[i] == 0
  {
    if n == 0 then [] else [0] + Zeros(n - 1)
  }

  /** The low 32 bits of `n`, the value a 32-bit unsigned store keeps.
      The split into `LowWordDeferred` and `ReduceToWord` only keeps the
      conversion from unfolding by default; `LowWordSmall` and `LowWordLarge`
      are the unfolding equations. */
  function LowWord(n: nat): bv32
    decreases n, 2
  {
    LowWordDeferred(n)
  }

  /** Defers to `ReduceToWord`. */
  function LowWordDeferred(n: nat): bv32
    decreases n, 1
  {
    ReduceToWord(n)
  }

  /** Converts a number below 2^32, and reduces a larger one first. */
  function ReduceToWord(n: nat): bv32
    decreases n, 0
  {
    if n < TwoTo32 then n as bv32 else LowWord(n % TwoTo32)
  }

  /** Unfolding equation of `LowWord` below 2^32: the number is kept whole. */
  lemma LowWordSmall(n: nat)
    requires n < TwoTo32
    ensures LowWord(n) == n as bv32
  {
    assert LowWord(n) == LowWordDeferred(n) == ReduceToWord(n);
  }

  /** The low word depends on `n` modulo 2^32 only. */
  lemma LowWordMod(n: nat)
    ensures LowWord(n % TwoTo32) == LowWord(n)
  {
    if n < TwoTo32 {
      assert n % TwoTo32 == n;
    } else {
      LowWordLarge(n);
    }
  }

  /** Unfolding equation of `LowWord` from 2^32 on: the number is first
      reduced modulo 2^32. */
  lemma LowWordLarge(n: nat)
    requires n >= TwoTo32
    ensures LowWord(n) == LowWord(n % TwoTo32)
  {
    assert LowWord(n) == LowWordDeferred(n) == ReduceToWord(n);
  }

  /** Zero is stored as zero. */
  lemma LowWordZero()
    ensures LowWord(0) == 0
  {
    LowWordSmall(0);
  }

  /** The message length in bits, modulo 2^64, as two little-endian words,
      low word first (RFC 1321 section 3.2). */
  function LengthBytes(len: nat): (r: seq<bv8>)
    ensures |r| == 8
  {
    LeBytes(LowWord(8 * len)) + LeBytes(LowWord(8 * len / TwoTo32))
  }

  /** What follows the last whole block when a message of `len` bytes is
      padded: its last bytes `rest`, a 0x80 byte, the fewest zero bytes that
      leave room for the length, and the 8-byte length (RFC 1321 sections 3.1 and 3.2). */
  function PadTail(rest: seq<bv8>, len: nat): seq<bv8>
  {
    rest + [0x80] + Zeros((55 - |rest|) % 64) + LengthBytes(len)
  }

  /** The padded message. */
  function Pad(m: seq<bv8>): seq<bv8>
  {
    PadTail(m, |m|)
  }

  /** The padded message is whole blocks: the message, 0x80, zeros and the
      length, with at least 9 and at most 72 bytes added. */
  lemma PadShape(m: seq<bv8>)
    ensures var p := Pad(m);
      && |p| % 64 == 0 && |m| + 9 <= |p| < |m| + 73
      && p[..|m|] == m && p[|m|] == 0x80
      && (forall i :: |m| < i < |p| - 8 ==> p[i] == 0)
      && p[|p| - 8..] == LengthBytes(|m|)
  {
    PadLength(|m|);
  }

  /** The zero run of the padding is shorter than a block and completes one. */
  lemma PadLength(len: nat)
    ensures var z := (55 - len) % 64; z < 64 && (len + 9 + z) % 64 == 0
  {
    var z := (55 - len) % 64;
    var q := (55 - len) / 64;
    assert 55 - len == 64 * q + z;
    assert len + 9 + z == 64 * (1 - q);
  }

  /** The MD5 digest of `m` as the four state words (RFC 1321 sections 3.3 and 3.4). */
  function Md5(m: seq<bv8>): Regs
  {
    Fold(IV, Pad(m))
  }

  /** What a streaming context holds: the state, the number of bytes already
      compressed and the bytes waiting in the buffer. */
  datatype Ctx = Ctx(state: Regs, dataLength: nat, pending: seq<bv8>)

  /** A context with nothing absorbed. */
  const Start := Ctx(IV, 0, [])

  /** The context after feeding `input`: every complete block of the pending
      bytes followed by the input is compressed and the rest waits. */
  function Absorb(c: Ctx, input: seq<bv8>): Ctx
  {
    var all := c.pending + input;
    var n := |all| - |all| % 64;
    Ctx(Fold(c.state, all[..n]), c.dataLength + n, all[n..])
  }

  /** Absorbing keeps fewer than 64 bytes waiting, compresses whole blocks
      only, loses no byte, and keeps the last bytes fed. */
  lemma AbsorbShape(c: Ctx, input: seq<bv8>)
    ensures var r := Absorb(c, input);
      && |r.pending| < 64
      && c.dataLength <= r.dataLength && (r.dataLength - c.dataLength) % 64 == 0
      && r.dataLength + |r.pending| == c.dataLength + |c.pending| + |input|
      && r.pending == (c.pending + input)[r.dataLength - c.dataLength..]
  {
    RoundDown(|c.pending + input|);
  }

  /** Absorbing two chunks one after the other is absorbing their concatenation. */
  lemma AbsorbConcat(c: Ctx, x: seq<bv8>, y: seq<bv8>)
    ensures Absorb(Absorb(c, x), y) == Absorb(c, x + y)
  {
    var all1 := c.pending + x;
    var n1 := |all1| - |all1| % 64;
    var all2 := all1[n1..] + y;
    var n2 := |all2| - |all2| % 64;
    assert c.pending + (x + y) == all1 + y;
    SplitBlocks(all1, y);
    FoldConcat(c.state, all1[..n1], all2[..n2]);
  }

  /** The whole blocks of a + b are the whole blocks of a followed by the
      whole blocks of what a leaves over followed by b. */
  lemma SplitBlocks(a: seq<bv8>, b: seq<bv8>)
    ensures var n1 := |a| - |a| % 64;
      var rest := a[n1..] + b;
      var n2 := |rest| - |rest| % 64;
      var n := |a + b| - |a + b| % 64;
      n1 % 64 == 0 && n2 % 64 == 0 && n == n1 + n2 &&
      (a + b)[..n] == a[..n1] + rest[..n2] && (a + b)[n..] == rest[n2..]
  {
    var n1 := |a| - |a| % 64;
    var rest := a[n1..] + b;
    var n2 := |rest| - |rest| % 64;
    BlockSplit(|a|, |b|);
    RoundDown(|a|);
    RoundDown(|rest|);
    var n := |a + b| - |a + b| % 64;
    assert n == n1 + n2;
    assert (a + b)[..n] == a[..n1] + rest[..n2];
    assert (a + b)[n..] == rest[n2..];
  }

  /** The whole blocks of a + b are the whole blocks of a followed by the
      whole blocks of what a leaves over, followed by b. */
  lemma BlockSplit(a: nat, b: nat)
    ensures var r := a % 64 + b;
      (a + b) - (a + b) % 64 == (a - a % 64) + (r - r % 64)
  {
    var q := a / 64;
    assert a == 64 * q + a % 64;
    var r := a % 64 + b;
    assert a + b == 64 * q + r;
    assert (a + b) % 64 == r % 64;
  }

  /** A context that has absorbed `m` from the start has compressed the
      largest 64-byte-aligned prefix of `m` and holds the rest. */
  lemma AbsorbFromEmpty(s: Regs, m: seq<bv8>)
    ensures var n := |m| - |m| % 64;
      Absorb(Ctx(s, 0, []), m) == Ctx(Fold(s, m[..n]), n, m[n..])
  {
    assert Ctx(s, 0, []).pending + m == m;
  }

  /** The state after padding and compressing what remains in context `c`. */
  function Final(c: Ctx): Regs
  {
    Fold(c.state, PadTail(c.pending, c.dataLength + |c.pending|))
  }

  /** Finishing a context that absorbed `m` from the start yields the MD5 of `m`. */
  lemma FinalOfAbsorb(m: seq<bv8>)
    ensures Final(Absorb(Start, m)) == Md5(m)
  {
    FinalFromEmpty(IV, m);
  }

  /** Finishing a context that absorbed `m` from an empty buffer folds the padded `m`. */
  lemma FinalFromEmpty(s: Regs, m: seq<bv8>)
    ensures Final(Absorb(Ctx(s, 0, []), m)) == Fold(s, Pad(m))
  {
    var n := |m| - |m| % 64;
    calc {
      Final(Absorb(Ctx(s, 0, []), m));
      == { AbsorbFromEmpty(s, m); }
      Final(Ctx(Fold(s, m[..n]), n, m[n..]));
      == { FinalOf(Fold(s, m[..n]), n, m[n..], |m|); }
      Fold(Fold(s, m[..n]), PadTail(m[n..], |m|));
      == { FoldPad(s, m); }
      Fold(s, Pad(m));
    }
  }

  lemma FinalOf(t: Regs, n: nat, rest: seq<bv8>, len: nat)
    requires n + |rest| == len
    ensures Final(Ctx(t, n, rest)) == Fold(t, PadTail(rest, len))
  {
  }

  /** Folding the padded message passes through the state after the whole blocks of `m`. */
  lemma FoldPad(s: Regs, m: seq<bv8>)
    ensures var n := |m| - |m| % 64;
      Fold(s, Pad(m)) == Fold(Fold(s, m[..n]), PadTail(m[n..], |m|))
  {
    var n := |m| - |m| % 64;
    PadSplit(m);
    FoldConcat(s, m[..n], PadTail(m[n..], |m|));
  }

  /** The padded message is the whole blocks of `m` followed by the padded rest of `m`. */
  lemma PadSplit(m: seq<bv8>)
    ensures var n := |m| - |m| % 64;
      n % 64 == 0 && |PadTail(m[n..], |m|)| % 64 == 0 && Pad(m) == m[..n] + PadTail(m[n..], |m|)
  {
    var n := |m| - |m| % 64;
    RoundDown(|m|);
    PadAmount(|m|);
    assert Pad(m) == m[..n] + PadTail(m[n..], |m|);
    PadLength(|m|);
    MultipleDiff(|Pad(m)|, n);
  }

  lemma RoundDown(len: nat)
    ensures (len - len % 64) % 64 == 0
  {
    assert len - len % 64 == 64 * (len / 64);
  }

  lemma MultipleDiff(a: nat, b: nat)
    requires b <= a && a % 64 == 0 && b % 64 == 0
    ensures (a - b) % 64 == 0
  {
    assert a - b == 64 * (a / 64 - b / 64);
  }

  /** The padding depends only on the length of the part after the whole blocks. */
  lemma PadAmount(len: nat)
    ensures (55 - len % 64) % 64 == (55 - len) % 64
  {
    var q := len / 64;
    assert len == 64 * q + len % 64;
    assert 55 - len == (55 - len % 64) - 64 * q;
  }

  /** The padding after fewer than 64 leftover bytes is one block when they
      leave room for the 0x80 byte and the length (at most 55 of them), and
      two blocks otherwise. */
  lemma PadTailLength(rest: seq<bv8>, len: nat)
    requires |rest| < 64
    ensures |PadTail(rest, len)| == if |rest| < 56 then 64 else 128
  {
    var z := (55 - |rest|) % 64;
    if |rest| < 56 {
      assert z == 55 - |rest|;
    } else {
      assert 55 - |rest| == 64 * -1 + (119 - |rest|);
      assert z == 119 - |rest|;
    }
  }

  /** Byte `p` of the padding after fewer than 64 leftover bytes: the
      leftover bytes, 0x80, zeros, and the length in the last eight places. */
  lemma PadTailAt(rest: seq<bv8>, len: nat, p: nat)
    requires |rest| < 64 && p < |PadTail(rest, len)|
    ensures var t := |PadTail(rest, len)|;
      PadTail(rest, len)[p] ==
        if p < |rest| then rest[p]
        else if p == |rest| then 0x80
        else if p < t - 8 then 0
        else LengthBytes(len)[p - (t - 8)]
  {
    PadTailLength(rest, len);
  }

  /** A block holding the leftover bytes, 0x80, zeros up to byte 56 and the
      length is the whole padding when at most 55 bytes are left over. */
  lemma PaddedOne(buf: seq<bv8>, rest: seq<bv8>, len: nat)
    requires |buf| == 64 && |rest| < 56 && buf[..|rest|] == rest && buf[|rest|] == 0x80
    requires forall p :: |rest| < p < 56 ==> buf[p] == 0
    requires buf[56..] == LengthBytes(len)
    ensures buf == PadTail(rest, len)
  {
    PadTailLength(rest, len);
    forall p | 0 <= p < 64
      ensures buf[p] == PadTail(rest, len)[p]
    {
      PadTailAt(rest, len, p);
      if p < |rest| {
        assert buf[p] == buf[..|rest|][p];
      } else if p >= 56 {
        assert buf[p] == buf[56..][p - 56];
      }
    }
  }

  /** With 56 or more bytes left over, the first padded block is those
      bytes, 0x80 and zeros. */
  lemma PaddedFirst(buf: seq<bv8>, rest: seq<bv8>, len: nat)
    requires |buf| == 64 && 56 <= |rest| < 64 && buf[..|rest|] == rest && buf[|rest|] == 0x80
    requires forall p :: |rest| < p < 64 ==> buf[p] == 0
    ensures |PadTail(rest, len)| == 128 && buf == PadTail(rest, len)[..64]
  {
    PadTailLength(rest, len);
    forall p | 0 <= p < 64
      ensures buf[p] == PadTail(rest, len)[p]
    {
      PadTailAt(rest, len, p);
      if p < |rest| {
        assert buf[p] == buf[..|rest|][p];
      }
    }
  }

  /** With 56 or more bytes left over, the second padded block is zeros and
      the length. */
  lemma PaddedSecond(buf: seq<bv8>, rest: seq<bv8>, len: nat)
    requires |buf| == 64 && 56 <= |rest| < 64
    requires forall p :: 0 <= p < 56 ==> buf[p] == 0
    requires buf[56..] == LengthBytes(len)
    ensures |PadTail(rest, len)| == 128 && buf == PadTail(rest, len)[64..]
  {
    PadTailLength(rest, len);
    forall p | 0 <= p < 64
      ensures buf[p] == PadTail(rest, len)[64 + p]
    {
      PadTailAt(rest, len, 64 + p);
      if p >= 56 {
        assert buf[p] == buf[56..][p - 56];
      }
    }
  }

  /** Folding two blocks is two compressions. */
  lemma FoldTwo(s: Regs, data: seq<bv8>)
    requires |data| == 128
    ensures Fold(s, data) == Compress(Compress(s, WordsOf(data[..64])), WordsOf(data[64..]))
  {
    FoldStep(s, data);
    FoldOne(Compress(s, WordsOf(data[..64])), data[64..]);
  }

  /** The lower-case hex digit of a nibble: '0' to '9', then 'a' to 'f'. */
  function HexChar(d: bv8): (c: char)
    requires d < 16
    ensures IsHexChar(c)
  {
    if d < 10 then ('0' as int + d as int) as char else ('a' as int + d as int - 10) as char
  }

  predicate IsHexChar(c: char)
  {
    '0' <= c <= '9' || 'a' <= c <= 'f'
  }

  /** A byte as two hex digits, high nibble first. */
  function HexByte(b: bv8): (s: string)
    ensures |s| == 2 && IsHexChar(s[0]) && IsHexChar(s[1])
  {
    [HexChar(b >> 4), HexChar(b & 0xF)]
  }

  /** Bytes as hex digits, two per byte, in order. */
  function Hex(bs: seq<bv8>): (s: string)
    ensures |s| == 2 * |bs|
    ensures forall i :: 0 <= i < |s| ==> IsHexChar(s[i])
  {
    if bs == [] then "" else HexByte(bs[0]) + Hex(bs[1..])
  }

  /** Printing a concatenation prints its parts one after the other. */
  lemma {:induction false} HexConcat(a: seq<bv8>, b: seq<bv8>)
    ensures Hex(a + b) == Hex(a) + Hex(b)
  {
    if a != [] {
      assert (a + b)[1..] == a[1..] + b;
      HexConcat(a[1..], b);
    } else {
      assert a + b == b;
    }
  }

  /** Byte `i` is printed at positions 2i and 2i + 1. */
  lemma {:induction false} HexAt(bs: seq<bv8>, i: nat)
    requires i < |bs|
    ensures Hex(bs)[2 * i..2 * i + 2] == HexByte(bs[i])
  {
    if i > 0 {
      HexAt(bs[1..], i - 1);
      assert Hex(bs)[2 * i..2 * i + 2] == Hex(bs[1..])[2 * (i - 1)..2 * (i - 1) + 2];
    }
  }

  /** The printed digest of RFC 1321 section 3.5: the bytes of A, B, C, D, each word
      low-order byte first, as 32 lower-case hex digits. */
  function HexDigest(words: seq<bv32>): (s: string)
    requires |words| == 4
    ensures |s| == 32
  {
    Hex(Flatten(words))
  }

  /** Byte `b` of word `w`, its low-order byte being byte 0, is printed high
      nibble first at positions 8w + 2b and 8w + 2b + 1. */
  lemma HexDigestAt(words: seq<bv32>, w: nat, b: nat)
    requires |words| == 4 && w < 4 && b < 4
    ensures HexDigest(words)[8 * w + 2 * b] == HexChar(LeBytes(words[w])[b] >> 4)
    ensures HexDigest(words)[8 * w + 2 * b + 1] == HexChar(LeBytes(words[w])[b] & 0xF)
  {
    FlattenAt(words, w);
    HexAt(Flatten(words), 4 * w + b);
    assert Flatten(words)[4 * w + b] == Flatten(words)[4 * w..4 * w + 4][b];
    assert HexDigest(words)[8 * w + 2 * b] == Hex(Flatten(words))[2 * (4 * w + b)..2 * (4 * w + b) + 2][0];
    assert HexDigest(words)[8 * w + 2 * b + 1] == Hex(Flatten(words))[2 * (4 * w + b)..2 * (4 * w + b) + 2][1];
  }

  /** The value of a hex digit. */
  function DigitValue(c: char): bv8
  {
    if '0' <= c <= '9' then (c as int - '0' as int) as bv8
    else if 'a' <= c <= 'f' then (c as int - 'a' as int + 10) as bv8
    else 0
  }

  /** Reads pairs of hex digits back into bytes. */
  function Unhex(s: string): seq<bv8>
    requires |s| % 2 == 0
  {
    if s == "" then [] else [(DigitValue(s[0]) << 4) | DigitValue(s[1])] + Unhex(s[2..])
  }

  lemma DigitValueOf(d: bv8)
    requires d < 16
    ensures DigitValue(HexChar(d)) == d
  {
  }

  lemma HexByteRoundTrip(b: bv8)
    ensures (DigitValue(HexByte(b)[0]) << 4) | DigitValue(HexByte(b)[1]) == b
  {
    DigitValueOf(b >> 4);
    DigitValueOf(b & 0xF);
  }

  /** The hex rendering loses nothing: reading it back gives the bytes. */
  lemma {:induction false} UnhexHex(bs: seq<bv8>)
    ensures Unhex(Hex(bs)) == bs
  {
    if bs != [] {
      HexByteRoundTrip(bs[0]);
      assert Hex(bs)[2..] == Hex(bs[1..]);
      UnhexHex(bs[1..]);
    }
  }
}
