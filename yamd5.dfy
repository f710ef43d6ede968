/** The incremental MD5 engine of src/yamd5.ts: an object that holds the
    running state, a 64-byte block buffer with four spare bytes, and the
    number of bytes already compressed, and that bytes, ASCII strings and
    Unicode strings are appended to in any chunking before the digest is
    taken. Every method is proved against the whole-message MD5 of RFC 1321
    (`Md5Reference.Md5`) through the streaming context `Md5Reference.Ctx`. */
module YaMD5 {
  import opened Words
  import opened Md5Compress
  import opened Md5Reference
  import opened Utf8Encoding

  /** What `digest` returns: the four state words, or their hex string. */
  datatype DigestResult = Raw(words: seq<bv32>) | HexString(hex: string)

  /** The state the step of `md5cycle` with index `i` sees in its variables
      a, b, c, d, as the rotating tuple (A, B, C, D) of RFC 1321: the source
      renames instead of rotating, so the tuple turns by one variable each step. */
  function Aligned(a: bv32, b: bv32, c: bv32, d: bv32, i: nat): Regs
  {
    match i % 4
    case 0 => Regs(a, b, c, d)
    case 1 => Regs(d, a, b, c)
    case 2 => Regs(c, d, a, b)
    case _ => Regs(b, c, d, a)
  }

  /** The four state words held in `x`. */
  function RegsOf(x: array<bv32>): Regs
    reads x
    requires x.Length == 4
  {
    Regs(x[0], x[1], x[2], x[3])
  }

  /** Steps 0, 4, 8, ... compute A of the RFC tuple into variable a. */
  lemma StepIntoA(a: bv32, b: bv32, c: bv32, d: bv32, i: nat, k: seq<bv32>)
    requires |k| == 16 && i < 64 && i % 4 == 0
    ensures Step(Aligned(a, b, c, d, i), k, i) == Aligned(Op(i, a, b, c, d, k[MsgIndex(i)]), b, c, d, i + 1)
  {
    assert Aligned(a, b, c, d, i) == Regs(a, b, c, d);
    assert (i + 1) % 4 == 1;
  }

  /** Steps 1, 5, 9, ... compute into variable d. */
  lemma StepIntoD(a: bv32, b: bv32, c: bv32, d: bv32, i: nat, k: seq<bv32>)
    requires |k| == 16 && i < 64 && i % 4 == 1
    ensures Step(Aligned(a, b, c, d, i), k, i) == Aligned(a, b, c, Op(i, d, a, b, c, k[MsgIndex(i)]), i + 1)
  {
    assert Aligned(a, b, c, d, i) == Regs(d, a, b, c);
    assert (i + 1) % 4 == 2;
  }

  /** Steps 2, 6, 10, ... compute into variable c. */
  lemma StepIntoC(a: bv32, b: bv32, c: bv32, d: bv32, i: nat, k: seq<bv32>)
    requires |k| == 16 && i < 64 && i % 4 == 2
    ensures Step(Aligned(a, b, c, d, i), k, i) == Aligned(a, b, Op(i, c, d, a, b, k[MsgIndex(i)]), d, i + 1)
  {
    assert Aligned(a, b, c, d, i) == Regs(c, d, a, b);
    assert (i + 1) % 4 == 3;
  }

  /** Steps 3, 7, 11, ... compute into variable b. */
  lemma StepIntoB(a: bv32, b: bv32, c: bv32, d: bv32, i: nat, k: seq<bv32>)
    requires |k| == 16 && i < 64 && i % 4 == 3
    ensures Step(Aligned(a, b, c, d, i), k, i) == Aligned(a, Op(i, b, c, d, a, k[MsgIndex(i)]), c, d, i + 1)
  {
    assert Aligned(a, b, c, d, i) == Regs(b, c, d, a);
    assert (i + 1) % 4 == 0;
  }

  /** Buffer bytes that agree one by one with a stretch of `all` are that stretch. */
  lemma Pointwise(a: array<bv8>, len: nat, all: seq<bv8>, n: nat)
    requires len <= a.Length && n + len <= |all|
    requires forall p :: 0 <= p < len ==> a[p] == all[n + p]
    ensures a[..len] == all[n..n + len]
  {
  }

  /** A state that folds the whole blocks of `all` and a buffer that holds
      the rest form the context that absorbed `all` from the start. */
  lemma Settle(all: seq<bv8>, st: Regs, n: nat, buf: seq<bv8>)
    requires n % 64 == 0 && n + |buf| == |all| && |buf| < 64
    requires st == Fold(IV, all[..n]) && buf == all[n..n + |buf|]
    ensures buf == all[n..] && Ctx(st, n, buf) == Absorb(Start, all)
  {
    assert n == |all| - |all| % 64 by {
      assert n == 64 * (n / 64);
      assert |all| % 64 == |buf|;
    }
    AbsorbFromEmpty(IV, all);
  }

  /** The digit table of `hex`. */
  const HexChars: string := "0123456789abcdef"

  /** The low four bits of `n`, which `hex` looks up in the table. */
  function Nibble(n: bv32): (d: bv8)
    ensures d < 16
  {
    (n & 0xF) as bv8
  }

  /** Looking up a nibble in the table gives its hex digit. */
  lemma HexCharsAt(d: bv8)
    requires d < 16
    ensures HexChars[d as int] == HexChar(d)
  {
  }

  /** What is left of `w` after `hex` has shifted out its low `b` bytes. */
  function ShiftBytes(w: bv32, b: nat): bv32
    requires b <= 4
  {
    if b == 0 then w else if b == 1 then w >> 8 else if b == 2 then w >> 16 else if b == 3 then w >> 24 else 0
  }

  lemma BytesOfShifts(w: bv32)
    ensures LeBytes(w)[0] == (w & 0xFF) as bv8 && LeBytes(w)[1] == ((w >> 8) & 0xFF) as bv8
    ensures LeBytes(w)[2] == ((w >> 16) & 0xFF) as bv8 && LeBytes(w)[3] == ((w >> 24) & 0xFF) as bv8
  {
  }

  /** The low byte of what is left after `b` bytes is byte `b` of the word. */
  lemma ByteOfShift(w: bv32, b: nat)
    requires b < 4
    ensures LeBytes(w)[b] == (ShiftBytes(w, b) & 0xFF) as bv8
  {
    BytesOfShifts(w);
    if b == 0 {
      assert ShiftBytes(w, b) == w;
    } else if b == 1 {
      assert ShiftBytes(w, b) == w >> 8;
    } else if b == 2 {
      assert ShiftBytes(w, b) == w >> 16;
    } else {
      assert ShiftBytes(w, b) == w >> 24;
    }
  }

  /** The two nibbles of the low byte of `x`. */
  lemma NibblesOfByte(x: bv32, y: bv8)
    requires y == (x & 0xFF) as bv8
    ensures Nibble(x) == y & 0xF && Nibble(x >> 4) == y >> 4
  {
  }

  /** Each nibble `hex` masks out is a nibble of byte `b` of the word. */
  lemma NibblesOf(w: bv32, b: nat)
    requires b < 4
    ensures Nibble(ShiftBytes(w, b)) == LeBytes(w)[b] & 0xF
    ensures Nibble(ShiftBytes(w, b) >> 4) == LeBytes(w)[b] >> 4
  {
    ByteOfShift(w, b);
    NibblesOfByte(ShiftBytes(w, b), LeBytes(w)[b]);
  }

  /** Two shifts by four move on to the next byte. */
  lemma ShiftNext(w: bv32, b: nat)
    requires b < 4
    ensures ShiftBytes(w, b) >> 4 >> 4 == ShiftBytes(w, b + 1)
  {
    if b == 0 {
      assert w >> 4 >> 4 == w >> 8;
    } else if b == 1 {
      assert w >> 8 >> 4 >> 4 == w >> 16;
    } else if b == 2 {
      assert w >> 16 >> 4 >> 4 == w >> 24;
    } else {
      assert w >> 24 >> 4 >> 4 == 0;
    }
  }

  /** The two table lookups `hex` makes for byte `b` of word `i` give the
      digits the printed digest has at positions 8i + 2b + 1 and 8i + 2b. */
  lemma DigitsOf(words: seq<bv32>, i: nat, w: bv32, b: nat, n: bv32)
    requires |words| == 4 && i < 4 && words[i] == w && b < 4 && n == ShiftBytes(w, b)
    ensures HexChars[Nibble(n) as int] == HexDigest(words)[8 * i + 2 * b + 1]
    ensures HexChars[Nibble(n >> 4) as int] == HexDigest(words)[8 * i + 2 * b]
  {
    NibblesOf(w, b);
    HexCharsAt(Nibble(n));
    HexCharsAt(Nibble(n >> 4));
    HexDigestAt(words, i, b);
  }

  class MD5 {
    /** Bytes compressed so far: always a whole number of blocks while appending. */
    var dataLength: nat
    /** The four state words. */
    var state: array<bv32>
    /** The block being filled, plus four bytes that a multi-byte character
        may spill past the end of the block. */
    var buffer: array<bv8>
    /** Bytes waiting in `buffer`. */
    var bufferLength: nat
    /** Every byte appended since the last `Init`. */
    ghost var consumed: seq<bv8>

    /** The object holds a context that has absorbed `consumed`: whole blocks
        folded into `state`, the rest waiting at the front of `buffer`. */
    ghost predicate Valid()
      reads this, state, buffer
    {
      && state.Length == 4 && buffer.Length == 68
      && bufferLength < 64 && dataLength % 64 == 0
      && dataLength + bufferLength == |consumed|
      && RegsOf(state) == Fold(IV, consumed[..dataLength])
      && forall p :: 0 <= p < bufferLength ==> buffer[p] == consumed[dataLength + p]
    }

    /** The streaming context the object holds. */
    ghost function View(): Ctx
      reads this, state, buffer
      requires state.Length == 4 && bufferLength <= buffer.Length
    {
      Ctx(RegsOf(state), dataLength, buffer[..bufferLength])
    }

    /** The context held is the one that absorbed every appended byte in one go. */
    lemma ViewIsAbsorb()
      requires Valid()
      ensures View() == Absorb(Start, consumed)
    {
      Pointwise(buffer, bufferLength, consumed, dataLength);
      Settle(consumed, RegsOf(state), dataLength, buffer[..bufferLength]);
    }

    /** Two objects that were fed the same bytes, in whatever chunks and
        through whichever append methods, hold the same state, the same
        counters and the same waiting bytes. */
    lemma ChunkingInvariant(other: MD5)
      requires Valid() && other.Valid() && consumed == other.consumed
      ensures RegsOf(state) == RegsOf(other.state)
      ensures dataLength == other.dataLength && bufferLength == other.bufferLength
      ensures buffer[..bufferLength] == other.buffer[..other.bufferLength]
    {
      ViewIsAbsorb();
      other.ViewIsAbsorb();
    }

    /** The fields' initial values, then `init`. */
    constructor()
      ensures Valid() && consumed == []
      ensures RegsOf(state) == IV && dataLength == 0 && bufferLength == 0
      ensures forall p :: 0 <= p < buffer.Length ==> buffer[p] == 0
      ensures fresh(state) && fresh(buffer)
    {
      dataLength := 0;
      state := new bv32[4](_ => 0);
      buffer := new bv8[68](_ => 0);
      bufferLength := 0;
      consumed := [];
      new;
      Init();
    }

    /** Hashes a Unicode string with the shared object `h`: `init`, then
        `appendStr`, then `digest`; `None` when `appendStr` throws
        (src/yamd5.ts:247-251). */
    static method HashStr(h: MD5, str: seq<CodeUnit>, raw: bool) returns (r: Option<DigestResult>)
      modifies h
      ensures r.Some? == Encode(str).Complete?
      ensures r.Some? ==> r.value == if raw then Raw(ToSeq(Md5(Encode(str).bytes)))
        else HexString(HexDigest(ToSeq(Md5(Encode(str).bytes))))
    {
      h.Init();
      var ok := h.AppendStr(str);
      if ok {
        assert h.consumed == Encode(str).bytes;
        var d := h.Digest(raw);
        r := Some(d);
      } else {
        r := None;
      }
    }

    /** Hashes a string one byte per unit with the shared object `h`:
        `init`, then `appendAsciiStr`, then `digest` (src/yamd5.ts:262-266). */
    static method HashAsciiStr(h: MD5, str: seq<CodeUnit>, raw: bool) returns (r: DigestResult)
      modifies h
      ensures r == if raw then Raw(ToSeq(Md5(AsciiBytes(str)))) else HexString(HexDigest(ToSeq(Md5(AsciiBytes(str)))))
    {
      h.Init();
      h.AppendAsciiStr(str);
      assert h.consumed == AsciiBytes(str);
      r := h.Digest(raw);
    }

    /** Starts a new message: fresh zeroed arrays, the initial state, nothing
        compressed and nothing waiting. */
    method Init()
      modifies this
      ensures Valid() && consumed == []
      ensures RegsOf(state) == IV && dataLength == 0 && bufferLength == 0
      ensures forall p :: 0 <= p < buffer.Length ==> buffer[p] == 0
      ensures fresh(state) && fresh(buffer)
    {
      var words := new bv32[4];
      words[0], words[1], words[2], words[3] := IV.a, IV.b, IV.c, IV.d;
      var bytes := new bv8[68](_ => 0);
      dataLength, state, buffer, bufferLength, consumed := 0, words, bytes, 0, [];
    }

    /** Appends a string as UTF-8, unit by unit: a unit that is not a high
        surrogate becomes one to three bytes, a high surrogate is combined
        with the unit after it into four bytes, and the buffer is compressed
        as soon as it holds a whole block, the bytes past the block moving to
        its front. `ok` is false when the source throws on a combined code
        above U+10FFFF: the blocks written so far are then compressed and
        counted, but the waiting byte count is left as it was
        (src/yamd5.ts:291-329). */
    method AppendStr(str: seq<CodeUnit>) returns (ok: bool)
      requires Valid()
      modifies this, state, buffer
      ensures state == old(state) && buffer == old(buffer)
      ensures ok == Encode(str).Complete?
      ensures ok ==> Valid() && consumed == old(consumed) + Encode(str).bytes
      ensures !ok ==> consumed == old(consumed) && bufferLength == old(bufferLength)
      ensures !ok ==> var c := Absorb(Start, old(consumed) + Encode(str).Written());
        RegsOf(state) == c.state && dataLength == c.dataLength
        && forall p :: 0 <= p < |c.pending| ==> buffer[p] == c.pending[p]
    {
      ghost var base := consumed;
      ghost var w: seq<bv8> := [];
      ghost var all := base;
      var bufLen: nat := bufferLength;
      var i: nat := 0;
      while i < |str|
        invariant i <= |str|
        invariant state == old(state) && buffer == old(buffer)
        invariant consumed == base && bufferLength == old(bufferLength)
        invariant Encode(str) == Prepend(w, Encode(str[i..])) && all == base + w
        invariant dataLength % 64 == 0 && bufLen < 64 && dataLength + bufLen == |all|
        invariant RegsOf(state) == Fold(IV, all[..dataLength])
        invariant forall p :: 0 <= p < bufLen ==> buffer[p] == all[dataLength + p]
      {
        var bytes, next, thrown := EncodeAt(str, i);
        if thrown {
          assert Encode(str) == Thrown(w + []) && w + [] == w;
          WrittenSoFar(all, bufLen);
          return false;
        }
        PrependTwice(w, bytes, Encode(str[next..]));
        bufLen := Write(bufLen, bytes, all);
        w, all, i := w + bytes, all + bytes, next;
        assert all == base + w;
      }
      assert str[i..] == [];
      Keep(bufLen, all);
      return true;
    }

    /** The bytes of the unit at `i`, or of the surrogate pair starting
        there, and the index after them; `thrown` when the pair combines to a
        code above U+10FFFF (src/yamd5.ts:297-318). */
    static method EncodeAt(str: seq<CodeUnit>, i: nat) returns (bytes: seq<bv8>, next: nat, thrown: bool)
      requires i < |str|
      ensures thrown ==> Encode(str[i..]) == Thrown([])
      ensures !thrown ==> i < next <= |str| && |bytes| <= 4
      ensures !thrown ==> Encode(str[i..]) == Prepend(bytes, Encode(str[next..]))
    {
      var code := str[i];
      thrown := false;
      if !IsHigh(code) {
        EncodeUnit(str[i..]);
        assert str[i..][1..] == str[i + 1..];
        bytes := UnitBytes(code);
        next := i + 1;
      } else {
        var combined: bv32;
        if i + 1 < |str| {
          EncodePair(str[i..]);
          assert str[i..][2..] == str[i + 2..];
          combined := Combine(code, str[i + 1]);
          next := i + 2;
        } else {
          // The unit after a final high surrogate reads as NaN, which the
          // shifts and masks below turn into the code 0.
          EncodeLast(str[i..]);
          combined := 0;
          next := i + 1;
          assert str[next..] == [];
        }
        if combined > 0x10FFFF {
          thrown := true;
          bytes := [];
        } else {
          bytes := PairBytes(combined);
        }
      }
    }

    /** Writes the bytes of one unit or pair after the `bufLen` waiting
        bytes, and compresses the block once it is full
        (src/yamd5.ts:298-325). */
    method Write(bufLen: nat, bytes: seq<bv8>, ghost prior: seq<bv8>) returns (newLen: nat)
      requires state.Length == 4 && buffer.Length == 68 && bufLen < 64 && |bytes| <= 4
      requires dataLength % 64 == 0 && dataLength + bufLen == |prior|
      requires RegsOf(state) == Fold(IV, prior[..dataLength])
      requires forall p :: 0 <= p < bufLen ==> buffer[p] == prior[dataLength + p]
      modifies this`dataLength, state, buffer
      ensures dataLength % 64 == 0 && newLen < 64 && dataLength + newLen == |prior + bytes|
      ensures RegsOf(state) == Fold(IV, (prior + bytes)[..dataLength])
      ensures forall p :: 0 <= p < newLen ==> buffer[p] == (prior + bytes)[dataLength + p]
    {
      ghost var all := prior + bytes;
      assert prior[..dataLength] == all[..dataLength];
      Put(bufLen, bytes, all);
      newLen := bufLen + |bytes|;
      if newLen >= 64 {
        newLen := Spill(newLen, all);
      }
    }

    /** On a throw, the whole blocks written so far are compressed and the
        rest waits in the buffer: the context that absorbed every byte
        written. */
    lemma WrittenSoFar(all: seq<bv8>, bufLen: nat)
      requires state.Length == 4 && buffer.Length == 68
      requires dataLength % 64 == 0 && bufLen < 64 && dataLength + bufLen == |all|
      requires RegsOf(state) == Fold(IV, all[..dataLength])
      requires forall p :: 0 <= p < bufLen ==> buffer[p] == all[dataLength + p]
      ensures var c := Absorb(Start, all);
        RegsOf(state) == c.state && dataLength == c.dataLength
        && forall p :: 0 <= p < |c.pending| ==> buffer[p] == c.pending[p]
    {
      Pointwise(buffer, bufLen, all, dataLength);
      Settle(all, RegsOf(state), dataLength, buffer[..bufLen]);
    }

    /** Writes the bytes of one unit or pair at `at`, after bytes that agree
        with `all`; the buffer then agrees with `all` up to the new end. */
    method Put(at: nat, bytes: seq<bv8>, ghost all: seq<bv8>)
      requires buffer.Length == 68 && at + |bytes| <= 68
      requires dataLength + at + |bytes| == |all| && all[dataLength + at..] == bytes
      requires forall p :: 0 <= p < at ==> buffer[p] == all[dataLength + p]
      modifies buffer
      ensures forall p :: 0 <= p < at + |bytes| ==> buffer[p] == all[dataLength + p]
    {
      forall p | at <= p < at + |bytes| {
        buffer[p] := bytes[p - at];
      }
    }

    /** Compresses the full block and moves the bytes written past it, at
        most four, to the front of the buffer as one word
        (src/yamd5.ts:320-325). */
    method Spill(bufLen: nat, ghost all: seq<bv8>) returns (rest: nat)
      requires state.Length == 4 && buffer.Length == 68 && 64 <= bufLen <= 68
      requires dataLength % 64 == 0 && dataLength + bufLen <= |all|
      requires RegsOf(state) == Fold(IV, all[..dataLength])
      requires forall p :: 0 <= p < bufLen ==> buffer[p] == all[dataLength + p]
      modifies this`dataLength, state, buffer
      ensures rest == bufLen - 64 && dataLength == old(dataLength) + 64 && dataLength % 64 == 0
      ensures RegsOf(state) == Fold(IV, all[..dataLength])
      ensures forall p :: 0 <= p < rest ==> buffer[p] == all[dataLength + p]
    {
      CompressBuffer(all);
      rest := bufLen - 64;
      buffer[0], buffer[1], buffer[2], buffer[3] := buffer[64], buffer[65], buffer[66], buffer[67];
    }

    /** Appends bytes: copies as many as fit into the buffer, compresses the
        buffer when it holds a whole block, and repeats until the input is
        used up (src/yamd5.ts:362-381). */
    method AppendByteArray(input: seq<bv8>)
      requires Valid()
      modifies this, state, buffer
      ensures Valid() && consumed == old(consumed) + input
      ensures state == old(state) && buffer == old(buffer)
    {
      ghost var all := consumed + input;
      ghost var n0 := |consumed|;
      assert all[..dataLength] == consumed[..dataLength];
      var bufLen: nat := bufferLength;
      var j: nat := 0;
      while true
        invariant state == old(state) && buffer == old(buffer) && consumed == old(consumed)
        invariant dataLength % 64 == 0 && bufLen < 64
        invariant j <= |input| && dataLength + bufLen == n0 + j
        invariant RegsOf(state) == Fold(IV, all[..dataLength])
        invariant forall p :: 0 <= p < bufLen ==> buffer[p] == all[dataLength + p]
        decreases |input| - j
      {
        var i: nat := if |input| - j < 64 - bufLen then |input| - j else 64 - bufLen;
        CopyIn(input, j, bufLen, i);
        bufLen, j := bufLen + i, j + i;
        if bufLen < 64 {
          break;
        }
        CompressBuffer(all);
        bufLen := 0;
      }
      Keep(bufLen, all);
    }

    /** Copies `count` bytes of `src` from index `from` into the buffer from
        index `at`, leaving the bytes before `at` as they were: the inner loop
        of `appendByteArray` (src/yamd5.ts:369-371). */
    method CopyIn(src: seq<bv8>, from: nat, at: nat, count: nat)
      requires buffer.Length == 68 && at + count <= 64 && from + count <= |src|
      modifies buffer
      ensures forall p :: 0 <= p < at ==> buffer[p] == old(buffer[p])
      ensures forall p :: at <= p < at + count ==> buffer[p] == src[from + (p - at)]
    {
      var i: nat, bufLen: nat, j: nat := count, at, from;
      while i > 0
        invariant i <= count && bufLen == at + (count - i) && j == from + (count - i)
        invariant forall p :: 0 <= p < at ==> buffer[p] == old(buffer[p])
        invariant forall p :: at <= p < bufLen ==> buffer[p] == src[from + (p - at)]
      {
        buffer[bufLen] := src[j];
        bufLen, j, i := bufLen + 1, j + 1, i - 1;
      }
    }

    /** Appends a string as one byte per UTF-16 unit, the low eight bits of
        the unit, by the same block loop as `appendByteArray`
        (src/yamd5.ts:336-355). */
    method AppendAsciiStr(str: seq<CodeUnit>)
      requires Valid()
      modifies this, state, buffer
      ensures Valid() && consumed == old(consumed) + AsciiBytes(str)
      ensures state == old(state) && buffer == old(buffer)
    {
      ghost var all := consumed + AsciiBytes(str);
      ghost var n0 := |consumed|;
      assert all[..dataLength] == consumed[..dataLength];
      var bufLen: nat := bufferLength;
      var j: nat := 0;
      while true
        invariant state == old(state) && buffer == old(buffer) && consumed == old(consumed)
        invariant dataLength % 64 == 0 && bufLen < 64
        invariant j <= |str| && dataLength + bufLen == n0 + j
        invariant RegsOf(state) == Fold(IV, all[..dataLength])
        invariant forall p :: 0 <= p < bufLen ==> buffer[p] == all[dataLength + p]
        decreases |str| - j
      {
        var i: nat := if |str| - j < 64 - bufLen then |str| - j else 64 - bufLen;
        CopyAsciiIn(str, j, bufLen, i);
        bufLen, j := bufLen + i, j + i;
        if bufLen < 64 {
          break;
        }
        CompressBuffer(all);
        bufLen := 0;
      }
      Keep(bufLen, all);
    }

    /** Stores `count` units of `str` from index `from` into the buffer from
        index `at`, each as its low eight bits, leaving the bytes before `at`
        as they were: the inner loop of `appendAsciiStr` (src/yamd5.ts:343-345). */
    method CopyAsciiIn(str: seq<CodeUnit>, from: nat, at: nat, count: nat)
      requires buffer.Length == 68 && at + count <= 64 && from + count <= |str|
      modifies buffer
      ensures forall p :: 0 <= p < at ==> buffer[p] == old(buffer[p])
      ensures forall p :: at <= p < at + count ==> buffer[p] == AsciiBytes(str)[from + (p - at)]
    {
      var i: nat, bufLen: nat, j: nat := count, at, from;
      while i > 0
        invariant i <= count && bufLen == at + (count - i) && j == from + (count - i)
        invariant forall p :: 0 <= p < at ==> buffer[p] == old(buffer[p])
        invariant forall p :: at <= p < bufLen ==> buffer[p] == AsciiBytes(str)[from + (p - at)]
      {
        AsciiBytesAt(str, j);
        buffer[bufLen] := LowByte(str[j]);
        bufLen, j, i := bufLen + 1, j + 1, i - 1;
      }
    }

    /** Records how many bytes wait in the buffer once an append is done
        (src/yamd5.ts:327, 353, 379); every byte of `all` is then absorbed. */
    method Keep(bufLen: nat, ghost all: seq<bv8>)
      requires state.Length == 4 && buffer.Length == 68
      requires bufLen < 64 && dataLength % 64 == 0 && dataLength + bufLen == |all|
      requires RegsOf(state) == Fold(IV, all[..dataLength])
      requires forall p :: 0 <= p < bufLen ==> buffer[p] == all[dataLength + p]
      modifies this`bufferLength, this`consumed
      ensures Valid() && consumed == all && bufferLength == bufLen
    {
      bufferLength, consumed := bufLen, all;
    }

    /** Compresses the full buffer into the state and counts its 64 bytes
        as done, as every append method and `digest` do when the buffer
        fills (src/yamd5.ts:321-322, 349-350, 375-376). */
    method CompressBuffer(ghost all: seq<bv8>)
      requires state.Length == 4 && buffer.Length == 68
      requires dataLength % 64 == 0 && dataLength + 64 <= |all|
      requires RegsOf(state) == Fold(IV, all[..dataLength])
      requires forall p :: 0 <= p < 64 ==> buffer[p] == all[dataLength + p]
      modifies this`dataLength, state
      ensures dataLength == old(dataLength) + 64 && dataLength % 64 == 0
      ensures RegsOf(state) == Fold(IV, all[..dataLength])
    {
      Pointwise(buffer, 64, all, dataLength);
      FoldPrefix(IV, all, dataLength);
      dataLength := dataLength + 64;
      Md5Cycle(state, WordsOf(buffer[..64]));
    }

    /** Finishes the message: pads the waiting bytes with 0x80 and zeros,
        compresses an extra block when the length does not fit after them,
        stores the bit length in words 14 and 15 and compresses the last
        block. The result is the state words when `raw` is set, else their
        hex string; the state and the counters are left as they are then
        (src/yamd5.ts:390-420). */
    method Digest(raw: bool) returns (r: DigestResult)
      requires Valid()
      modifies this`dataLength, state, buffer
      ensures state == old(state) && buffer == old(buffer)
      ensures consumed == old(consumed) && bufferLength == old(bufferLength)
      ensures dataLength == |consumed|
      ensures RegsOf(state) == Md5(consumed)
      ensures r == if raw then Raw(ToSeq(Md5(consumed))) else HexString(HexDigest(ToSeq(Md5(consumed))))
    {
      ViewIsAbsorb();
      FinalOfAbsorb(consumed);
      var bufLen := bufferLength;
      dataLength := dataLength + bufLen;
      Finish(bufLen);
      if raw {
        r := Raw([state[0], state[1], state[2], state[3]]);
      } else {
        var hex := Hex(state);
        r := HexString(hex);
      }
    }

    /** Pads the `bufLen` waiting bytes of a `dataLength`-byte message and
        compresses the one or two blocks this makes into the state
        (src/yamd5.ts:393-418). */
    method Finish(bufLen: nat)
      requires state.Length == 4 && buffer.Length == 68 && bufLen < 64
      modifies state, buffer
      ensures RegsOf(state) == Fold(old(RegsOf(state)), PadTail(old(buffer[..bufLen]), dataLength))
    {
      ghost var rest := buffer[..bufLen];
      ghost var tail := PadTail(rest, dataLength);
      ghost var s0 := RegsOf(state);
      PadTailLength(rest, dataLength);
      PadBuffer(bufLen);
      assert buffer[..bufLen] == rest;
      if bufLen > 55 {
        CompressFirstOfTwo(bufLen, rest, dataLength);
      }
      StoreBitLength(dataLength);
      if bufLen > 55 {
        PaddedSecond(buffer[..64], rest, dataLength);
        FoldTwo(s0, tail);
      } else {
        assert buffer[..64][..bufLen] == rest;
        PaddedOne(buffer[..64], rest, dataLength);
        FoldOne(s0, tail);
      }
      Md5Cycle(state, WordsOf(buffer[..64]));
    }

    /** When the padding takes two blocks, compresses the first, which holds
        the waiting bytes, 0x80 and zeros, then zeroes the whole block
        (src/yamd5.ts:399-402). */
    method CompressFirstOfTwo(bufLen: nat, ghost rest: seq<bv8>, ghost len: nat)
      requires state.Length == 4 && buffer.Length == 68 && 56 <= bufLen < 64 && |rest| == bufLen
      requires buffer[..bufLen] == rest && buffer[bufLen] == 0x80
      requires forall p :: bufLen < p < 64 ==> buffer[p] == 0
      modifies state, buffer
      ensures |PadTail(rest, len)| == 128
      ensures RegsOf(state) == Compress(old(RegsOf(state)), WordsOf(PadTail(rest, len)[..64]))
      ensures forall p :: 0 <= p < 64 ==> buffer[p] == 0
    {
      assert buffer[..64][..bufLen] == rest;
      PaddedFirst(buffer[..64], rest, len);
      Md5Cycle(state, WordsOf(buffer[..64]));
      ZeroWords(0);
    }

    /** Puts 0x80 after the `bufLen` waiting bytes and zeros up to the end
        of the block, as three zero bytes and then the words after the one
        holding 0x80 (src/yamd5.ts:393-398). */
    method PadBuffer(bufLen: nat)
      requires buffer.Length == 68 && bufLen < 64
      modifies buffer
      ensures forall p :: 0 <= p < bufLen ==> buffer[p] == old(buffer[p])
      ensures buffer[bufLen] == 0x80
      ensures forall p :: bufLen < p < 64 ==> buffer[p] == 0
    {
      buffer[bufLen], buffer[bufLen + 1], buffer[bufLen + 2], buffer[bufLen + 3] := 0x80, 0, 0, 0;
      ZeroWords(bufLen / 4 + 1);
    }

    /** Zeroes the block's words from word `from` on, by copying in the
        zero block (src/yamd5.ts:398, 401). */
    method ZeroWords(from: nat)
      requires buffer.Length == 68 && from <= 16
      modifies buffer
      ensures forall p :: 0 <= p < buffer.Length ==> buffer[p] == if 4 * from <= p < 64 then 0 else old(buffer[p])
    {
      forall p | 4 * from <= p < 64 {
        buffer[p] := 0;
      }
    }

    /** Stores the bit length of a `len`-byte message in words 14 and 15:
        directly when it fits in 32 bits, else as its low 32 bits and the
        rest, which the 32-bit store wraps (src/yamd5.ts:405-417). Word 15
        is zero beforehand. */
    method StoreBitLength(len: nat)
      requires buffer.Length == 68
      requires forall p :: 60 <= p < 64 ==> buffer[p] == 0
      modifies buffer
      ensures forall p :: 0 <= p < 56 ==> buffer[p] == old(buffer[p])
      ensures buffer[56..64] == LengthBytes(len)
    {
      var bits := 8 * len;
      if bits <= 0xFFFFFFFF {
        StoreWord(14, LowWord(bits));
        assert bits / TwoTo32 == 0;
        LowWordZero();
        assert buffer[60..64] == LeBytes(0);
      } else {
        var lo := bits % TwoTo32;
        var hi := bits / TwoTo32;
        LowWordMod(bits);
        StoreWord(14, LowWord(lo));
        StoreWord(15, LowWord(hi));
      }
      assert buffer[56..64] == buffer[56..60] + buffer[60..64];
    }

    /** Stores `w` as word `i` of the block, low-order byte first. */
    method StoreWord(i: nat, w: bv32)
      requires buffer.Length == 68 && i < 16
      modifies buffer
      ensures buffer[4 * i..4 * i + 4] == LeBytes(w)
      ensures forall p :: 0 <= p < buffer.Length && !(4 * i <= p < 4 * i + 4) ==> buffer[p] == old(buffer[p])
    {
      var b := LeBytes(w);
      buffer[4 * i], buffer[4 * i + 1], buffer[4 * i + 2], buffer[4 * i + 3] := b[0], b[1], b[2], b[3];
    }

    /** The state words as 32 lower-case hex digits: for each word, its
        bytes from the low-order one up, each as its high nibble then its low
        nibble (src/yamd5.ts:422-437). */
    static method Hex(x: array<bv32>) returns (s: string)
      requires x.Length == 4
      ensures s == HexDigest([x[0], x[1], x[2], x[3]])
    {
      ghost var words := [x[0], x[1], x[2], x[3]];
      var ho := new char[32];
      var i := 0;
      while i < 4
        invariant 0 <= i <= 4
        invariant forall q :: 0 <= q < 8 * i ==> ho[q] == HexDigest(words)[q]
      {
        HexWord(ho, i, x[i], words);
        i := i + 1;
      }
      s := ho[..];
    }

    /** Writes the eight digits of word `i`, whose value is `w`, at offset
        8i: the inner loop of `hex` (src/yamd5.ts:429-434). */
    static method HexWord(ho: array<char>, i: nat, w: bv32, ghost words: seq<bv32>)
      requires ho.Length == 32 && |words| == 4 && i < 4 && words[i] == w
      modifies ho
      ensures forall q :: 0 <= q < 8 * i ==> ho[q] == old(ho[q])
      ensures forall q :: 8 * i <= q < 8 * i + 8 ==> ho[q] == HexDigest(words)[q]
    {
      var offset := i * 8;
      var n := w;
      ghost var b := 0;
      var j := 0;
      while j < 8
        invariant 0 <= b <= 4 && j == 2 * b
        invariant n == ShiftBytes(w, b)
        invariant forall q :: 0 <= q < offset ==> ho[q] == old(ho[q])
        invariant forall q :: offset <= q < offset + j ==> ho[q] == HexDigest(words)[q]
      {
        DigitsOf(words, i, w, b, n);
        ShiftNext(w, b);
        ho[offset + 1 + j] := HexChars[Nibble(n) as int];
        n := n >> 4;
        ho[offset + j] := HexChars[Nibble(n) as int];
        n := n >> 4;
        j, b := j + 2, b + 1;
      }
    }

    /** Compresses the block `k` into the state words `x`, step by step,
        updating the variables a, d, c, b in turn, then adding the entry
        words (src/yamd5.ts:91-233). */
    method Md5Cycle(x: array<bv32>, k: seq<bv32>)
      requires x.Length == 4 && |k| == 16
      modifies x
      ensures RegsOf(x) == Compress(old(RegsOf(x)), k)
    {
      var a, b, c, d := x[0], x[1], x[2], x[3];
      ghost var entry := RegsOf(x);
      var i := 0;
      while i < 64
        invariant 0 <= i <= 64
        invariant RoundsFrom(Aligned(a, b, c, d, i), k, i) == RoundsFrom(entry, k, 0)
        modifies {}
      {
        var w := k[MsgIndex(i)];
        RoundsFromStep(Aligned(a, b, c, d, i), k, i);
        if i % 4 == 0 {
          StepIntoA(a, b, c, d, i, k);
          a := Op(i, a, b, c, d, w);
        } else if i % 4 == 1 {
          StepIntoD(a, b, c, d, i, k);
          d := Op(i, d, a, b, c, w);
        } else if i % 4 == 2 {
          StepIntoC(a, b, c, d, i, k);
          c := Op(i, c, d, a, b, w);
        } else {
          StepIntoB(a, b, c, d, i, k);
          b := Op(i, b, c, d, a, w);
        }
        i := i + 1;
      }
      assert RoundsFrom(entry, k, 0) == Regs(a, b, c, d) by {
        assert Aligned(a, b, c, d, i) == Regs(a, b, c, d);
      }
      CompressOf(entry, k, Regs(a, b, c, d));
      x[0], x[1], x[2], x[3] := Add(a, x[0]), Add(b, x[1]), Add(c, x[2]), Add(d, x[3]);
    }
  }
}
