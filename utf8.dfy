/** The conversion of a JavaScript string, a sequence of UTF-16 code units,
    into the UTF-8 bytes that `MD5.appendStr` feeds to the hash, written out
    unit by unit as the source does it, together with what it does with
    ill-formed UTF-16. A strict UTF-8 reader (RFC 3629 sections 3 and 4) is
    the partner that shows the well-formed case is real UTF-8. */
module Utf8Encoding {

  datatype Option<T> = None | Some(value: T)

  /** A UTF-16 code unit, as `String.prototype.charCodeAt` returns it. */
  type CodeUnit = bv16

  predicate IsHigh(u: CodeUnit)
  {
    0xD800 <= u <= 0xDBFF
  }

  predicate IsLow(u: CodeUnit)
  {
    0xDC00 <= u <= 0xDFFF
  }

  /** A Unicode scalar value: a code point that is not a surrogate. */
  predicate IsScalar(c: bv32)
  {
    c <= 0x10FFFF && !(0xD800 <= c <= 0xDFFF)
  }

  /** What the conversion produces: every byte, or the bytes written before
      it throws on a combined code above U+10FFFF. */
  datatype Encoded = Complete(bytes: seq<bv8>) | Thrown(before: seq<bv8>)
  {
    /** The bytes written, whichever way the conversion ended. */
    function Written(): seq<bv8>
    {
      match this
      case Complete(b) => b
      case Thrown(b) => b
    }
  }

  /** `b` written ahead of the outcome `e`. */
  function Prepend(b: seq<bv8>, e: Encoded): (r: Encoded)
    ensures r.Complete? == e.Complete? && r.Written() == b + e.Written()
  {
    match e
    case Complete(rest) => Complete(b + rest)
    case Thrown(rest) => Thrown(b + rest)
  }

  /** Writing `a` ahead of writing `b` ahead of `e` is writing `a + b` ahead of `e`. */
  lemma PrependTwice(a: seq<bv8>, b: seq<bv8>, e: Encoded)
    ensures Prepend(a, Prepend(b, e)) == Prepend(a + b, e)
  {
    assert a + (b + e.Written()) == a + b + e.Written();
  }

  /** The bytes written for a unit that is not a high surrogate: one byte
      below 0x80, two below 0x800 and three otherwise, a lone low surrogate
      included. */
  function UnitBytes(c: CodeUnit): (r: seq<bv8>)
    requires !IsHigh(c)
    ensures |r| == if c < 0x80 then 1 else if c < 0x800 then 2 else 3
  {
    var x := c as bv32;
    if x < 0x80 then [x as bv8]
    else if x < 0x800 then [((x >> 6) + 0xC0) as bv8, ((x & 0x3F) | 0x80) as bv8]
    else [((x >> 12) + 0xE0) as bv8, (((x >> 6) & 0x3F) | 0x80) as bv8, ((x & 0x3F) | 0x80) as bv8]
  }

  /** The four bytes written for a combined code. */
  function PairBytes(code: bv32): (r: seq<bv8>)
    requires code <= 0x10FFFF
    ensures |r| == 4
  {
    [((code >> 18) + 0xF0) as bv8, (((code >> 12) & 0x3F) | 0x80) as bv8,
     (((code >> 6) & 0x3F) | 0x80) as bv8, ((code & 0x3F) | 0x80) as bv8]
  }

  /** The code combined from a high surrogate and whatever unit follows it,
      whether or not that unit is a low surrogate. The arithmetic is on 32-bit
      words, but the true value lies between 0x2400 and 0x111FFF, so the word
      holds it exactly; it exceeds U+10FFFF only when the unit is above the
      low surrogates. */
  function Combine(hi: CodeUnit, lo: CodeUnit): (code: bv32)
    requires IsHigh(hi)
    ensures 0x2400 <= code <= 0x111FFF
    ensures code > 0x10FFFF ==> lo > 0xDFFF
  {
    (hi as bv32 - 0xD800) * 0x400 + (lo as bv32 - 0xDC00) + 0x10000
  }

  /** The conversion, unit by unit. A high surrogate takes the next unit
      with it; when there is none the source reads NaN, which its shifts and
      masks turn into 0, so the bytes F0 80 80 80 are written. The split into
      `EncodeNonEmpty` and `EncodeFront` only keeps the bit arithmetic from
      unfolding by default; `EncodeUnit`, `EncodePair` and `EncodeLast` are
      the unfolding equations. */
  function Encode(s: seq<CodeUnit>): Encoded
    decreases |s|, 2
  {
    if s == [] then Complete([]) else EncodeNonEmpty(s)
  }

  /** The conversion of a non-empty string; a separate step so that
      unfolding `Encode` does not at once unfold the bit arithmetic. */
  function EncodeNonEmpty(s: seq<CodeUnit>): Encoded
    requires s != []
    decreases |s|, 1
  {
    EncodeFront(s)
  }

  /** The bytes of the first unit or pair, then the rest. */
  function EncodeFront(s: seq<CodeUnit>): Encoded
    requires s != []
    decreases |s|, 0
  {
    if !IsHigh(s[0]) then Prepend(UnitBytes(s[0]), Encode(s[1..]))
    else if |s| == 1 then Complete(PairBytes(0))
    else
      var code := Combine(s[0], s[1]);
      if code > 0x10FFFF then Thrown([])
      else Prepend(PairBytes(code), Encode(s[2..]))
  }

  /** A unit that is not a high surrogate is written, then the rest. */
  lemma EncodeUnit(s: seq<CodeUnit>)
    requires s != [] && !IsHigh(s[0])
    ensures Encode(s) == Prepend(UnitBytes(s[0]), Encode(s[1..]))
  {
    assert Encode(s) == EncodeNonEmpty(s) == EncodeFront(s);
  }

  /** A high surrogate at the end is written as the code 0. */
  lemma EncodeLast(s: seq<CodeUnit>)
    requires |s| == 1 && IsHigh(s[0])
    ensures Encode(s) == Complete(PairBytes(0))
  {
    assert Encode(s) == EncodeNonEmpty(s) == EncodeFront(s);
  }

  /** A high surrogate and the unit after it are combined: the conversion
      throws when the code is above U+10FFFF, and otherwise writes its four
      bytes, then the rest. */
  lemma EncodePair(s: seq<CodeUnit>)
    requires |s| >= 2 && IsHigh(s[0])
    ensures Combine(s[0], s[1]) > 0x10FFFF ==> Encode(s) == Thrown([])
    ensures Combine(s[0], s[1]) <= 0x10FFFF ==>
      Encode(s) == Prepend(PairBytes(Combine(s[0], s[1])), Encode(s[2..]))
  {
    assert Encode(s) == EncodeNonEmpty(s) == EncodeFront(s);
  }

  /** Well-formed UTF-16: every high surrogate is followed by a low one, and
      no low surrogate stands alone. */
  predicate WellFormed(s: seq<CodeUnit>)
    decreases |s|
  {
    if s == [] then true
    else if IsHigh(s[0]) then |s| >= 2 && IsLow(s[1]) && WellFormed(s[2..])
    else !IsLow(s[0]) && WellFormed(s[1..])
  }

  /** The code point of a surrogate pair: ten bits from each unit, offset
      by 0x10000 (RFC 2781 section 2.2). */
  function PairValue(hi: CodeUnit, lo: CodeUnit): bv32
  {
    ((((hi & 0x3FF) as bv32) << 10) | (lo & 0x3FF) as bv32) + 0x10000
  }

  /** The code points a well-formed UTF-16 string denotes. */
  function CodePoints(s: seq<CodeUnit>): seq<bv32>
    requires WellFormed(s)
    decreases |s|
  {
    if s == [] then []
    else if IsHigh(s[0]) then [PairValue(s[0], s[1])] + CodePoints(s[2..])
    else [s[0] as bv32] + CodePoints(s[1..])
  }

  /** Every code point of a well-formed string is a scalar value. */
  lemma {:induction false} CodePointsAreScalars(s: seq<CodeUnit>)
    requires WellFormed(s)
    ensures forall i :: 0 <= i < |CodePoints(s)| ==> IsScalar(CodePoints(s)[i])
    decreases |s|
  {
    if s != [] {
      if IsHigh(s[0]) {
        CodePointsAreScalars(s[2..]);
      } else {
        CodePointsAreScalars(s[1..]);
      }
    }
  }

  /** For a high and a low surrogate the code the source combines is the
      code point of the pair. */
  lemma CombinePair(hi: CodeUnit, lo: CodeUnit)
    requires IsHigh(hi) && IsLow(lo)
    ensures Combine(hi, lo) == PairValue(hi, lo) && 0x10000 <= Combine(hi, lo) <= 0x10FFFF
  {
  }

  /** The number of bytes of a UTF-8 sequence, read from its lead byte; 0
      for a byte that cannot lead a sequence: a continuation byte, the
      overlong leads C0 and C1, and F5 to FF (RFC 3629 section 4). */
  function SequenceLength(lead: bv8): nat
  {
    if lead < 0x80 then 1
    else if lead < 0xC2 then 0
    else if lead < 0xE0 then 2
    else if lead < 0xF0 then 3
    else if lead < 0xF5 then 4
    else 0
  }

  /** A continuation byte carries the marker bits 10 at the top. */
  predicate IsContinuation(x: bv8)
  {
    x & 0xC0 == 0x80
  }

  /** The payload bits of a continuation byte. */
  function Low6(x: bv8): bv32
  {
    (x & 0x3F) as bv32
  }

  /** The least code point that needs `n` bytes; a smaller one written in
      `n` bytes is an overlong form. */
  function Shortest(n: nat): bv32
  {
    if n <= 1 then 0 else if n == 2 then 0x80 else if n == 3 then 0x800 else 0x10000
  }

  /** The code point of one UTF-8 sequence: the payload bits of the lead
      byte, then six bits from each continuation byte (RFC 3629 section 3). */
  function DecodeOne(b: seq<bv8>): bv32
    requires 1 <= |b| <= 4
  {
    if |b| == 1 then b[0] as bv32
    else if |b| == 2 then (((b[0] & 0x1F) as bv32) << 6) | Low6(b[1])
    else if |b| == 3 then (((b[0] & 0x0F) as bv32) << 12) | (Low6(b[1]) << 6) | Low6(b[2])
    else (((b[0] & 0x07) as bv32) << 18) | (Low6(b[1]) << 12) | (Low6(b[2]) << 6) | Low6(b[3])
  }

  /** One sequence of RFC 3629 section 4: a lead byte announcing its length,
      marked continuation bytes, the shortest form of its value, and a value
      that is a Unicode scalar value. */
  predicate ValidSequence(b: seq<bv8>)
  {
    && 1 <= |b| <= 4 && SequenceLength(b[0]) == |b|
    && (forall i :: 1 <= i < |b| ==> IsContinuation(b[i]))
    && Shortest(|b|) <= DecodeOne(b) && IsScalar(DecodeOne(b))
  }

  /** A strict UTF-8 reader: the code points of `b`, or None when `b` is
      not a sequence of valid UTF-8 sequences. */
  function Decode(b: seq<bv8>): Option<seq<bv32>>
    decreases |b|
  {
    if b == [] then Some([])
    else
      var n := SequenceLength(b[0]);
      if n == 0 || |b| < n || !ValidSequence(b[..n]) then None
      else
        match Decode(b[n..])
        case None => None
        case Some(rest) => Some([DecodeOne(b[..n])] + rest)
  }

  /** `c` read ahead of the outcome `d`. */
  function Cons(c: bv32, d: Option<seq<bv32>>): Option<seq<bv32>>
  {
    match d
    case None => None
    case Some(rest) => Some([c] + rest)
  }

  /** Reading one valid sequence, then the rest. */
  lemma DecodeAhead(b: seq<bv8>, rest: seq<bv8>)
    requires ValidSequence(b)
    ensures Decode(b + rest) == Cons(DecodeOne(b), Decode(rest))
  {
    var all := b + rest;
    assert all[0] == b[0];
    assert all[..|b|] == b && all[|b|..] == rest;
  }

  /** An invalid sequence at the front makes the whole input invalid. */
  lemma DecodeRejects(b: seq<bv8>, rest: seq<bv8>)
    requires 1 <= |b| <= 4 && SequenceLength(b[0]) == |b| && !ValidSequence(b)
    ensures Decode(b + rest) == None
  {
    var all := b + rest;
    assert all[0] == b[0];
    assert all[..|b|] == b;
  }

  /** The bytes of a unit that is not a high surrogate form one sequence in
      its shortest form, with marked continuation bytes, that reads back as
      that unit; it is valid UTF-8 exactly when the unit is not a lone low
      surrogate. */
  lemma DecodeUnit(c: CodeUnit)
    requires !IsHigh(c)
    ensures var b := UnitBytes(c);
      && SequenceLength(b[0]) == |b|
      && (forall i :: 1 <= i < |b| ==> IsContinuation(b[i]))
      && Shortest(|b|) <= DecodeOne(b) == c as bv32
    ensures ValidSequence(UnitBytes(c)) <==> !IsLow(c)
  {
    if c < 0x80 {
      DecodeOneByte(c);
    } else if c < 0x800 {
      DecodeTwoBytes(c);
    } else {
      DecodeThreeBytes(c);
    }
  }

  lemma DecodeOneByte(c: CodeUnit)
    requires c < 0x80
    ensures var b := UnitBytes(c); |b| == 1 && SequenceLength(b[0]) == 1 && DecodeOne(b) == c as bv32
  {
  }

  lemma DecodeTwoBytes(c: CodeUnit)
    requires 0x80 <= c < 0x800
    ensures var b := UnitBytes(c);
      && |b| == 2 && SequenceLength(b[0]) == 2 && IsContinuation(b[1])
      && DecodeOne(b) == c as bv32
  {
  }

  lemma DecodeThreeBytes(c: CodeUnit)
    requires 0x800 <= c && !IsHigh(c)
    ensures var b := UnitBytes(c);
      && |b| == 3 && SequenceLength(b[0]) == 3 && IsContinuation(b[1]) && IsContinuation(b[2])
      && DecodeOne(b) == c as bv32
  {
  }

  /** The bytes of a combined code form one sequence with marked
      continuation bytes that reads back as that code; it is valid UTF-8
      exactly when the code is not below 0x10000, that is when the four
      bytes are its shortest form. */
  lemma DecodePair(code: bv32)
    requires code <= 0x10FFFF
    ensures var b := PairBytes(code);
      && SequenceLength(b[0]) == 4
      && IsContinuation(b[1]) && IsContinuation(b[2]) && IsContinuation(b[3])
      && DecodeOne(b) == code
    ensures ValidSequence(PairBytes(code)) <==> 0x10000 <= code
  {
    var b := PairBytes(code);
    PairLead(code);
    PairMarked(code);
    PairReadsBack(code);
    assert Shortest(|b|) == 0x10000;
  }

  lemma PairLead(code: bv32)
    requires code <= 0x10FFFF
    ensures SequenceLength(PairBytes(code)[0]) == 4
  {
  }

  lemma PairMarked(code: bv32)
    requires code <= 0x10FFFF
    ensures var b := PairBytes(code);
      IsContinuation(b[1]) && IsContinuation(b[2]) && IsContinuation(b[3])
  {
  }

  lemma PairReadsBack(code: bv32)
    requires code <= 0x10FFFF
    ensures DecodeOne(PairBytes(code)) == code
  {
  }

  /** A lone low surrogate is written in a form that RFC 3629 rejects. */
  lemma LoneLowRejected(c: CodeUnit, rest: seq<bv8>)
    requires IsLow(c)
    ensures Decode(UnitBytes(c) + rest) == None
  {
    DecodeUnit(c);
    DecodeRejects(UnitBytes(c), rest);
  }

  /** The bytes F0 80 80 80 written for a final high surrogate are an
      overlong form that RFC 3629 rejects. */
  lemma FinalHighRejected()
    ensures Decode(PairBytes(0)) == None
  {
    DecodePair(0);
    DecodeRejects(PairBytes(0), []);
    assert PairBytes(0) + [] == PairBytes(0);
  }

  /** The reader rejects a stray continuation byte, an unmarked continuation
      byte, overlong forms, an encoded surrogate and a code above U+10FFFF. */
  lemma StrictExamples()
    ensures Decode([0x80, 0x80]) == None
    ensures Decode([0xC2, 0x01]) == None
    ensures Decode([0xC1, 0x81]) == None
    ensures Decode([0xE0, 0x80, 0x80]) == None
    ensures Decode([0xED, 0xA0, 0x80]) == None
    ensures Decode([0xF4, 0x90, 0x80, 0x80]) == None
  {
    assert [0xC2, 0x01][..2] == [0xC2, 0x01];
    assert [0xE0, 0x80, 0x80][..3] == [0xE0, 0x80, 0x80];
    assert [0xED, 0xA0, 0x80][..3] == [0xED, 0xA0, 0x80];
    assert [0xF4, 0x90, 0x80, 0x80][..4] == [0xF4, 0x90, 0x80, 0x80];
  }

  /** Well-formed UTF-16 converts without throwing, and the bytes read back
      as its code points. */
  lemma {:induction false} EncodeWellFormed(s: seq<CodeUnit>)
    requires WellFormed(s)
    ensures Encode(s).Complete?
    ensures Decode(Encode(s).bytes) == Some(CodePoints(s))
    decreases |s|
  {
    if s != [] {
      if IsHigh(s[0]) {
        CombinePair(s[0], s[1]);
        EncodePair(s);
        EncodeWellFormed(s[2..]);
        DecodePair(Combine(s[0], s[1]));
        DecodeAhead(PairBytes(Combine(s[0], s[1])), Encode(s[2..]).bytes);
      } else {
        EncodeUnit(s);
        EncodeWellFormed(s[1..]);
        DecodeUnit(s[0]);
        DecodeAhead(UnitBytes(s[0]), Encode(s[1..]).bytes);
      }
    }
  }

  /** The conversion throws only where a high surrogate is followed by a unit
      above the low surrogates. */
  lemma {:induction false} ThrowNeedsBadPair(s: seq<CodeUnit>)
    requires Encode(s).Thrown?
    ensures exists i :: 0 <= i < |s| - 1 && IsHigh(s[i]) && s[i + 1] > 0xDFFF
    decreases |s|
  {
    if !IsHigh(s[0]) {
      EncodeUnit(s);
      ThrowNeedsBadPair(s[1..]);
      var i :| 0 <= i < |s[1..]| - 1 && IsHigh(s[1..][i]) && s[1..][i + 1] > 0xDFFF;
      assert IsHigh(s[i + 1]) && s[i + 2] > 0xDFFF;
    } else if |s| == 1 {
      EncodeLast(s);
    } else if Combine(s[0], s[1]) > 0x10FFFF {
      assert IsHigh(s[0]) && s[1] > 0xDFFF;
    } else {
      EncodePair(s);
      ThrowNeedsBadPair(s[2..]);
      var i :| 0 <= i < |s[2..]| - 1 && IsHigh(s[2..][i]) && s[2..][i + 1] > 0xDFFF;
      assert IsHigh(s[i + 2]) && s[i + 3] > 0xDFFF;
    }
  }

  /** A code unit stored into a byte: its low eight bits. */
  function LowByte(u: CodeUnit): bv8
  {
    (u & 0xFF) as bv8
  }

  /** The bytes `MD5.appendAsciiStr` writes: each code unit stored into a byte. */
  function AsciiBytes(s: seq<CodeUnit>): (r: seq<bv8>)
    ensures |r| == |s|
  {
    if s == [] then [] else [LowByte(s[0])] + AsciiBytes(s[1..])
  }

  /** Byte `i` is unit `i` stored into a byte. */
  lemma {:induction false} AsciiBytesAt(s: seq<CodeUnit>, i: nat)
    requires i < |s|
    ensures AsciiBytes(s)[i] == LowByte(s[i])
  {
    if i > 0 {
      AsciiBytesAt(s[1..], i - 1);
    }
  }

  /** A unit is its high byte times 256 plus its low byte. */
  lemma UnitSplit(u: CodeUnit)
    ensures u as int == (u >> 8) as int * 256 + (u & 0xFF) as int
  {
  }

  /** Narrowing a unit below 256 to a byte keeps its value. */
  lemma NarrowSmall(x: CodeUnit)
    requires x < 256
    ensures (x as bv8) as int == x as int
  {
  }

  lemma RemainderOf(n: int, q: int, r: int)
    requires n == q * 256 + r && 0 <= r < 256
    ensures n % 256 == r
  {
  }

  /** Storing a unit into a byte keeps its value modulo 256, as a store into
      a Uint8Array does. */
  lemma LowByteModulo(u: CodeUnit)
    ensures LowByte(u) as int == u as int % 256
  {
    UnitSplit(u);
    NarrowSmall(u & 0xFF);
    RemainderOf(u as int, (u >> 8) as int, (u & 0xFF) as int);
  }

  /** Each byte `MD5.appendAsciiStr` writes is its unit modulo 256. */
  lemma AsciiBytesModulo(s: seq<CodeUnit>, i: nat)
    requires i < |s|
    ensures AsciiBytes(s)[i] as int == s[i] as int % 256
  {
    AsciiBytesAt(s, i);
    LowByteModulo(s[i]);
  }

  /** On a string of units below 0x80 both conversions write the same bytes. */
  lemma {:induction false} AsciiAgrees(s: seq<CodeUnit>)
    requires forall i :: 0 <= i < |s| ==> s[i] < 0x80
    ensures Encode(s) == Complete(AsciiBytes(s))
    decreases |s|
  {
    if s != [] {
      EncodeUnit(s);
      AsciiAgrees(s[1..]);
    }
  }
}
