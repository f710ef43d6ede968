/** The MD5 block compression function of RFC 1321 section 3.4, stated the
    way the RFC states it: 64 steps over a rotating register tuple, then the
    feed-forward addition of the entry state. */
module Md5Compress {

  /** The four 32-bit state words A, B, C, D. */
  datatype Regs = Regs(a: bv32, b: bv32, c: bv32, d: bv32)

  /** Initial state of RFC 1321 section 3.3 (src/yamd5.ts:83 writes it as signed decimals). */
  const IV := Regs(0x67452301, 0xEFCDAB89, 0x98BADCFE, 0x10325476)

  /** Each initial word is the bit pattern of the signed 32-bit literal the
      source stores, that is the literal modulo 2^32. */
  lemma InitialWords()
    ensures IV.a as int == 1732584193 % 0x1_0000_0000
    ensures IV.b as int == -271733879 % 0x1_0000_0000
    ensures IV.c as int == -1732584194 % 0x1_0000_0000
    ensures IV.d as int == 271733878 % 0x1_0000_0000
  {
  }

  function ToSeq(r: Regs): (s: seq<bv32>)
    ensures |s| == 4
  {
    [r.a, r.b, r.c, r.d]
  }

  /** The four auxiliary functions of the four rounds. */
  function F(x: bv32, y: bv32, z: bv32): bv32 { (x & y) | (!x & z) }
  function G(x: bv32, y: bv32, z: bv32): bv32 { (x & z) | (y & !z) }
  function H(x: bv32, y: bv32, z: bv32): bv32 { x ^ y ^ z }
  function I(x: bv32, y: bv32, z: bv32): bv32 { y ^ (x | !z) }

  /** F chooses, bit by bit, `y` where `x` is set and `z` where it is clear
      (RFC 1321 section 3.4). */
  lemma FSelects(x: bv32, y: bv32, z: bv32)
    ensures F(x, y, z) & x == y & x
    ensures F(x, y, z) & !x == z & !x
  {
  }

  /** G chooses, bit by bit, `x` where `z` is set and `y` where it is clear. */
  lemma GSelects(x: bv32, y: bv32, z: bv32)
    ensures G(x, y, z) & z == x & z
    ensures G(x, y, z) & !z == y & !z
  {
  }

  /** Addition modulo 2^32, which the source writes `(x + y) | 0`. */
  function Add(x: bv32, y: bv32): bv32
  {
    x + y
  }

  /** Circular left rotation of a 32-bit word by `s` bits. */
  function RotL(x: bv32, s: bv32): bv32
    requires 0 < s < 32
  {
    (x << s) | (x >> (32 - s))
  }

  /** The auxiliary function of step `i`: F in round 1, G in round 2, H in round 3, I in round 4. */
  function Mix(i: nat, x: bv32, y: bv32, z: bv32): bv32
    requires i < 64
  {
    if i < 16 then F(x, y, z)
    else if i < 32 then G(x, y, z)
    else if i < 48 then H(x, y, z)
    else I(x, y, z)
  }

  /** The message word that step `i` adds: sequential in round 1, stride 5
      from 1 in round 2, stride 3 from 5 in round 3, stride 7 in round 4. */
  function MsgIndex(i: nat): (g: nat)
    requires i < 64
    ensures g < 16
  {
    if i < 16 then i
    else if i < 32 then (5 * i + 1) % 16
    else if i < 48 then (3 * i + 5) % 16
    else (7 * i) % 16
  }

  /** The rotation amount of step `i`: four amounts per round, used in turn. */
  function Shift(i: nat): (s: bv32)
    requires i < 64
    ensures 0 < s < 32
  {
    var j := i % 4;
    if i < 16 then (if j == 0 then 7 else if j == 1 then 12 else if j == 2 then 17 else 22)
    else if i < 32 then (if j == 0 then 5 else if j == 1 then 9 else if j == 2 then 14 else 20)
    else if i < 48 then (if j == 0 then 4 else if j == 1 then 11 else if j == 2 then 16 else 23)
    else (if j == 0 then 6 else if j == 1 then 10 else if j == 2 then 15 else 21)
  }

  /** The additive constant T[i + 1] of RFC 1321 section 3.4, the integer part
      of 2^32 * |sin(i + 1)|; the source writes each as a signed decimal literal. */
  function T(i: nat): bv32
    requires i < 64
  {
    match i
    case 0 => 0xd76aa478
    case 1 => 0xe8c7b756
    case 2 => 0x242070db
    case 3 => 0xc1bdceee
    case 4 => 0xf57c0faf
    case 5 => 0x4787c62a
    case 6 => 0xa8304613
    case 7 => 0xfd469501
    case 8 => 0x698098d8
    case 9 => 0x8b44f7af
    case 10 => 0xffff5bb1
    case 11 => 0x895cd7be
    case 12 => 0x6b901122
    case 13 => 0xfd987193
    case 14 => 0xa679438e
    case 15 => 0x49b40821
    case 16 => 0xf61e2562
    case 17 => 0xc040b340
    case 18 => 0x265e5a51
    case 19 => 0xe9b6c7aa
    case 20 => 0xd62f105d
    case 21 => 0x02441453
    case 22 => 0xd8a1e681
    case 23 => 0xe7d3fbc8
    case 24 => 0x21e1cde6
    case 25 => 0xc33707d6
    case 26 => 0xf4d50d87
    case 27 => 0x455a14ed
    case 28 => 0xa9e3e905
    case 29 => 0xfcefa3f8
    case 30 => 0x676f02d9
    case 31 => 0x8d2a4c8a
    case 32 => 0xfffa3942
    case 33 => 0x8771f681
    case 34 => 0x6d9d6122
    case 35 => 0xfde5380c
    case 36 => 0xa4beea44
    case 37 => 0x4bdecfa9
    case 38 => 0xf6bb4b60
    case 39 => 0xbebfbc70
    case 40 => 0x289b7ec6
    case 41 => 0xeaa127fa
    case 42 => 0xd4ef3085
    case 43 => 0x04881d05
    case 44 => 0xd9d4d039
    case 45 => 0xe6db99e5
    case 46 => 0x1fa27cf8
    case 47 => 0xc4ac5665
    case 48 => 0xf4292244
    case 49 => 0x432aff97
    case 50 => 0xab9423a7
    case 51 => 0xfc93a039
    case 52 => 0x655b59c3
    case 53 => 0x8f0ccc92
    case 54 => 0xffeff47d
    case 55 => 0x85845dd1
    case 56 => 0x6fa87e4f
    case 57 => 0xfe2ce6e0
    case 58 => 0xa3014314
    case 59 => 0x4e0811a1
    case 60 => 0xf7537e82
    case 61 => 0xbd3af235
    case 62 => 0x2ad7d2bb
    case _ => 0xeb86d391
  }

  /** The additive constant of step `i` as the source writes it, a signed
      decimal literal (src/yamd5.ts:97-227). */
  function SourceConstant(i: nat): int
    requires i < 64
  {
    match i
    case 0 => -680876936
    case 1 => -389564586
    case 2 => 606105819
    case 3 => -1044525330
    case 4 => -176418897
    case 5 => 1200080426
    case 6 => -1473231341
    case 7 => -45705983
    case 8 => 1770035416
    case 9 => -1958414417
    case 10 => -42063
    case 11 => -1990404162
    case 12 => 1804603682
    case 13 => -40341101
    case 14 => -1502002290
    case 15 => 1236535329
    case 16 => -165796510
    case 17 => -1069501632
    case 18 => 643717713
    case 19 => -373897302
    case 20 => -701558691
    case 21 => 38016083
    case 22 => -660478335
    case 23 => -405537848
    case 24 => 568446438
    case 25 => -1019803690
    case 26 => -187363961
    case 27 => 1163531501
    case 28 => -1444681467
    case 29 => -51403784
    case 30 => 1735328473
    case 31 => -1926607734
    case 32 => -378558
    case 33 => -2022574463
    case 34 => 1839030562
    case 35 => -35309556
    case 36 => -1530992060
    case 37 => 1272893353
    case 38 => -155497632
    case 39 => -1094730640
    case 40 => 681279174
    case 41 => -358537222
    case 42 => -722521979
    case 43 => 76029189
    case 44 => -640364487
    case 45 => -421815835
    case 46 => 530742520
    case 47 => -995338651
    case 48 => -198630844
    case 49 => 1126891415
    case 50 => -1416354905
    case 51 => -57434055
    case 52 => 1700485571
    case 53 => -1894986606
    case 54 => -1051523
    case 55 => -2054922799
    case 56 => 1873313359
    case 57 => -30611744
    case 58 => -1560198380
    case 59 => 1309151649
    case 60 => -145523070
    case 61 => -1120210379
    case 62 => 718787259
    case _ => -343485551
  }

  /** Each source literal, reduced modulo 2^32 as the 32-bit arithmetic of
      the steps reduces it, is the RFC constant of that step. */
  lemma SineTable(i: nat)
    requires i < 64
    ensures T(i) as int == SourceConstant(i) % 0x1_0000_0000
  {
    if i < 16 {
      SineRound1(i);
    } else if i < 32 {
      SineRound2(i);
    } else if i < 48 {
      SineRound3(i);
    } else {
      SineRound4(i);
    }
  }

  /** The constants of each round, checked one round at a time. */
  lemma SineRound1(i: nat)
    requires 0 <= i < 16
    ensures T(i) as int == SourceConstant(i) % 0x1_0000_0000
  {
  }

  lemma SineRound2(i: nat)
    requires 16 <= i < 32
    ensures T(i) as int == SourceConstant(i) % 0x1_0000_0000
  {
  }

  lemma SineRound3(i: nat)
    requires 32 <= i < 48
    ensures T(i) as int == SourceConstant(i) % 0x1_0000_0000
  {
  }

  lemma SineRound4(i: nat)
    requires 48 <= i < 64
    ensures T(i) as int == SourceConstant(i) % 0x1_0000_0000
  {
  }

  /** The operation [abcd k s i] of step `i`: b + ((a + Mix(b, c, d) + x + T[i]) <<< s),
      where x is the message word the step reads. */
  function Op(i: nat, a: bv32, b: bv32, c: bv32, d: bv32, x: bv32): bv32
    requires i < 64
  {
    b + RotL(a + Mix(i, b, c, d) + x + T(i), Shift(i))
  }

  /** One step: the tuple (A, B, C, D) becomes (D, [ABCD k s i], B, C). */
  function Step(r: Regs, k: seq<bv32>, i: nat): Regs
    requires |k| == 16 && i < 64
  {
    Regs(r.d, Op(i, r.a, r.b, r.c, r.d, k[MsgIndex(i)]), r.b, r.c)
  }

  /** The tuple after steps `i` to 63, starting from tuple `r`; the four
      rounds make one step per message word each. The split into
      `RoundsAfter` only keeps the 64 steps from unfolding by default;
      `RoundsFromStep` is the unfolding equation. */
  function RoundsFrom(r: Regs, k: seq<bv32>, i: nat): Regs
    requires |k| == 16 && i <= 4 * |k|
    decreases 4 * |k| - i, 1
  {
    if i == 4 * |k| then r else RoundsAfter(r, k, i)
  }

  /** Step `i`, then the steps after it. */
  function RoundsAfter(r: Regs, k: seq<bv32>, i: nat): Regs
    requires |k| == 16 && i < 4 * |k|
    decreases 4 * |k| - i, 0
  {
    RoundsFrom(Step(r, k, i), k, i + 1)
  }

  /** Running the steps from `i` is taking step `i`, then running from `i + 1`. */
  lemma RoundsFromStep(r: Regs, k: seq<bv32>, i: nat)
    requires |k| == 16 && i < 64
    ensures RoundsFrom(r, k, i) == RoundsFrom(Step(r, k, i), k, i + 1)
  {
  }

  /** Compression of one block `k` (sixteen words) into state `s`: the 64 steps
      followed by adding each result word to the entry value, modulo 2^32. */
  function Compress(s: Regs, k: seq<bv32>): Regs
    requires |k| == 16
  {
    var r := RoundsFrom(s, k, 0);
    Regs(Add(r.a, s.a), Add(r.b, s.b), Add(r.c, s.c), Add(r.d, s.d))
  }

  /** Compression is the feed-forward of the tuple that the 64 steps reach. */
  lemma CompressOf(s: Regs, k: seq<bv32>, r: Regs)
    requires |k| == 16 && RoundsFrom(s, k, 0) == r
    ensures Compress(s, k) == Regs(Add(r.a, s.a), Add(r.b, s.b), Add(r.c, s.c), Add(r.d, s.d))
  {
  }
}
