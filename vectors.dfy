/** The test vector the source checks itself against at load time: the MD5
    of "hello" is 5d41402abc4b2a76b9719d911017c592. The 64 steps of its single
    block are checked one at a time against the intermediate register tuples. */
module Md5Vectors {
  import opened Words
  import opened Md5Compress
  import opened Md5Reference
  import opened Utf8Encoding

  /** The bytes of "hello". */
  const Hello: seq<bv8> := [0x68, 0x65, 0x6c, 0x6c, 0x6f]

  /** The message words of the padded block: "hell", then "o" and 0x80, zeros, and the bit length 40. */
  const HelloBlock: seq<bv32> := [0x6c6c6568, 0x806f, 0x0, 0x0, 0x0, 0x0, 0x0, 0x0, 0x0, 0x0, 0x0, 0x0, 0x0, 0x0, 0x28, 0x0]

  lemma Step0(k: seq<bv32>)
    requires k == HelloBlock
    ensures RoundsFrom(Regs(0x67452301, 0xefcdab89, 0x98badcfe, 0x10325476), k, 0) == RoundsFrom(Regs(0x10325476, 0xdb529b2a, 0xefcdab89, 0x98badcfe), k, 1)
  {
    assert MsgIndex(0) == 0 && k[0] == 0x6c6c6568;
    assert Shift(0) == 7 && T(0) == 0xd76aa478;
    assert Mix(0, 0xefcdab89, 0x98badcfe, 0x10325476) == 0x98badcfe;
    assert Op(0, 0x67452301, 0xefcdab89, 0x98badcfe, 0x10325476, 0x6c6c6568) == 0xdb529b2a;
    assert Step(Regs(0x67452301, 0xefcdab89, 0x98badcfe, 0x10325476), k, 0) == Regs(0x10325476, 0xdb529b2a, 0xefcdab89, 0x98badcfe);
    RoundsFromStep(Regs(0x67452301, 0xefcdab89, 0x98badcfe, 0x10325476), k, 0);
  }

  lemma Step1(k: seq<bv32>)
    requires k == HelloBlock
    ensures RoundsFrom(Regs(0x10325476, 0xdb529b2a, 0xefcdab89, 0x98badcfe), k, 1) == RoundsFrom(Regs(0x98badcfe, 0x11141778, 0xdb529b2a, 0xefcdab89), k, 2)
  {
    assert MsgIndex(1) == 1 && k[1] == 0x806f;
    assert Shift(1) == 12 && T(1) == 0xe8c7b756;
    assert Mix(1, 0xdb529b2a, 0xefcdab89, 0x98badcfe) == 0xcbe8cfdc;
    assert Op(1, 0x10325476, 0xdb529b2a, 0xefcdab89, 0x98badcfe, 0x806f) == 0x11141778;
    assert Step(Regs(0x10325476, 0xdb529b2a, 0xefcdab89, 0x98badcfe), k, 1) == Regs(0x98badcfe, 0x11141778, 0xdb529b2a, 0xefcdab89);
    RoundsFromStep(Regs(0x10325476, 0xdb529b2a, 0xefcdab89, 0x98badcfe), k, 1);
  }

  lemma Step2(k: seq<bv32>)
    requires k == HelloBlock
    ensures RoundsFrom(Regs(0x98badcfe, 0x11141778, 0xdb529b2a, 0xefcdab89), k, 2) == RoundsFrom(Regs(0xefcdab89, 0x241990e2, 0x11141778, 0xdb529b2a), k, 3)
  {
    assert MsgIndex(2) == 2 && k[2] == 0x0;
    assert Shift(2) == 17 && T(2) == 0x242070db;
    assert Mix(2, 0x11141778, 0xdb529b2a, 0xefcdab89) == 0xffd9bba9;
    assert Op(2, 0x98badcfe, 0x11141778, 0xdb529b2a, 0xefcdab89, 0x0) == 0x241990e2;
    assert Step(Regs(0x98badcfe, 0x11141778, 0xdb529b2a, 0xefcdab89), k, 2) == Regs(0xefcdab89, 0x241990e2, 0x11141778, 0xdb529b2a);
    RoundsFromStep(Regs(0x98badcfe, 0x11141778, 0xdb529b2a, 0xefcdab89), k, 2);
  }

  lemma Step3(k: seq<bv32>)
    requires k == HelloBlock
    ensures RoundsFrom(Regs(0xefcdab89, 0x241990e2, 0x11141778, 0xdb529b2a), k, 3) == RoundsFrom(Regs(0xdb529b2a, 0x9bfcc847, 0x241990e2, 0x11141778), k, 4)
  {
    assert MsgIndex(3) == 3 && k[3] == 0x0;
    assert Shift(3) == 22 && T(3) == 0xc1bdceee;
    assert Mix(3, 0x241990e2, 0x11141778, 0xdb529b2a) == 0xdb521b68;
    assert Op(3, 0xefcdab89, 0x241990e2, 0x11141778, 0xdb529b2a, 0x0) == 0x9bfcc847;
    assert Step(Regs(0xefcdab89, 0x241990e2, 0x11141778, 0xdb529b2a), k, 3) == Regs(0xdb529b2a, 0x9bfcc847, 0x241990e2, 0x11141778);
    RoundsFromStep(Regs(0xefcdab89, 0x241990e2, 0x11141778, 0xdb529b2a), k, 3);
  }

  lemma Step4(k: seq<bv32>)
    requires k == HelloBlock
    ensures RoundsFrom(Regs(0xdb529b2a, 0x9bfcc847, 0x241990e2, 0x11141778), k, 4) == RoundsFrom(Regs(0x11141778, 0x0f9df22f, 0x9bfcc847, 0x241990e2), k, 5)
  {
    assert MsgIndex(4) == 4 && k[4] == 0x0;
    assert Shift(4) == 7 && T(4) == 0xf57c0faf;
    assert Mix(4, 0x9bfcc847, 0x241990e2, 0x11141778) == 0x0018977a;
    assert Op(4, 0xdb529b2a, 0x9bfcc847, 0x241990e2, 0x11141778, 0x0) == 0x0f9df22f;
    assert Step(Regs(0xdb529b2a, 0x9bfcc847, 0x241990e2, 0x11141778), k, 4) == Regs(0x11141778, 0x0f9df22f, 0x9bfcc847, 0x241990e2);
    RoundsFromStep(Regs(0xdb529b2a, 0x9bfcc847, 0x241990e2, 0x11141778), k, 4);
  }

  lemma Step5(k: seq<bv32>)
    requires k == HelloBlock
    ensures RoundsFrom(Regs(0x11141778, 0x0f9df22f, 0x9bfcc847, 0x241990e2), k, 5) == RoundsFrom(Regs(0x241990e2, 0x99848a72, 0x0f9df22f, 0x9bfcc847), k, 6)
  {
    assert MsgIndex(5) == 5 && k[5] == 0x0;
    assert Shift(5) == 12 && T(5) == 0x4787c62a;
    assert Mix(5, 0x0f9df22f, 0x9bfcc847, 0x241990e2) == 0x2b9cc0c7;
    assert Op(5, 0x11141778, 0x0f9df22f, 0x9bfcc847, 0x241990e2, 0x0) == 0x99848a72;
    assert Step(Regs(0x11141778, 0x0f9df22f, 0x9bfcc847, 0x241990e2), k, 5) == Regs(0x241990e2, 0x99848a72, 0x0f9df22f, 0x9bfcc847);
    RoundsFromStep(Regs(0x11141778, 0x0f9df22f, 0x9bfcc847, 0x241990e2), k, 5);
  }

  lemma Step6(k: seq<bv32>)
    requires k == HelloBlock
    ensures RoundsFrom(Regs(0x241990e2, 0x99848a72, 0x0f9df22f, 0x9bfcc847), k, 6) == RoundsFrom(Regs(0x9bfcc847, 0xcbbe3aff, 0x99848a72, 0x0f9df22f), k, 7)
  {
    assert MsgIndex(6) == 6 && k[6] == 0x0;
    assert Shift(6) == 17 && T(6) == 0xa8304613;
    assert Mix(6, 0x99848a72, 0x0f9df22f, 0x9bfcc847) == 0x0bfcc227;
    assert Op(6, 0x241990e2, 0x99848a72, 0x0f9df22f, 0x9bfcc847, 0x0) == 0xcbbe3aff;
    assert Step(Regs(0x241990e2, 0x99848a72, 0x0f9df22f, 0x9bfcc847), k, 6) == Regs(0x9bfcc847, 0xcbbe3aff, 0x99848a72, 0x0f9df22f);
    RoundsFromStep(Regs(0x241990e2, 0x99848a72, 0x0f9df22f, 0x9bfcc847), k, 6);
  }

  lemma Step7(k: seq<bv32>)
    requires k == HelloBlock
    ensures RoundsFrom(Regs(0x9bfcc847, 0xcbbe3aff, 0x99848a72, 0x0f9df22f), k, 7) == RoundsFrom(Regs(0x0f9df22f, 0xba47ed48, 0xcbbe3aff, 0x99848a72), k, 8)
  {
    assert MsgIndex(7) == 7 && k[7] == 0x0;
    assert Shift(7) == 22 && T(7) == 0xfd469501;
    assert Mix(7, 0xcbbe3aff, 0x99848a72, 0x0f9df22f) == 0x8d85ca72;
    assert Op(7, 0x9bfcc847, 0xcbbe3aff, 0x99848a72, 0x0f9df22f, 0x0) == 0xba47ed48;
    assert Step(Regs(0x9bfcc847, 0xcbbe3aff, 0x99848a72, 0x0f9df22f), k, 7) == Regs(0x0f9df22f, 0xba47ed48, 0xcbbe3aff, 0x99848a72);
    RoundsFromStep(Regs(0x9bfcc847, 0xcbbe3aff, 0x99848a72, 0x0f9df22f), k, 7);
  }

  lemma Step8(k: seq<bv32>)
    requires k == HelloBlock
    ensures RoundsFrom(Regs(0x0f9df22f, 0xba47ed48, 0xcbbe3aff, 0x99848a72), k, 8) == RoundsFrom(Regs(0x99848a72, 0x0ca2adca, 0xba47ed48, 0xcbbe3aff), k, 9)
  {
    assert MsgIndex(8) == 8 && k[8] == 0x0;
    assert Shift(8) == 7 && T(8) == 0x698098d8;
    assert Mix(8, 0xba47ed48, 0xcbbe3aff, 0x99848a72) == 0x8b862a7a;
    assert Op(8, 0x0f9df22f, 0xba47ed48, 0xcbbe3aff, 0x99848a72, 0x0) == 0x0ca2adca;
    assert Step(Regs(0x0f9df22f, 0xba47ed48, 0xcbbe3aff, 0x99848a72), k, 8) == Regs(0x99848a72, 0x0ca2adca, 0xba47ed48, 0xcbbe3aff);
    RoundsFromStep(Regs(0x0f9df22f, 0xba47ed48, 0xcbbe3aff, 0x99848a72), k, 8);
  }

  lemma Step9(k: seq<bv32>)
    requires k == HelloBlock
    ensures RoundsFrom(Regs(0x99848a72, 0x0ca2adca, 0xba47ed48, 0xcbbe3aff), k, 9) == RoundsFrom(Regs(0xcbbe3aff, 0x90bc9cc8, 0x0ca2adca, 0xba47ed48), k, 10)
  {
    assert MsgIndex(9) == 9 && k[9] == 0x0;
    assert Shift(9) == 12 && T(9) == 0x8b44f7af;
    assert Mix(9, 0x0ca2adca, 0xba47ed48, 0xcbbe3aff) == 0xcb1ebf7d;
    assert Op(9, 0x99848a72, 0x0ca2adca, 0xba47ed48, 0xcbbe3aff, 0x0) == 0x90bc9cc8;
    assert Step(Regs(0x99848a72, 0x0ca2adca, 0xba47ed48, 0xcbbe3aff), k, 9) == Regs(0xcbbe3aff, 0x90bc9cc8, 0x0ca2adca, 0xba47ed48);
    RoundsFromStep(Regs(0x99848a72, 0x0ca2adca, 0xba47ed48, 0xcbbe3aff), k, 9);
  }

  lemma Step10(k: seq<bv32>)
    requires k == HelloBlock
    ensures RoundsFrom(Regs(0xcbbe3aff, 0x90bc9cc8, 0x0ca2adca, 0xba47ed48), k, 10) == RoundsFrom(Regs(0xba47ed48, 0x99ae8a0b, 0x90bc9cc8, 0x0ca2adca), k, 11)
  {
    assert MsgIndex(10) == 10 && k[10] == 0x0;
    assert Shift(10) == 17 && T(10) == 0xffff5bb1;
    assert Mix(10, 0x90bc9cc8, 0x0ca2adca, 0xba47ed48) == 0x2ae3edc8;
    assert Op(10, 0xcbbe3aff, 0x90bc9cc8, 0x0ca2adca, 0xba47ed48, 0x0) == 0x99ae8a0b;
    assert Step(Regs(0xcbbe3aff, 0x90bc9cc8, 0x0ca2adca, 0xba47ed48), k, 10) == Regs(0xba47ed48, 0x99ae8a0b, 0x90bc9cc8, 0x0ca2adca);
    RoundsFromStep(Regs(0xcbbe3aff, 0x90bc9cc8, 0x0ca2adca, 0xba47ed48), k, 10);
  }

  lemma Step11(k: seq<bv32>)
    requires k == HelloBlock
    ensures RoundsFrom(Regs(0xba47ed48, 0x99ae8a0b, 0x90bc9cc8, 0x0ca2adca), k, 11) == RoundsFrom(Regs(0x0ca2adca, 0x4d649e67, 0x99ae8a0b, 0x90bc9cc8), k, 12)
  {
    assert MsgIndex(11) == 11 && k[11] == 0x0;
    assert Shift(11) == 22 && T(11) == 0x895cd7be;
    assert Mix(11, 0x99ae8a0b, 0x90bc9cc8, 0x0ca2adca) == 0x94acadc8;
    assert Op(11, 0xba47ed48, 0x99ae8a0b, 0x90bc9cc8, 0x0ca2adca, 0x0) == 0x4d649e67;
    assert Step(Regs(0xba47ed48, 0x99ae8a0b, 0x90bc9cc8, 0x0ca2adca), k, 11) == Regs(0x0ca2adca, 0x4d649e67, 0x99ae8a0b, 0x90bc9cc8);
    RoundsFromStep(Regs(0xba47ed48, 0x99ae8a0b, 0x90bc9cc8, 0x0ca2adca), k, 11);
  }

  lemma Step12(k: seq<bv32>)
    requires k == HelloBlock
    ensures RoundsFrom(Regs(0x0ca2adca, 0x4d649e67, 0x99ae8a0b, 0x90bc9cc8), k, 12) == RoundsFrom(Regs(0x90bc9cc8, 0x450959ef, 0x4d649e67, 0x99ae8a0b), k, 13)
  {
    assert MsgIndex(12) == 12 && k[12] == 0x0;
    assert Shift(12) == 7 && T(12) == 0x6b901122;
    assert Mix(12, 0x4d649e67, 0x99ae8a0b, 0x90bc9cc8) == 0x99bc8a8b;
    assert Op(12, 0x0ca2adca, 0x4d649e67, 0x99ae8a0b, 0x90bc9cc8, 0x0) == 0x450959ef;
    assert Step(Regs(0x0ca2adca, 0x4d649e67, 0x99ae8a0b, 0x90bc9cc8), k, 12) == Regs(0x90bc9cc8, 0x450959ef, 0x4d649e67, 0x99ae8a0b);
    RoundsFromStep(Regs(0x0ca2adca, 0x4d649e67, 0x99ae8a0b, 0x90bc9cc8), k, 12);
  }

  lemma Step13(k: seq<bv32>)
    requires k == HelloBlock
    ensures RoundsFrom(Regs(0x90bc9cc8, 0x450959ef, 0x4d649e67, 0x99ae8a0b), k, 13) == RoundsFrom(Regs(0x99ae8a0b, 0xff9580ae, 0x450959ef, 0x4d649e67), k, 14)
  {
    assert MsgIndex(13) == 13 && k[13] == 0x0;
    assert Shift(13) == 12 && T(13) == 0xfd987193;
    assert Mix(13, 0x450959ef, 0x4d649e67, 0x99ae8a0b) == 0xdda69a67;
    assert Op(13, 0x90bc9cc8, 0x450959ef, 0x4d649e67, 0x99ae8a0b, 0x0) == 0xff9580ae;
    assert Step(Regs(0x90bc9cc8, 0x450959ef, 0x4d649e67, 0x99ae8a0b), k, 13) == Regs(0x99ae8a0b, 0xff9580ae, 0x450959ef, 0x4d649e67);
    RoundsFromStep(Regs(0x90bc9cc8, 0x450959ef, 0x4d649e67, 0x99ae8a0b), k, 13);
  }

  lemma Step14(k: seq<bv32>)
    requires k == HelloBlock
    ensures RoundsFrom(Regs(0x99ae8a0b, 0xff9580ae, 0x450959ef, 0x4d649e67), k, 14) == RoundsFrom(Regs(0x4d649e67, 0xd8f68bbf, 0xff9580ae, 0x450959ef), k, 15)
  {
    assert MsgIndex(14) == 14 && k[14] == 0x28;
    assert Shift(14) == 17 && T(14) == 0xa679438e;
    assert Mix(14, 0xff9580ae, 0x450959ef, 0x4d649e67) == 0x45611eef;
    assert Op(14, 0x99ae8a0b, 0xff9580ae, 0x450959ef, 0x4d649e67, 0x28) == 0xd8f68bbf;
    assert Step(Regs(0x99ae8a0b, 0xff9580ae, 0x450959ef, 0x4d649e67), k, 14) == Regs(0x4d649e67, 0xd8f68bbf, 0xff9580ae, 0x450959ef);
    RoundsFromStep(Regs(0x99ae8a0b, 0xff9580ae, 0x450959ef, 0x4d649e67), k, 14);
  }

  lemma Step15(k: seq<bv32>)
    requires k == HelloBlock
    ensures RoundsFrom(Regs(0x4d649e67, 0xd8f68bbf, 0xff9580ae, 0x450959ef), k, 15) == RoundsFrom(Regs(0x450959ef, 0xb693b95c, 0xd8f68bbf, 0xff9580ae), k, 16)
  {
    assert MsgIndex(15) == 15 && k[15] == 0x0;
    assert Shift(15) == 22 && T(15) == 0x49b40821;
    assert Mix(15, 0xd8f68bbf, 0xff9580ae, 0x450959ef) == 0xdd9dd0ee;
    assert Op(15, 0x4d649e67, 0xd8f68bbf, 0xff9580ae, 0x450959ef, 0x0) == 0xb693b95c;
    assert Step(Regs(0x4d649e67, 0xd8f68bbf, 0xff9580ae, 0x450959ef), k, 15) == Regs(0x450959ef, 0xb693b95c, 0xd8f68bbf, 0xff9580ae);
    RoundsFromStep(Regs(0x4d649e67, 0xd8f68bbf, 0xff9580ae, 0x450959ef), k, 15);
  }

  lemma Step16(k: seq<bv32>)
    requires k == HelloBlock
    ensures RoundsFrom(Regs(0x450959ef, 0xb693b95c, 0xd8f68bbf, 0xff9580ae), k, 16) == RoundsFrom(Regs(0xff9580ae, 0xfa05151a, 0xb693b95c, 0xd8f68bbf), k, 17)
  {
    assert MsgIndex(16) == 1 && k[1] == 0x806f;
    assert Shift(16) == 5 && T(16) == 0xf61e2562;
    assert Mix(16, 0xb693b95c, 0xd8f68bbf, 0xff9580ae) == 0xb6f38b1d;
    assert Op(16, 0x450959ef, 0xb693b95c, 0xd8f68bbf, 0xff9580ae, 0x806f) == 0xfa05151a;
    assert Step(Regs(0x450959ef, 0xb693b95c, 0xd8f68bbf, 0xff9580ae), k, 16) == Regs(0xff9580ae, 0xfa05151a, 0xb693b95c, 0xd8f68bbf);
    RoundsFromStep(Regs(0x450959ef, 0xb693b95c, 0xd8f68bbf, 0xff9580ae), k, 16);
  }

  lemma Step17(k: seq<bv32>)
    requires k == HelloBlock
    ensures RoundsFrom(Regs(0xff9580ae, 0xfa05151a, 0xb693b95c, 0xd8f68bbf), k, 17) == RoundsFrom(Regs(0xd8f68bbf, 0xb0cfa695, 0xfa05151a, 0xb693b95c), k, 18)
  {
    assert MsgIndex(17) == 6 && k[6] == 0x0;
    assert Shift(17) == 9 && T(17) == 0xc040b340;
    assert Mix(17, 0xfa05151a, 0xb693b95c, 0xd8f68bbf) == 0xfe05315a;
    assert Op(17, 0xff9580ae, 0xfa05151a, 0xb693b95c, 0xd8f68bbf, 0x0) == 0xb0cfa695;
    assert Step(Regs(0xff9580ae, 0xfa05151a, 0xb693b95c, 0xd8f68bbf), k, 17) == Regs(0xd8f68bbf, 0xb0cfa695, 0xfa05151a, 0xb693b95c);
    RoundsFromStep(Regs(0xff9580ae, 0xfa05151a, 0xb693b95c, 0xd8f68bbf), k, 17);
  }

  lemma Step18(k: seq<bv32>)
    requires k == HelloBlock
    ensures RoundsFrom(Regs(0xd8f68bbf, 0xb0cfa695, 0xfa05151a, 0xb693b95c), k, 18) == RoundsFrom(Regs(0xb693b95c, 0xd359648c, 0xb0cfa695, 0xfa05151a), k, 19)
  {
    assert MsgIndex(18) == 11 && k[11] == 0x0;
    assert Shift(18) == 14 && T(18) == 0x265e5a51;
    assert Mix(18, 0xb0cfa695, 0xfa05151a, 0xb693b95c) == 0xf887a416;
    assert Op(18, 0xd8f68bbf, 0xb0cfa695, 0xfa05151a, 0xb693b95c, 0x0) == 0xd359648c;
    assert Step(Regs(0xd8f68bbf, 0xb0cfa695, 0xfa05151a, 0xb693b95c), k, 18) == Regs(0xb693b95c, 0xd359648c, 0xb0cfa695, 0xfa05151a);
    RoundsFromStep(Regs(0xd8f68bbf, 0xb0cfa695, 0xfa05151a, 0xb693b95c), k, 18);
  }

  lemma Step19(k: seq<bv32>)
    requires k == HelloBlock
    ensures RoundsFrom(Regs(0xb693b95c, 0xd359648c, 0xb0cfa695, 0xfa05151a), k, 19) == RoundsFrom(Regs(0xfa05151a, 0xa3175cb4, 0xd359648c, 0xb0cfa695), k, 20)
  {
    assert MsgIndex(19) == 0 && k[0] == 0x6c6c6568;
    assert Shift(19) == 20 && T(19) == 0xe9b6c7aa;
    assert Mix(19, 0xd359648c, 0xb0cfa695, 0xfa05151a) == 0xd2cba68d;
    assert Op(19, 0xb693b95c, 0xd359648c, 0xb0cfa695, 0xfa05151a, 0x6c6c6568) == 0xa3175cb4;
    assert Step(Regs(0xb693b95c, 0xd359648c, 0xb0cfa695, 0xfa05151a), k, 19) == Regs(0xfa05151a, 0xa3175cb4, 0xd359648c, 0xb0cfa695);
    RoundsFromStep(Regs(0xb693b95c, 0xd359648c, 0xb0cfa695, 0xfa05151a), k, 19);
  }

  lemma Step20(k: seq<bv32>)
    requires k == HelloBlock
    ensures RoundsFrom(Regs(0xfa05151a, 0xa3175cb4, 0xd359648c, 0xb0cfa695), k, 20) == RoundsFrom(Regs(0xb0cfa695, 0x0c849f2a, 0xa3175cb4, 0xd359648c), k, 21)
  {
    assert MsgIndex(20) == 5 && k[5] == 0x0;
    assert Shift(20) == 5 && T(20) == 0xd62f105d;
    assert Mix(20, 0xa3175cb4, 0xd359648c, 0xb0cfa695) == 0xe317449c;
    assert Op(20, 0xfa05151a, 0xa3175cb4, 0xd359648c, 0xb0cfa695, 0x0) == 0x0c849f2a;
    assert Step(Regs(0xfa05151a, 0xa3175cb4, 0xd359648c, 0xb0cfa695), k, 20) == Regs(0xb0cfa695, 0x0c849f2a, 0xa3175cb4, 0xd359648c);
    RoundsFromStep(Regs(0xfa05151a, 0xa3175cb4, 0xd359648c, 0xb0cfa695), k, 20);
  }

  lemma Step21(k: seq<bv32>)
    requires k == HelloBlock
    ensures RoundsFrom(Regs(0xb0cfa695, 0x0c849f2a, 0xa3175cb4, 0xd359648c), k, 21) == RoundsFrom(Regs(0xd359648c, 0x4032e0d0, 0x0c849f2a, 0xa3175cb4), k, 22)
  {
    assert MsgIndex(21) == 10 && k[10] == 0x0;
    assert Shift(21) == 9 && T(21) == 0x02441453;
    assert Mix(21, 0x0c849f2a, 0xa3175cb4, 0xd359648c) == 0x20061c38;
    assert Op(21, 0xb0cfa695, 0x0c849f2a, 0xa3175cb4, 0xd359648c, 0x0) == 0x4032e0d0;
    assert Step(Regs(0xb0cfa695, 0x0c849f2a, 0xa3175cb4, 0xd359648c), k, 21) == Regs(0xd359648c, 0x4032e0d0, 0x0c849f2a, 0xa3175cb4);
    RoundsFromStep(Regs(0xb0cfa695, 0x0c849f2a, 0xa3175cb4, 0xd359648c), k, 21);
  }

  lemma Step22(k: seq<bv32>)
    requires k == HelloBlock
    ensures RoundsFrom(Regs(0xd359648c, 0x4032e0d0, 0x0c849f2a, 0xa3175cb4), k, 22) == RoundsFrom(Regs(0xa3175cb4, 0xc3dccef3, 0x4032e0d0, 0x0c849f2a), k, 23)
  {
    assert MsgIndex(22) == 15 && k[15] == 0x0;
    assert Shift(22) == 14 && T(22) == 0xd8a1e681;
    assert Mix(22, 0x4032e0d0, 0x0c849f2a, 0xa3175cb4) == 0x0c92c39a;
    assert Op(22, 0xd359648c, 0x4032e0d0, 0x0c849f2a, 0xa3175cb4, 0x0) == 0xc3dccef3;
    assert Step(Regs(0xd359648c, 0x4032e0d0, 0x0c849f2a, 0xa3175cb4), k, 22) == Regs(0xa3175cb4, 0xc3dccef3, 0x4032e0d0, 0x0c849f2a);
    RoundsFromStep(Regs(0xd359648c, 0x4032e0d0, 0x0c849f2a, 0xa3175cb4), k, 22);
  }

  lemma Step23(k: seq<bv32>)
    requires k == HelloBlock
    ensures RoundsFrom(Regs(0xa3175cb4, 0xc3dccef3, 0x4032e0d0, 0x0c849f2a), k, 23) == RoundsFrom(Regs(0x0c849f2a, 0x3ac98917, 0xc3dccef3, 0x4032e0d0), k, 24)
  {
    assert MsgIndex(23) == 4 && k[4] == 0x0;
    assert Shift(23) == 20 && T(23) == 0xe7d3fbc8;
    assert Mix(23, 0xc3dccef3, 0x4032e0d0, 0x0c849f2a) == 0x40b6eef2;
    assert Op(23, 0xa3175cb4, 0xc3dccef3, 0x4032e0d0, 0x0c849f2a, 0x0) == 0x3ac98917;
    assert Step(Regs(0xa3175cb4, 0xc3dccef3, 0x4032e0d0, 0x0c849f2a), k, 23) == Regs(0x0c849f2a, 0x3ac98917, 0xc3dccef3, 0x4032e0d0);
    RoundsFromStep(Regs(0xa3175cb4, 0xc3dccef3, 0x4032e0d0, 0x0c849f2a), k, 23);
  }

  lemma Step24(k: seq<bv32>)
    requires k == HelloBlock
    ensures RoundsFrom(Regs(0x0c849f2a, 0x3ac98917, 0xc3dccef3, 0x4032e0d0), k, 24) == RoundsFrom(Regs(0x4032e0d0, 0x8128f18d, 0x3ac98917, 0xc3dccef3), k, 25)
  {
    assert MsgIndex(24) == 9 && k[9] == 0x0;
    assert Shift(24) == 5 && T(24) == 0x21e1cde6;
    assert Mix(24, 0x3ac98917, 0xc3dccef3, 0x4032e0d0) == 0x83cc8e33;
    assert Op(24, 0x0c849f2a, 0x3ac98917, 0xc3dccef3, 0x4032e0d0, 0x0) == 0x8128f18d;
    assert Step(Regs(0x0c849f2a, 0x3ac98917, 0xc3dccef3, 0x4032e0d0), k, 24) == Regs(0x4032e0d0, 0x8128f18d, 0x3ac98917, 0xc3dccef3);
    RoundsFromStep(Regs(0x0c849f2a, 0x3ac98917, 0xc3dccef3, 0x4032e0d0), k, 24);
  }

  lemma Step25(k: seq<bv32>)
    requires k == HelloBlock
    ensures RoundsFrom(Regs(0x4032e0d0, 0x8128f18d, 0x3ac98917, 0xc3dccef3), k, 25) == RoundsFrom(Regs(0xc3dccef3, 0x687d9905, 0x8128f18d, 0x3ac98917), k, 26)
  {
    assert MsgIndex(25) == 14 && k[14] == 0x28;
    assert Shift(25) == 9 && T(25) == 0xc33707d6;
    assert Mix(25, 0x8128f18d, 0x3ac98917, 0xc3dccef3) == 0xb909c185;
    assert Op(25, 0x4032e0d0, 0x8128f18d, 0x3ac98917, 0xc3dccef3, 0x28) == 0x687d9905;
    assert Step(Regs(0x4032e0d0, 0x8128f18d, 0x3ac98917, 0xc3dccef3), k, 25) == Regs(0xc3dccef3, 0x687d9905, 0x8128f18d, 0x3ac98917);
    RoundsFromStep(Regs(0x4032e0d0, 0x8128f18d, 0x3ac98917, 0xc3dccef3), k, 25);
  }

  lemma Step26(k: seq<bv32>)
    requires k == HelloBlock
    ensures RoundsFrom(Regs(0xc3dccef3, 0x687d9905, 0x8128f18d, 0x3ac98917), k, 26) == RoundsFrom(Regs(0x3ac98917, 0x5dff718b, 0x687d9905, 0x8128f18d), k, 27)
  {
    assert MsgIndex(26) == 3 && k[3] == 0x0;
    assert Shift(26) == 14 && T(26) == 0xf4d50d87;
    assert Mix(26, 0x687d9905, 0x8128f18d, 0x3ac98917) == 0xa969f98d;
    assert Op(26, 0xc3dccef3, 0x687d9905, 0x8128f18d, 0x3ac98917, 0x0) == 0x5dff718b;
    assert Step(Regs(0xc3dccef3, 0x687d9905, 0x8128f18d, 0x3ac98917), k, 26) == Regs(0x3ac98917, 0x5dff718b, 0x687d9905, 0x8128f18d);
    RoundsFromStep(Regs(0xc3dccef3, 0x687d9905, 0x8128f18d, 0x3ac98917), k, 26);
  }

  lemma Step27(k: seq<bv32>)
    requires k == HelloBlock
    ensures RoundsFrom(Regs(0x3ac98917, 0x5dff718b, 0x687d9905, 0x8128f18d), k, 27) == RoundsFrom(Regs(0x8128f18d, 0xd6de0b9c, 0x5dff718b, 0x687d9905), k, 28)
  {
    assert MsgIndex(27) == 8 && k[8] == 0x0;
    assert Shift(27) == 20 && T(27) == 0x455a14ed;
    assert Mix(27, 0x5dff718b, 0x687d9905, 0x8128f18d) == 0x697d7989;
    assert Op(27, 0x3ac98917, 0x5dff718b, 0x687d9905, 0x8128f18d, 0x0) == 0xd6de0b9c;
    assert Step(Regs(0x3ac98917, 0x5dff718b, 0x687d9905, 0x8128f18d), k, 27) == Regs(0x8128f18d, 0xd6de0b9c, 0x5dff718b, 0x687d9905);
    RoundsFromStep(Regs(0x3ac98917, 0x5dff718b, 0x687d9905, 0x8128f18d), k, 27);
  }

  lemma Step28(k: seq<bv32>)
    requires k == HelloBlock
    ensures RoundsFrom(Regs(0x8128f18d, 0xd6de0b9c, 0x5dff718b, 0x687d9905), k, 28) == RoundsFrom(Regs(0x687d9905, 0xf4468fac, 0xd6de0b9c, 0x5dff718b), k, 29)
  {
    assert MsgIndex(28) == 13 && k[13] == 0x0;
    assert Shift(28) == 5 && T(28) == 0xa9e3e905;
    assert Mix(28, 0xd6de0b9c, 0x5dff718b, 0x687d9905) == 0x55de698e;
    assert Op(28, 0x8128f18d, 0xd6de0b9c, 0x5dff718b, 0x687d9905, 0x0) == 0xf4468fac;
    assert Step(Regs(0x8128f18d, 0xd6de0b9c, 0x5dff718b, 0x687d9905), k, 28) == Regs(0x687d9905, 0xf4468fac, 0xd6de0b9c, 0x5dff718b);
    RoundsFromStep(Regs(0x8128f18d, 0xd6de0b9c, 0x5dff718b, 0x687d9905), k, 28);
  }

  lemma Step29(k: seq<bv32>)
    requires k == HelloBlock
    ensures RoundsFrom(Regs(0x687d9905, 0xf4468fac, 0xd6de0b9c, 0x5dff718b), k, 29) == RoundsFrom(Regs(0x5dff718b, 0x5ad7c223, 0xf4468fac, 0xd6de0b9c), k, 30)
  {
    assert MsgIndex(29) == 2 && k[2] == 0x0;
    assert Shift(29) == 9 && T(29) == 0xfcefa3f8;
    assert Mix(29, 0xf4468fac, 0xd6de0b9c, 0x5dff718b) == 0xd6460b9c;
    assert Op(29, 0x687d9905, 0xf4468fac, 0xd6de0b9c, 0x5dff718b, 0x0) == 0x5ad7c223;
    assert Step(Regs(0x687d9905, 0xf4468fac, 0xd6de0b9c, 0x5dff718b), k, 29) == Regs(0x5dff718b, 0x5ad7c223, 0xf4468fac, 0xd6de0b9c);
    RoundsFromStep(Regs(0x687d9905, 0xf4468fac, 0xd6de0b9c, 0x5dff718b), k, 29);
  }

  lemma Step30(k: seq<bv32>)
    requires k == HelloBlock
    ensures RoundsFrom(Regs(0x5dff718b, 0x5ad7c223, 0xf4468fac, 0xd6de0b9c), k, 30) == RoundsFrom(Regs(0xd6de0b9c, 0x9978d034, 0x5ad7c223, 0xf4468fac), k, 31)
  {
    assert MsgIndex(30) == 7 && k[7] == 0x0;
    assert Shift(30) == 14 && T(30) == 0x676f02d9;
    assert Mix(30, 0x5ad7c223, 0xf4468fac, 0xd6de0b9c) == 0x72d68620;
    assert Op(30, 0x5dff718b, 0x5ad7c223, 0xf4468fac, 0xd6de0b9c, 0x0) == 0x9978d034;
    assert Step(Regs(0x5dff718b, 0x5ad7c223, 0xf4468fac, 0xd6de0b9c), k, 30) == Regs(0xd6de0b9c, 0x9978d034, 0x5ad7c223, 0xf4468fac);
    RoundsFromStep(Regs(0x5dff718b, 0x5ad7c223, 0xf4468fac, 0xd6de0b9c), k, 30);
  }

  lemma Step31(k: seq<bv32>)
    requires k == HelloBlock
    ensures RoundsFrom(Regs(0xd6de0b9c, 0x9978d034, 0x5ad7c223, 0xf4468fac), k, 31) == RoundsFrom(Regs(0xf4468fac, 0x1e58bdd5, 0x9978d034, 0x5ad7c223), k, 32)
  {
    assert MsgIndex(31) == 12 && k[12] == 0x0;
    assert Shift(31) == 20 && T(31) == 0x8d2a4c8a;
    assert Mix(31, 0x9978d034, 0x5ad7c223, 0xf4468fac) == 0x9ad1c027;
    assert Op(31, 0xd6de0b9c, 0x9978d034, 0x5ad7c223, 0xf4468fac, 0x0) == 0x1e58bdd5;
    assert Step(Regs(0xd6de0b9c, 0x9978d034, 0x5ad7c223, 0xf4468fac), k, 31) == Regs(0xf4468fac, 0x1e58bdd5, 0x9978d034, 0x5ad7c223);
    RoundsFromStep(Regs(0xd6de0b9c, 0x9978d034, 0x5ad7c223, 0xf4468fac), k, 31);
  }

  lemma Step32(k: seq<bv32>)
    requires k == HelloBlock
    ensures RoundsFrom(Regs(0xf4468fac, 0x1e58bdd5, 0x9978d034, 0x5ad7c223), k, 32) == RoundsFrom(Regs(0x5ad7c223, 0x41e048e2, 0x1e58bdd5, 0x9978d034), k, 33)
  {
    assert MsgIndex(32) == 5 && k[5] == 0x0;
    assert Shift(32) == 4 && T(32) == 0xfffa3942;
    assert Mix(32, 0x1e58bdd5, 0x9978d034, 0x5ad7c223) == 0xddf7afc2;
    assert Op(32, 0xf4468fac, 0x1e58bdd5, 0x9978d034, 0x5ad7c223, 0x0) == 0x41e048e2;
    assert Step(Regs(0xf4468fac, 0x1e58bdd5, 0x9978d034, 0x5ad7c223), k, 32) == Regs(0x5ad7c223, 0x41e048e2, 0x1e58bdd5, 0x9978d034);
    RoundsFromStep(Regs(0xf4468fac, 0x1e58bdd5, 0x9978d034, 0x5ad7c223), k, 32);
  }

  lemma Step33(k: seq<bv32>)
    requires k == HelloBlock
    ensures RoundsFrom(Regs(0x5ad7c223, 0x41e048e2, 0x1e58bdd5, 0x9978d034), k, 33) == RoundsFrom(Regs(0x9978d034, 0x90cd862a, 0x41e048e2, 0x1e58bdd5), k, 34)
  {
    assert MsgIndex(33) == 8 && k[8] == 0x0;
    assert Shift(33) == 11 && T(33) == 0x8771f681;
    assert Mix(33, 0x41e048e2, 0x1e58bdd5, 0x9978d034) == 0xc6c02503;
    assert Op(33, 0x5ad7c223, 0x41e048e2, 0x1e58bdd5, 0x9978d034, 0x0) == 0x90cd862a;
    assert Step(Regs(0x5ad7c223, 0x41e048e2, 0x1e58bdd5, 0x9978d034), k, 33) == Regs(0x9978d034, 0x90cd862a, 0x41e048e2, 0x1e58bdd5);
    RoundsFromStep(Regs(0x5ad7c223, 0x41e048e2, 0x1e58bdd5, 0x9978d034), k, 33);
  }

  lemma Step34(k: seq<bv32>)
    requires k == HelloBlock
    ensures RoundsFrom(Regs(0x9978d034, 0x90cd862a, 0x41e048e2, 0x1e58bdd5), k, 34) == RoundsFrom(Regs(0x1e58bdd5, 0x35415cb5, 0x90cd862a, 0x41e048e2), k, 35)
  {
    assert MsgIndex(34) == 11 && k[11] == 0x0;
    assert Shift(34) == 16 && T(34) == 0x6d9d6122;
    assert Mix(34, 0x90cd862a, 0x41e048e2, 0x1e58bdd5) == 0xcf75731d;
    assert Op(34, 0x9978d034, 0x90cd862a, 0x41e048e2, 0x1e58bdd5, 0x0) == 0x35415cb5;
    assert Step(Regs(0x9978d034, 0x90cd862a, 0x41e048e2, 0x1e58bdd5), k, 34) == Regs(0x1e58bdd5, 0x35415cb5, 0x90cd862a, 0x41e048e2);
    RoundsFromStep(Regs(0x9978d034, 0x90cd862a, 0x41e048e2, 0x1e58bdd5), k, 34);
  }

  lemma Step35(k: seq<bv32>)
    requires k == HelloBlock
    ensures RoundsFrom(Regs(0x1e58bdd5, 0x35415cb5, 0x90cd862a, 0x41e048e2), k, 35) == RoundsFrom(Regs(0x41e048e2, 0x7841b1f9, 0x35415cb5, 0x90cd862a), k, 36)
  {
    assert MsgIndex(35) == 14 && k[14] == 0x28;
    assert Shift(35) == 23 && T(35) == 0xfde5380c;
    assert Mix(35, 0x35415cb5, 0x90cd862a, 0x41e048e2) == 0xe46c927d;
    assert Op(35, 0x1e58bdd5, 0x35415cb5, 0x90cd862a, 0x41e048e2, 0x28) == 0x7841b1f9;
    assert Step(Regs(0x1e58bdd5, 0x35415cb5, 0x90cd862a, 0x41e048e2), k, 35) == Regs(0x41e048e2, 0x7841b1f9, 0x35415cb5, 0x90cd862a);
    RoundsFromStep(Regs(0x1e58bdd5, 0x35415cb5, 0x90cd862a, 0x41e048e2), k, 35);
  }

  lemma Step36(k: seq<bv32>)
    requires k == HelloBlock
    ensures RoundsFrom(Regs(0x41e048e2, 0x7841b1f9, 0x35415cb5, 0x90cd862a), k, 36) == RoundsFrom(Regs(0x90cd862a, 0xbf13a1b5, 0x7841b1f9, 0x35415cb5), k, 37)
  {
    assert MsgIndex(36) == 1 && k[1] == 0x806f;
    assert Shift(36) == 4 && T(36) == 0xa4beea44;
    assert Mix(36, 0x7841b1f9, 0x35415cb5, 0x90cd862a) == 0xddcd6b66;
    assert Op(36, 0x41e048e2, 0x7841b1f9, 0x35415cb5, 0x90cd862a, 0x806f) == 0xbf13a1b5;
    assert Step(Regs(0x41e048e2, 0x7841b1f9, 0x35415cb5, 0x90cd862a), k, 36) == Regs(0x90cd862a, 0xbf13a1b5, 0x7841b1f9, 0x35415cb5);
    RoundsFromStep(Regs(0x41e048e2, 0x7841b1f9, 0x35415cb5, 0x90cd862a), k, 36);
  }

  lemma Step37(k: seq<bv32>)
    requires k == HelloBlock
    ensures RoundsFrom(Regs(0x90cd862a, 0xbf13a1b5, 0x7841b1f9, 0x35415cb5), k, 37) == RoundsFrom(Regs(0x35415cb5, 0xbc2a082a, 0xbf13a1b5, 0x7841b1f9), k, 38)
  {
    assert MsgIndex(37) == 4 && k[4] == 0x0;
    assert Shift(37) == 11 && T(37) == 0x4bdecfa9;
    assert Mix(37, 0xbf13a1b5, 0x7841b1f9, 0x35415cb5) == 0xf2134cf9;
    assert Op(37, 0x90cd862a, 0xbf13a1b5, 0x7841b1f9, 0x35415cb5, 0x0) == 0xbc2a082a;
    assert Step(Regs(0x90cd862a, 0xbf13a1b5, 0x7841b1f9, 0x35415cb5), k, 37) == Regs(0x35415cb5, 0xbc2a082a, 0xbf13a1b5, 0x7841b1f9);
    RoundsFromStep(Regs(0x90cd862a, 0xbf13a1b5, 0x7841b1f9, 0x35415cb5), k, 37);
  }

  lemma Step38(k: seq<bv32>)
    requires k == HelloBlock
    ensures RoundsFrom(Regs(0x35415cb5, 0xbc2a082a, 0xbf13a1b5, 0x7841b1f9), k, 38) == RoundsFrom(Regs(0x7841b1f9, 0x7ca5af9e, 0xbc2a082a, 0xbf13a1b5), k, 39)
  {
    assert MsgIndex(38) == 7 && k[7] == 0x0;
    assert Shift(38) == 16 && T(38) == 0xf6bb4b60;
    assert Mix(38, 0xbc2a082a, 0xbf13a1b5, 0x7841b1f9) == 0x7b781866;
    assert Op(38, 0x35415cb5, 0xbc2a082a, 0xbf13a1b5, 0x7841b1f9, 0x0) == 0x7ca5af9e;
    assert Step(Regs(0x35415cb5, 0xbc2a082a, 0xbf13a1b5, 0x7841b1f9), k, 38) == Regs(0x7841b1f9, 0x7ca5af9e, 0xbc2a082a, 0xbf13a1b5);
    RoundsFromStep(Regs(0x35415cb5, 0xbc2a082a, 0xbf13a1b5, 0x7841b1f9), k, 38);
  }

  lemma Step39(k: seq<bv32>)
    requires k == HelloBlock
    ensures RoundsFrom(Regs(0x7841b1f9, 0x7ca5af9e, 0xbc2a082a, 0xbf13a1b5), k, 39) == RoundsFrom(Regs(0xbf13a1b5, 0xb200fe58, 0x7ca5af9e, 0xbc2a082a), k, 40)
  {
    assert MsgIndex(39) == 10 && k[10] == 0x0;
    assert Shift(39) == 23 && T(39) == 0xbebfbc70;
    assert Mix(39, 0x7ca5af9e, 0xbc2a082a, 0xbf13a1b5) == 0x7f9c0601;
    assert Op(39, 0x7841b1f9, 0x7ca5af9e, 0xbc2a082a, 0xbf13a1b5, 0x0) == 0xb200fe58;
    assert Step(Regs(0x7841b1f9, 0x7ca5af9e, 0xbc2a082a, 0xbf13a1b5), k, 39) == Regs(0xbf13a1b5, 0xb200fe58, 0x7ca5af9e, 0xbc2a082a);
    RoundsFromStep(Regs(0x7841b1f9, 0x7ca5af9e, 0xbc2a082a, 0xbf13a1b5), k, 39);
  }

  lemma Step40(k: seq<bv32>)
    requires k == HelloBlock
    ensures RoundsFrom(Regs(0xbf13a1b5, 0xb200fe58, 0x7ca5af9e, 0xbc2a082a), k, 40) == RoundsFrom(Regs(0xbc2a082a, 0x55e8a4cd, 0xb200fe58, 0x7ca5af9e), k, 41)
  {
    assert MsgIndex(40) == 13 && k[13] == 0x0;
    assert Shift(40) == 4 && T(40) == 0x289b7ec6;
    assert Mix(40, 0xb200fe58, 0x7ca5af9e, 0xbc2a082a) == 0x728f59ec;
    assert Op(40, 0xbf13a1b5, 0xb200fe58, 0x7ca5af9e, 0xbc2a082a, 0x0) == 0x55e8a4cd;
    assert Step(Regs(0xbf13a1b5, 0xb200fe58, 0x7ca5af9e, 0xbc2a082a), k, 40) == Regs(0xbc2a082a, 0x55e8a4cd, 0xb200fe58, 0x7ca5af9e);
    RoundsFromStep(Regs(0xbf13a1b5, 0xb200fe58, 0x7ca5af9e, 0xbc2a082a), k, 40);
  }

  lemma Step41(k: seq<bv32>)
    requires k == HelloBlock
    ensures RoundsFrom(Regs(0xbc2a082a, 0x55e8a4cd, 0xb200fe58, 0x7ca5af9e), k, 41) == RoundsFrom(Regs(0x7ca5af9e, 0x823d6241, 0x55e8a4cd, 0xb200fe58), k, 42)
  {
    assert MsgIndex(41) == 0 && k[0] == 0x6c6c6568;
    assert Shift(41) == 11 && T(41) == 0xeaa127fa;
    assert Mix(41, 0x55e8a4cd, 0xb200fe58, 0x7ca5af9e) == 0x9b4df50b;
    assert Op(41, 0xbc2a082a, 0x55e8a4cd, 0xb200fe58, 0x7ca5af9e, 0x6c6c6568) == 0x823d6241;
    assert Step(Regs(0xbc2a082a, 0x55e8a4cd, 0xb200fe58, 0x7ca5af9e), k, 41) == Regs(0x7ca5af9e, 0x823d6241, 0x55e8a4cd, 0xb200fe58);
    RoundsFromStep(Regs(0xbc2a082a, 0x55e8a4cd, 0xb200fe58, 0x7ca5af9e), k, 41);
  }

  lemma Step42(k: seq<bv32>)
    requires k == HelloBlock
    ensures RoundsFrom(Regs(0x7ca5af9e, 0x823d6241, 0x55e8a4cd, 0xb200fe58), k, 42) == RoundsFrom(Regs(0xb200fe58, 0x9b3519ab, 0x823d6241, 0x55e8a4cd), k, 43)
  {
    assert MsgIndex(42) == 3 && k[3] == 0x0;
    assert Shift(42) == 16 && T(42) == 0xd4ef3085;
    assert Mix(42, 0x823d6241, 0x55e8a4cd, 0xb200fe58) == 0x65d538d4;
    assert Op(42, 0x7ca5af9e, 0x823d6241, 0x55e8a4cd, 0xb200fe58, 0x0) == 0x9b3519ab;
    assert Step(Regs(0x7ca5af9e, 0x823d6241, 0x55e8a4cd, 0xb200fe58), k, 42) == Regs(0xb200fe58, 0x9b3519ab, 0x823d6241, 0x55e8a4cd);
    RoundsFromStep(Regs(0x7ca5af9e, 0x823d6241, 0x55e8a4cd, 0xb200fe58), k, 42);
  }

  lemma Step43(k: seq<bv32>)
    requires k == HelloBlock
    ensures RoundsFrom(Regs(0xb200fe58, 0x9b3519ab, 0x823d6241, 0x55e8a4cd), k, 43) == RoundsFrom(Regs(0x55e8a4cd, 0xdd36cea8, 0x9b3519ab, 0x823d6241), k, 44)
  {
    assert MsgIndex(43) == 6 && k[6] == 0x0;
    assert Shift(43) == 23 && T(43) == 0x04881d05;
    assert Mix(43, 0x9b3519ab, 0x823d6241, 0x55e8a4cd) == 0x4ce0df27;
    assert Op(43, 0xb200fe58, 0x9b3519ab, 0x823d6241, 0x55e8a4cd, 0x0) == 0xdd36cea8;
    assert Step(Regs(0xb200fe58, 0x9b3519ab, 0x823d6241, 0x55e8a4cd), k, 43) == Regs(0x55e8a4cd, 0xdd36cea8, 0x9b3519ab, 0x823d6241);
    RoundsFromStep(Regs(0xb200fe58, 0x9b3519ab, 0x823d6241, 0x55e8a4cd), k, 43);
  }

  lemma Step44(k: seq<bv32>)
    requires k == HelloBlock
    ensures RoundsFrom(Regs(0x55e8a4cd, 0xdd36cea8, 0x9b3519ab, 0x823d6241), k, 44) == RoundsFrom(Regs(0x823d6241, 0x1cf97337, 0xdd36cea8, 0x9b3519ab), k, 45)
  {
    assert MsgIndex(44) == 9 && k[9] == 0x0;
    assert Shift(44) == 4 && T(44) == 0xd9d4d039;
    assert Mix(44, 0xdd36cea8, 0x9b3519ab, 0x823d6241) == 0xc43eb542;
    assert Op(44, 0x55e8a4cd, 0xdd36cea8, 0x9b3519ab, 0x823d6241, 0x0) == 0x1cf97337;
    assert Step(Regs(0x55e8a4cd, 0xdd36cea8, 0x9b3519ab, 0x823d6241), k, 44) == Regs(0x823d6241, 0x1cf97337, 0xdd36cea8, 0x9b3519ab);
    RoundsFromStep(Regs(0x55e8a4cd, 0xdd36cea8, 0x9b3519ab, 0x823d6241), k, 44);
  }

  lemma Step45(k: seq<bv32>)
    requires k == HelloBlock
    ensures RoundsFrom(Regs(0x823d6241, 0x1cf97337, 0xdd36cea8, 0x9b3519ab), k, 45) == RoundsFrom(Regs(0x9b3519ab, 0xb9fc4957, 0x1cf97337, 0xdd36cea8), k, 46)
  {
    assert MsgIndex(45) == 12 && k[12] == 0x0;
    assert Shift(45) == 11 && T(45) == 0xe6db99e5;
    assert Mix(45, 0x1cf97337, 0xdd36cea8, 0x9b3519ab) == 0x5afaa434;
    assert Op(45, 0x823d6241, 0x1cf97337, 0xdd36cea8, 0x9b3519ab, 0x0) == 0xb9fc4957;
    assert Step(Regs(0x823d6241, 0x1cf97337, 0xdd36cea8, 0x9b3519ab), k, 45) == Regs(0x9b3519ab, 0xb9fc4957, 0x1cf97337, 0xdd36cea8);
    RoundsFromStep(Regs(0x823d6241, 0x1cf97337, 0xdd36cea8, 0x9b3519ab), k, 45);
  }

  lemma Step46(k: seq<bv32>)
    requires k == HelloBlock
    ensures RoundsFrom(Regs(0x9b3519ab, 0xb9fc4957, 0x1cf97337, 0xdd36cea8), k, 46) == RoundsFrom(Regs(0xdd36cea8, 0x45677c62, 0xb9fc4957, 0x1cf97337), k, 47)
  {
    assert MsgIndex(46) == 15 && k[15] == 0x0;
    assert Shift(46) == 16 && T(46) == 0x1fa27cf8;
    assert Mix(46, 0xb9fc4957, 0x1cf97337, 0xdd36cea8) == 0x7833f4c8;
    assert Op(46, 0x9b3519ab, 0xb9fc4957, 0x1cf97337, 0xdd36cea8, 0x0) == 0x45677c62;
    assert Step(Regs(0x9b3519ab, 0xb9fc4957, 0x1cf97337, 0xdd36cea8), k, 46) == Regs(0xdd36cea8, 0x45677c62, 0xb9fc4957, 0x1cf97337);
    RoundsFromStep(Regs(0x9b3519ab, 0xb9fc4957, 0x1cf97337, 0xdd36cea8), k, 46);
  }

  lemma Step47(k: seq<bv32>)
    requires k == HelloBlock
    ensures RoundsFrom(Regs(0xdd36cea8, 0x45677c62, 0xb9fc4957, 0x1cf97337), k, 47) == RoundsFrom(Regs(0x1cf97337, 0xcd289f17, 0x45677c62, 0xb9fc4957), k, 48)
  {
    assert MsgIndex(47) == 2 && k[2] == 0x0;
    assert Shift(47) == 23 && T(47) == 0xc4ac5665;
    assert Mix(47, 0x45677c62, 0xb9fc4957, 0x1cf97337) == 0xe0624602;
    assert Op(47, 0xdd36cea8, 0x45677c62, 0xb9fc4957, 0x1cf97337, 0x0) == 0xcd289f17;
    assert Step(Regs(0xdd36cea8, 0x45677c62, 0xb9fc4957, 0x1cf97337), k, 47) == Regs(0x1cf97337, 0xcd289f17, 0x45677c62, 0xb9fc4957);
    RoundsFromStep(Regs(0xdd36cea8, 0x45677c62, 0xb9fc4957, 0x1cf97337), k, 47);
  }

  lemma Step48(k: seq<bv32>)
    requires k == HelloBlock
    ensures RoundsFrom(Regs(0x1cf97337, 0xcd289f17, 0x45677c62, 0xb9fc4957), k, 48) == RoundsFrom(Regs(0xb9fc4957, 0xc4184f18, 0xcd289f17, 0x45677c62), k, 49)
  {
    assert MsgIndex(48) == 0 && k[0] == 0x6c6c6568;
    assert Shift(48) == 6 && T(48) == 0xf4292244;
    assert Mix(48, 0xcd289f17, 0x45677c62, 0xb9fc4957) == 0x8a4cc3dd;
    assert Op(48, 0x1cf97337, 0xcd289f17, 0x45677c62, 0xb9fc4957, 0x6c6c6568) == 0xc4184f18;
    assert Step(Regs(0x1cf97337, 0xcd289f17, 0x45677c62, 0xb9fc4957), k, 48) == Regs(0xb9fc4957, 0xc4184f18, 0xcd289f17, 0x45677c62);
    RoundsFromStep(Regs(0x1cf97337, 0xcd289f17, 0x45677c62, 0xb9fc4957), k, 48);
  }

  lemma Step49(k: seq<bv32>)
    requires k == HelloBlock
    ensures RoundsFrom(Regs(0xb9fc4957, 0xc4184f18, 0xcd289f17, 0x45677c62), k, 49) == RoundsFrom(Regs(0x45677c62, 0x227e2fdb, 0xc4184f18, 0xcd289f17), k, 50)
  {
    assert MsgIndex(49) == 7 && k[7] == 0x0;
    assert Shift(49) == 10 && T(49) == 0x432aff97;
    assert Mix(49, 0xc4184f18, 0xcd289f17, 0x45677c62) == 0x33b0508a;
    assert Op(49, 0xb9fc4957, 0xc4184f18, 0xcd289f17, 0x45677c62, 0x0) == 0x227e2fdb;
    assert Step(Regs(0xb9fc4957, 0xc4184f18, 0xcd289f17, 0x45677c62), k, 49) == Regs(0x45677c62, 0x227e2fdb, 0xc4184f18, 0xcd289f17);
    RoundsFromStep(Regs(0xb9fc4957, 0xc4184f18, 0xcd289f17, 0x45677c62), k, 49);
  }

  lemma Step50(k: seq<bv32>)
    requires k == HelloBlock
    ensures RoundsFrom(Regs(0x45677c62, 0x227e2fdb, 0xc4184f18, 0xcd289f17), k, 50) == RoundsFrom(Regs(0xcd289f17, 0x8308a3cc, 0x227e2fdb, 0xc4184f18), k, 51)
  {
    assert MsgIndex(50) == 14 && k[14] == 0x28;
    assert Shift(50) == 15 && T(50) == 0xab9423a7;
    assert Mix(50, 0x227e2fdb, 0xc4184f18, 0xcd289f17) == 0xf6e720e3;
    assert Op(50, 0x45677c62, 0x227e2fdb, 0xc4184f18, 0xcd289f17, 0x28) == 0x8308a3cc;
    assert Step(Regs(0x45677c62, 0x227e2fdb, 0xc4184f18, 0xcd289f17), k, 50) == Regs(0xcd289f17, 0x8308a3cc, 0x227e2fdb, 0xc4184f18);
    RoundsFromStep(Regs(0x45677c62, 0x227e2fdb, 0xc4184f18, 0xcd289f17), k, 50);
  }

  lemma Step51(k: seq<bv32>)
    requires k == HelloBlock
    ensures RoundsFrom(Regs(0xcd289f17, 0x8308a3cc, 0x227e2fdb, 0xc4184f18), k, 51) == RoundsFrom(Regs(0xc4184f18, 0xf3950d87, 0x8308a3cc, 0x227e2fdb), k, 52)
  {
    assert MsgIndex(51) == 5 && k[5] == 0x0;
    assert Shift(51) == 21 && T(51) == 0xfc93a039;
    assert Mix(51, 0x8308a3cc, 0x227e2fdb, 0xc4184f18) == 0x99919c34;
    assert Op(51, 0xcd289f17, 0x8308a3cc, 0x227e2fdb, 0xc4184f18, 0x0) == 0xf3950d87;
    assert Step(Regs(0xcd289f17, 0x8308a3cc, 0x227e2fdb, 0xc4184f18), k, 51) == Regs(0xc4184f18, 0xf3950d87, 0x8308a3cc, 0x227e2fdb);
    RoundsFromStep(Regs(0xcd289f17, 0x8308a3cc, 0x227e2fdb, 0xc4184f18), k, 51);
  }

  lemma Step52(k: seq<bv32>)
    requires k == HelloBlock
    ensures RoundsFrom(Regs(0xc4184f18, 0xf3950d87, 0x8308a3cc, 0x227e2fdb), k, 52) == RoundsFrom(Regs(0x227e2fdb, 0x77dedf30, 0xf3950d87, 0x8308a3cc), k, 53)
  {
    assert MsgIndex(52) == 12 && k[12] == 0x0;
    assert Shift(52) == 6 && T(52) == 0x655b59c3;
    assert Mix(52, 0xf3950d87, 0x8308a3cc, 0x227e2fdb) == 0x7c9d7e6b;
    assert Op(52, 0xc4184f18, 0xf3950d87, 0x8308a3cc, 0x227e2fdb, 0x0) == 0x77dedf30;
    assert Step(Regs(0xc4184f18, 0xf3950d87, 0x8308a3cc, 0x227e2fdb), k, 52) == Regs(0x227e2fdb, 0x77dedf30, 0xf3950d87, 0x8308a3cc);
    RoundsFromStep(Regs(0xc4184f18, 0xf3950d87, 0x8308a3cc, 0x227e2fdb), k, 52);
  }

  lemma Step53(k: seq<bv32>)
    requires k == HelloBlock
    ensures RoundsFrom(Regs(0x227e2fdb, 0x77dedf30, 0xf3950d87, 0x8308a3cc), k, 53) == RoundsFrom(Regs(0x8308a3cc, 0x4f1b6427, 0x77dedf30, 0xf3950d87), k, 54)
  {
    assert MsgIndex(53) == 3 && k[3] == 0x0;
    assert Shift(53) == 10 && T(53) == 0x8f0ccc92;
    assert Mix(53, 0x77dedf30, 0xf3950d87, 0x8308a3cc) == 0x8c6ad2b4;
    assert Op(53, 0x227e2fdb, 0x77dedf30, 0xf3950d87, 0x8308a3cc, 0x0) == 0x4f1b6427;
    assert Step(Regs(0x227e2fdb, 0x77dedf30, 0xf3950d87, 0x8308a3cc), k, 53) == Regs(0x8308a3cc, 0x4f1b6427, 0x77dedf30, 0xf3950d87);
    RoundsFromStep(Regs(0x227e2fdb, 0x77dedf30, 0xf3950d87, 0x8308a3cc), k, 53);
  }

  lemma Step54(k: seq<bv32>)
    requires k == HelloBlock
    ensures RoundsFrom(Regs(0x8308a3cc, 0x4f1b6427, 0x77dedf30, 0xf3950d87), k, 54) == RoundsFrom(Regs(0xf3950d87, 0x2fe7c1f5, 0x4f1b6427, 0x77dedf30), k, 55)
  {
    assert MsgIndex(54) == 10 && k[10] == 0x0;
    assert Shift(54) == 15 && T(54) == 0xffeff47d;
    assert Mix(54, 0x4f1b6427, 0x77dedf30, 0xf3950d87) == 0x38a5294f;
    assert Op(54, 0x8308a3cc, 0x4f1b6427, 0x77dedf30, 0xf3950d87, 0x0) == 0x2fe7c1f5;
    assert Step(Regs(0x8308a3cc, 0x4f1b6427, 0x77dedf30, 0xf3950d87), k, 54) == Regs(0xf3950d87, 0x2fe7c1f5, 0x4f1b6427, 0x77dedf30);
    RoundsFromStep(Regs(0x8308a3cc, 0x4f1b6427, 0x77dedf30, 0xf3950d87), k, 54);
  }

  lemma Step55(k: seq<bv32>)
    requires k == HelloBlock
    ensures RoundsFrom(Regs(0xf3950d87, 0x2fe7c1f5, 0x4f1b6427, 0x77dedf30), k, 55) == RoundsFrom(Regs(0x77dedf30, 0x63d304c3, 0x2fe7c1f5, 0x4f1b6427), k, 56)
  {
    assert MsgIndex(55) == 1 && k[1] == 0x806f;
    assert Shift(55) == 21 && T(55) == 0x85845dd1;
    assert Mix(55, 0x2fe7c1f5, 0x4f1b6427, 0x77dedf30) == 0xe0fc85d8;
    assert Op(55, 0xf3950d87, 0x2fe7c1f5, 0x4f1b6427, 0x77dedf30, 0x806f) == 0x63d304c3;
    assert Step(Regs(0xf3950d87, 0x2fe7c1f5, 0x4f1b6427, 0x77dedf30), k, 55) == Regs(0x77dedf30, 0x63d304c3, 0x2fe7c1f5, 0x4f1b6427);
    RoundsFromStep(Regs(0xf3950d87, 0x2fe7c1f5, 0x4f1b6427, 0x77dedf30), k, 55);
  }

  lemma Step56(k: seq<bv32>)
    requires k == HelloBlock
    ensures RoundsFrom(Regs(0x77dedf30, 0x63d304c3, 0x2fe7c1f5, 0x4f1b6427), k, 56) == RoundsFrom(Regs(0x4f1b6427, 0x49c1f033, 0x63d304c3, 0x2fe7c1f5), k, 57)
  {
    assert MsgIndex(56) == 8 && k[8] == 0x0;
    assert Shift(56) == 6 && T(56) == 0x6fa87e4f;
    assert Mix(56, 0x63d304c3, 0x2fe7c1f5, 0x4f1b6427) == 0xdc105e2e;
    assert Op(56, 0x77dedf30, 0x63d304c3, 0x2fe7c1f5, 0x4f1b6427, 0x0) == 0x49c1f033;
    assert Step(Regs(0x77dedf30, 0x63d304c3, 0x2fe7c1f5, 0x4f1b6427), k, 56) == Regs(0x4f1b6427, 0x49c1f033, 0x63d304c3, 0x2fe7c1f5);
    RoundsFromStep(Regs(0x77dedf30, 0x63d304c3, 0x2fe7c1f5, 0x4f1b6427), k, 56);
  }

  lemma Step57(k: seq<bv32>)
    requires k == HelloBlock
    ensures RoundsFrom(Regs(0x4f1b6427, 0x49c1f033, 0x63d304c3, 0x2fe7c1f5), k, 57) == RoundsFrom(Regs(0x2fe7c1f5, 0x96d9ec50, 0x49c1f033, 0x63d304c3), k, 58)
  {
    assert MsgIndex(57) == 15 && k[15] == 0x0;
    assert Shift(57) == 10 && T(57) == 0xfe2ce6e0;
    assert Mix(57, 0x49c1f033, 0x63d304c3, 0x2fe7c1f5) == 0xba0afaf8;
    assert Op(57, 0x4f1b6427, 0x49c1f033, 0x63d304c3, 0x2fe7c1f5, 0x0) == 0x96d9ec50;
    assert Step(Regs(0x4f1b6427, 0x49c1f033, 0x63d304c3, 0x2fe7c1f5), k, 57) == Regs(0x2fe7c1f5, 0x96d9ec50, 0x49c1f033, 0x63d304c3);
    RoundsFromStep(Regs(0x4f1b6427, 0x49c1f033, 0x63d304c3, 0x2fe7c1f5), k, 57);
  }

  lemma Step58(k: seq<bv32>)
    requires k == HelloBlock
    ensures RoundsFrom(Regs(0x2fe7c1f5, 0x96d9ec50, 0x49c1f033, 0x63d304c3), k, 58) == RoundsFrom(Regs(0x63d304c3, 0x21064162, 0x96d9ec50, 0x49c1f033), k, 59)
  {
    assert MsgIndex(58) == 6 && k[6] == 0x0;
    assert Shift(58) == 15 && T(58) == 0xa3014314;
    assert Mix(58, 0x96d9ec50, 0x49c1f033, 0x63d304c3) == 0xd73c0f4f;
    assert Op(58, 0x2fe7c1f5, 0x96d9ec50, 0x49c1f033, 0x63d304c3, 0x0) == 0x21064162;
    assert Step(Regs(0x2fe7c1f5, 0x96d9ec50, 0x49c1f033, 0x63d304c3), k, 58) == Regs(0x63d304c3, 0x21064162, 0x96d9ec50, 0x49c1f033);
    RoundsFromStep(Regs(0x2fe7c1f5, 0x96d9ec50, 0x49c1f033, 0x63d304c3), k, 58);
  }

  lemma Step59(k: seq<bv32>)
    requires k == HelloBlock
    ensures RoundsFrom(Regs(0x63d304c3, 0x21064162, 0x96d9ec50, 0x49c1f033), k, 59) == RoundsFrom(Regs(0x49c1f033, 0x6560b9b9, 0x21064162, 0x96d9ec50), k, 60)
  {
    assert MsgIndex(59) == 13 && k[13] == 0x0;
    assert Shift(59) == 21 && T(59) == 0x4e0811a1;
    assert Mix(59, 0x21064162, 0x96d9ec50, 0x49c1f033) == 0x21e7a3be;
    assert Op(59, 0x63d304c3, 0x21064162, 0x96d9ec50, 0x49c1f033, 0x0) == 0x6560b9b9;
    assert Step(Regs(0x63d304c3, 0x21064162, 0x96d9ec50, 0x49c1f033), k, 59) == Regs(0x49c1f033, 0x6560b9b9, 0x21064162, 0x96d9ec50);
    RoundsFromStep(Regs(0x63d304c3, 0x21064162, 0x96d9ec50, 0x49c1f033), k, 59);
  }

  lemma Step60(k: seq<bv32>)
    requires k == HelloBlock
    ensures RoundsFrom(Regs(0x49c1f033, 0x6560b9b9, 0x21064162, 0x96d9ec50), k, 60) == RoundsFrom(Regs(0x96d9ec50, 0xc2fb1e5c, 0x6560b9b9, 0x21064162), k, 61)
  {
    assert MsgIndex(60) == 4 && k[4] == 0x0;
    assert Shift(60) == 6 && T(60) == 0xf7537e82;
    assert Mix(60, 0x6560b9b9, 0x21064162, 0x96d9ec50) == 0x4c60fadd;
    assert Op(60, 0x49c1f033, 0x6560b9b9, 0x21064162, 0x96d9ec50, 0x0) == 0xc2fb1e5c;
    assert Step(Regs(0x49c1f033, 0x6560b9b9, 0x21064162, 0x96d9ec50), k, 60) == Regs(0x96d9ec50, 0xc2fb1e5c, 0x6560b9b9, 0x21064162);
    RoundsFromStep(Regs(0x49c1f033, 0x6560b9b9, 0x21064162, 0x96d9ec50), k, 60);
  }

  lemma Step61(k: seq<bv32>)
    requires k == HelloBlock
    ensures RoundsFrom(Regs(0x96d9ec50, 0xc2fb1e5c, 0x6560b9b9, 0x21064162), k, 61) == RoundsFrom(Regs(0x21064162, 0x8292c29a, 0xc2fb1e5c, 0x6560b9b9), k, 62)
  {
    assert MsgIndex(61) == 11 && k[11] == 0x0;
    assert Shift(61) == 10 && T(61) == 0xbd3af235;
    assert Mix(61, 0xc2fb1e5c, 0x6560b9b9, 0x21064162) == 0xbb9b0764;
    assert Op(61, 0x96d9ec50, 0xc2fb1e5c, 0x6560b9b9, 0x21064162, 0x0) == 0x8292c29a;
    assert Step(Regs(0x96d9ec50, 0xc2fb1e5c, 0x6560b9b9, 0x21064162), k, 61) == Regs(0x21064162, 0x8292c29a, 0xc2fb1e5c, 0x6560b9b9);
    RoundsFromStep(Regs(0x96d9ec50, 0xc2fb1e5c, 0x6560b9b9, 0x21064162), k, 61);
  }

  lemma Step62(k: seq<bv32>)
    requires k == HelloBlock
    ensures RoundsFrom(Regs(0x21064162, 0x8292c29a, 0xc2fb1e5c, 0x6560b9b9), k, 62) == RoundsFrom(Regs(0x6560b9b9, 0xf8e294bb, 0x8292c29a, 0xc2fb1e5c), k, 63)
  {
    assert MsgIndex(62) == 2 && k[2] == 0x0;
    assert Shift(62) == 15 && T(62) == 0x2ad7d2bb;
    assert Mix(62, 0x8292c29a, 0xc2fb1e5c, 0x6560b9b9) == 0x5864d882;
    assert Op(62, 0x21064162, 0x8292c29a, 0xc2fb1e5c, 0x6560b9b9, 0x0) == 0xf8e294bb;
    assert Step(Regs(0x21064162, 0x8292c29a, 0xc2fb1e5c, 0x6560b9b9), k, 62) == Regs(0x6560b9b9, 0xf8e294bb, 0x8292c29a, 0xc2fb1e5c);
    RoundsFromStep(Regs(0x21064162, 0x8292c29a, 0xc2fb1e5c, 0x6560b9b9), k, 62);
  }

  lemma Step63(k: seq<bv32>)
    requires k == HelloBlock
    ensures RoundsFrom(Regs(0x6560b9b9, 0xf8e294bb, 0x8292c29a, 0xc2fb1e5c), k, 63) == RoundsFrom(Regs(0xc2fb1e5c, 0x865ca033, 0xf8e294bb, 0x8292c29a), k, 64)
  {
    assert MsgIndex(63) == 9 && k[9] == 0x0;
    assert Shift(63) == 21 && T(63) == 0xeb86d391;
    assert Mix(63, 0xf8e294bb, 0x8292c29a, 0xc2fb1e5c) == 0x7f743721;
    assert Op(63, 0x6560b9b9, 0xf8e294bb, 0x8292c29a, 0xc2fb1e5c, 0x0) == 0x865ca033;
    assert Step(Regs(0x6560b9b9, 0xf8e294bb, 0x8292c29a, 0xc2fb1e5c), k, 63) == Regs(0xc2fb1e5c, 0x865ca033, 0xf8e294bb, 0x8292c29a);
    RoundsFromStep(Regs(0x6560b9b9, 0xf8e294bb, 0x8292c29a, 0xc2fb1e5c), k, 63);
  }

  /** The 64 steps over the "hello" block, chained. */
  lemma HelloRounds(k: seq<bv32>)
    requires k == HelloBlock
    ensures RoundsFrom(IV, k, 0) == Regs(0xc2fb1e5c, 0x865ca033, 0xf8e294bb, 0x8292c29a)
  {
    Step0(k);
    Step1(k);
    Step2(k);
    Step3(k);
    Step4(k);
    Step5(k);
    Step6(k);
    Step7(k);
    Step8(k);
    Step9(k);
    Step10(k);
    Step11(k);
    Step12(k);
    Step13(k);
    Step14(k);
    Step15(k);
    Step16(k);
    Step17(k);
    Step18(k);
    Step19(k);
    Step20(k);
    Step21(k);
    Step22(k);
    Step23(k);
    Step24(k);
    Step25(k);
    Step26(k);
    Step27(k);
    Step28(k);
    Step29(k);
    Step30(k);
    Step31(k);
    Step32(k);
    Step33(k);
    Step34(k);
    Step35(k);
    Step36(k);
    Step37(k);
    Step38(k);
    Step39(k);
    Step40(k);
    Step41(k);
    Step42(k);
    Step43(k);
    Step44(k);
    Step45(k);
    Step46(k);
    Step47(k);
    Step48(k);
    Step49(k);
    Step50(k);
    Step51(k);
    Step52(k);
    Step53(k);
    Step54(k);
    Step55(k);
    Step56(k);
    Step57(k);
    Step58(k);
    Step59(k);
    Step60(k);
    Step61(k);
    Step62(k);
    Step63(k);
  }

  /** "hello" pads to one block: the five bytes, 0x80, fifty zero bytes and the bit length 40. */
  lemma HelloPadBytes(m: seq<bv8>)
    requires m == Hello
    ensures var p := Pad(m);
      && |p| == 64 && p[..5] == [0x68, 0x65, 0x6c, 0x6c, 0x6f] && p[5] == 0x80
      && (forall i :: 5 < i < 56 ==> p[i] == 0)
      && p[56..] == [0x28, 0, 0, 0, 0, 0, 0, 0]
  {
    PadShape(m);
    HelloLength(|m|);
  }

  /** Five bytes are 40 bits. */
  lemma HelloLength(len: nat)
    requires len == 5
    ensures LengthBytes(len) == [0x28, 0, 0, 0, 0, 0, 0, 0]
  {
    LowWordSmall(40);
    LowWordZero();
    assert 8 * len / TwoTo32 == 0;
    assert LeBytes(40) == [0x28, 0, 0, 0];
    assert LeBytes(0) == [0, 0, 0, 0];
  }

  /** A word of four zero bytes is zero. */
  lemma ZeroWord(p: seq<bv8>, i: nat)
    requires i + 4 <= |p| && p[i] == 0 && p[i + 1] == 0 && p[i + 2] == 0 && p[i + 3] == 0
    ensures WordAt(p, i) == 0
  {
  }

  /** The words of the padded "hello" block. */
  lemma HelloPad(m: seq<bv8>)
    requires m == Hello
    ensures |Pad(m)| == 64 && WordsOf(Pad(m)) == HelloBlock
  {
    var p := Pad(m);
    HelloPadBytes(m);
    HelloOuterWords(p);
    HelloZeroWords(p);
  }

  /** The first two and the last two words of the padded "hello" block. */
  lemma HelloOuterWords(p: seq<bv8>)
    requires |p| == 64 && p[..5] == [0x68, 0x65, 0x6c, 0x6c, 0x6f] && p[5] == 0x80
    requires forall i :: 5 < i < 56 ==> p[i] == 0
    requires p[56..] == [0x28, 0, 0, 0, 0, 0, 0, 0]
    ensures WordsOf(p)[0] == 0x6c6c6568 && WordsOf(p)[1] == 0x806f
    ensures WordsOf(p)[14] == 0x28 && WordsOf(p)[15] == 0
  {
    HelloFrontWords(p);
    HelloBackWords(p);
  }

  /** Words 0 and 1 hold "hell", then "o" and 0x80. */
  lemma HelloFrontWords(p: seq<bv8>)
    requires |p| == 64 && p[..5] == [0x68, 0x65, 0x6c, 0x6c, 0x6f] && p[5] == 0x80
    requires forall i :: 5 < i < 56 ==> p[i] == 0
    requires p[56..] == [0x28, 0, 0, 0, 0, 0, 0, 0]
    ensures WordsOf(p)[0] == 0x6c6c6568 && WordsOf(p)[1] == 0x806f
  {
    WordsOfAt(p, 0);
    assert p[0] == 0x68 && p[1] == 0x65 && p[2] == 0x6c && p[3] == 0x6c;
    WordsOfAt(p, 1);
    assert p[4] == 0x6f && p[6] == 0 && p[7] == 0;
  }

  /** Words 14 and 15 hold the bit length 40. */
  lemma HelloBackWords(p: seq<bv8>)
    requires |p| == 64 && p[..5] == [0x68, 0x65, 0x6c, 0x6c, 0x6f] && p[5] == 0x80
    requires forall i :: 5 < i < 56 ==> p[i] == 0
    requires p[56..] == [0x28, 0, 0, 0, 0, 0, 0, 0]
    ensures WordsOf(p)[14] == 0x28 && WordsOf(p)[15] == 0
  {
    WordsOfAt(p, 14);
    assert p[56] == 0x28 && p[57] == 0 && p[58] == 0 && p[59] == 0;
    WordsOfAt(p, 15);
    ZeroWord(p, 60);
  }

  /** Words 2 to 13 are zero padding. */
  lemma HelloZeroWords(p: seq<bv8>)
    requires |p| == 64 && p[..5] == [0x68, 0x65, 0x6c, 0x6c, 0x6f] && p[5] == 0x80
    requires forall i :: 5 < i < 56 ==> p[i] == 0
    requires p[56..] == [0x28, 0, 0, 0, 0, 0, 0, 0]
    ensures forall j :: 2 <= j < 14 ==> WordsOf(p)[j] == 0
  {
    WordsOfAt(p, 2);
    ZeroWord(p, 8);
    WordsOfAt(p, 3);
    ZeroWord(p, 12);
    WordsOfAt(p, 4);
    ZeroWord(p, 16);
    WordsOfAt(p, 5);
    ZeroWord(p, 20);
    WordsOfAt(p, 6);
    ZeroWord(p, 24);
    WordsOfAt(p, 7);
    ZeroWord(p, 28);
    WordsOfAt(p, 8);
    ZeroWord(p, 32);
    WordsOfAt(p, 9);
    ZeroWord(p, 36);
    WordsOfAt(p, 10);
    ZeroWord(p, 40);
    WordsOfAt(p, 11);
    ZeroWord(p, 44);
    WordsOfAt(p, 12);
    ZeroWord(p, 48);
    WordsOfAt(p, 13);
    ZeroWord(p, 52);
  }

  /** The MD5 of "hello" as the four state words. */
  lemma HelloDigest(m: seq<bv8>)
    requires m == Hello
    ensures Md5(m) == Regs(0x2a40415d, 0x762a4bbc, 0x919d71b9, 0x92c51710)
  {
    HelloPad(m);
    FoldOne(IV, Pad(m));
    HelloRounds(WordsOf(Pad(m)));
  }

  /** Four words flatten to their bytes in order. */
  lemma FlattenRegs(r: Regs)
    ensures Flatten(ToSeq(r)) == LeBytes(r.a) + (LeBytes(r.b) + (LeBytes(r.c) + LeBytes(r.d)))
  {
    assert Flatten([r.d]) == LeBytes(r.d) + Flatten([]);
    assert Flatten([r.c, r.d]) == LeBytes(r.c) + Flatten([r.d]);
    assert Flatten([r.b, r.c, r.d]) == LeBytes(r.b) + Flatten([r.c, r.d]);
    assert Flatten(ToSeq(r)) == LeBytes(r.a) + Flatten([r.b, r.c, r.d]);
  }

  /** Four state words print as the hex of each word in turn. */
  lemma HexDigestWords(r: Regs)
    ensures HexDigest(ToSeq(r)) == Hex(LeBytes(r.a)) + Hex(LeBytes(r.b)) + Hex(LeBytes(r.c)) + Hex(LeBytes(r.d))
  {
    FlattenRegs(r);
    HexConcat(LeBytes(r.a), LeBytes(r.b) + (LeBytes(r.c) + LeBytes(r.d)));
    HexConcat(LeBytes(r.b), LeBytes(r.c) + LeBytes(r.d));
    HexConcat(LeBytes(r.c), LeBytes(r.d));
  }

  /** Four bytes print as the hex of each byte in turn. */
  lemma HexFour(bs: seq<bv8>)
    requires |bs| == 4
    ensures Hex(bs) == HexByte(bs[0]) + HexByte(bs[1]) + HexByte(bs[2]) + HexByte(bs[3])
  {
    assert Hex(bs[3..]) == HexByte(bs[3]) + Hex(bs[4..]);
    assert Hex(bs[2..]) == HexByte(bs[2]) + Hex(bs[3..]);
    assert Hex(bs[1..]) == HexByte(bs[1]) + Hex(bs[2..]);
  }

  /** Word 0 of the digest prints as "5d41402a". */
  lemma HelloWord0(w: bv32)
    requires w == 0x2a40415d
    ensures Hex(LeBytes(w)) == "5d41402a"
  {
    HexFour(LeBytes(w));
    assert LeBytes(w) == [0x5d, 0x41, 0x40, 0x2a];
    assert HexByte(0x5d) == "5d";
    assert HexByte(0x41) == "41";
    assert HexByte(0x40) == "40";
    assert HexByte(0x2a) == "2a";
  }

  /** Word 1 of the digest prints as "bc4b2a76". */
  lemma HelloWord1(w: bv32)
    requires w == 0x762a4bbc
    ensures Hex(LeBytes(w)) == "bc4b2a76"
  {
    HexFour(LeBytes(w));
    assert LeBytes(w) == [0xbc, 0x4b, 0x2a, 0x76];
    assert HexByte(0xbc) == "bc";
    assert HexByte(0x4b) == "4b";
    assert HexByte(0x2a) == "2a";
    assert HexByte(0x76) == "76";
  }

  /** Word 2 of the digest prints as "b9719d91". */
  lemma HelloWord2(w: bv32)
    requires w == 0x919d71b9
    ensures Hex(LeBytes(w)) == "b9719d91"
  {
    HexFour(LeBytes(w));
    assert LeBytes(w) == [0xb9, 0x71, 0x9d, 0x91];
    assert HexByte(0xb9) == "b9";
    assert HexByte(0x71) == "71";
    assert HexByte(0x9d) == "9d";
    assert HexByte(0x91) == "91";
  }

  /** Word 3 of the digest prints as "1017c592". */
  lemma HelloWord3(w: bv32)
    requires w == 0x92c51710
    ensures Hex(LeBytes(w)) == "1017c592"
  {
    HexFour(LeBytes(w));
    assert LeBytes(w) == [0x10, 0x17, 0xc5, 0x92];
    assert HexByte(0x10) == "10";
    assert HexByte(0x17) == "17";
    assert HexByte(0xc5) == "c5";
    assert HexByte(0x92) == "92";
  }

  /** Those four state words print as the expected digest. */
  lemma HelloDigestPrints(r: Regs)
    requires r == Regs(0x2a40415d, 0x762a4bbc, 0x919d71b9, 0x92c51710)
    ensures HexDigest(ToSeq(r)) == "5d41402abc4b2a76b9719d911017c592"
  {
    HexDigestWords(r);
    HelloWord0(r.a);
    HelloWord1(r.b);
    HelloWord2(r.c);
    HelloWord3(r.d);
    HelloJoin(Hex(LeBytes(r.a)), Hex(LeBytes(r.b)), Hex(LeBytes(r.c)), Hex(LeBytes(r.d)));
  }

  /** The four printed words joined. */
  lemma HelloJoin(s0: string, s1: string, s2: string, s3: string)
    requires s0 == "5d41402a"
    requires s1 == "bc4b2a76"
    requires s2 == "b9719d91"
    requires s3 == "1017c592"
    ensures s0 + s1 + s2 + s3 == "5d41402abc4b2a76b9719d911017c592"
  {
  }

  /** The printed MD5 of "hello". */
  lemma HelloHex(m: seq<bv8>)
    requires m == Hello
    ensures HexDigest(ToSeq(Md5(m))) == "5d41402abc4b2a76b9719d911017c592"
  {
    HelloDigest(m);
    HelloDigestPrints(Md5(m));
  }

  /** The units of the string "hello" are ASCII, so both conversions give its five bytes. */
  lemma HelloText(s: seq<CodeUnit>)
    requires s == [0x68, 0x65, 0x6c, 0x6c, 0x6f]
    ensures Encode(s) == Complete(Hello) && AsciiBytes(s) == Hello
  {
    AsciiAgrees(s);
    assert AsciiBytes(s) == Hello by {
      forall i | 0 <= i < 5
        ensures AsciiBytes(s)[i] == Hello[i]
      {
        AsciiBytesAt(s, i);
      }
    }
  }

  /** The self-check of the source: hashing the Unicode string "hello"
      prints 5d41402abc4b2a76b9719d911017c592. */
  lemma SelfTest(s: seq<CodeUnit>)
    requires s == [0x68, 0x65, 0x6c, 0x6c, 0x6f]
    ensures Encode(s).Complete?
    ensures HexDigest(ToSeq(Md5(Encode(s).bytes))) == "5d41402abc4b2a76b9719d911017c592"
  {
    HelloText(s);
    HelloHex(Hello);
  }
}
