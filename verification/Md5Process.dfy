/** md5_process: the block transformation with its 64 steps written out. */
module Md5Process {
  import opened Rfc1321

  const T_MASK: Word := 0xffffffff

  const T1: Word := T_MASK ^ 0x28955b87
  const T2: Word := T_MASK ^ 0x173848a9
  const T3: Word := 0x242070db
  const T4: Word := T_MASK ^ 0x3e423111
  const T5: Word := T_MASK ^ 0x0a83f050
  const T6: Word := 0x4787c62a
  const T7: Word := T_MASK ^ 0x57cfb9ec
  const T8: Word := T_MASK ^ 0x02b96afe
  const T9: Word := 0x698098d8
  const T10: Word := T_MASK ^ 0x74bb0850
  const T11: Word := T_MASK ^ 0x0000a44e
  const T12: Word := T_MASK ^ 0x76a32841
  const T13: Word := 0x6b901122
  const T14: Word := T_MASK ^ 0x02678e6c
  const T15: Word := T_MASK ^ 0x5986bc71
  const T16: Word := 0x49b40821
  const T17: Word := T_MASK ^ 0x09e1da9d
  const T18: Word := T_MASK ^ 0x3fbf4cbf
  const T19: Word := 0x265e5a51
  const T20: Word := T_MASK ^ 0x16493855
  const T21: Word := T_MASK ^ 0x29d0efa2
  const T22: Word := 0x02441453
  const T23: Word := T_MASK ^ 0x275e197e
  const T24: Word := T_MASK ^ 0x182c0437
  const T25: Word := 0x21e1cde6
  const T26: Word := T_MASK ^ 0x3cc8f829
  const T27: Word := T_MASK ^ 0x0b2af278
  const T28: Word := 0x455a14ed
  const T29: Word := T_MASK ^ 0x561c16fa
  const T30: Word := T_MASK ^ 0x03105c07
  const T31: Word := 0x676f02d9
  const T32: Word := T_MASK ^ 0x72d5b375
  const T33: Word := T_MASK ^ 0x0005c6bd
  const T34: Word := T_MASK ^ 0x788e097e
  const T35: Word := 0x6d9d6122
  const T36: Word := T_MASK ^ 0x021ac7f3
  const T37: Word := T_MASK ^ 0x5b4115bb
  const T38: Word := 0x4bdecfa9
  const T39: Word := T_MASK ^ 0x0944b49f
  const T40: Word := T_MASK ^ 0x4140438f
  const T41: Word := 0x289b7ec6
  const T42: Word := T_MASK ^ 0x155ed805
  const T43: Word := T_MASK ^ 0x2b10cf7a
  const T44: Word := 0x04881d05
  const T45: Word := T_MASK ^ 0x262b2fc6
  const T46: Word := T_MASK ^ 0x1924661a
  const T47: Word := 0x1fa27cf8
  const T48: Word := T_MASK ^ 0x3b53a99a
  const T49: Word := T_MASK ^ 0x0bd6ddbb
  const T50: Word := 0x432aff97
  const T51: Word := T_MASK ^ 0x546bdc58
  const T52: Word := T_MASK ^ 0x036c5fc6
  const T53: Word := 0x655b59c3
  const T54: Word := T_MASK ^ 0x70f3336d
  const T55: Word := T_MASK ^ 0x00100b82
  const T56: Word := T_MASK ^ 0x7a7ba22e
  const T57: Word := 0x6fa87e4f
  const T58: Word := T_MASK ^ 0x01d3191f
  const T59: Word := T_MASK ^ 0x5cfebceb
  const T60: Word := 0x4e0811a1
  const T61: Word := T_MASK ^ 0x08ac817d
  const T62: Word := T_MASK ^ 0x42c50dca
  const T63: Word := 0x2ad7d2bb
  const T64: Word := T_MASK ^ 0x14792c6e

  /** What SET assigns, given the value of the round's auxiliary function. */
  function Set(a: Word, f: Word, x: Word, ti: Word, s: nat, b: Word): Word
    requires 0 < s < 32
  {
    var t := a + f + x + ti;
    RotateLeft(t, s) + b
  }

  /** The macro adds b last, the standard first. */
  lemma OperationAsSet(a: Word, b: Word, f: Word, x: Word, s: nat, t: Word)
    requires 0 < s < 32
    ensures Set(a, f, x, t, s, b) == Operation(a, b, f, x, s, t)
  {
    hide RotateLeft;
  }

  lemma StepF(start: Regs, x: seq<Word>, i: nat, a: Word, b: Word, c: Word, d: Word)
    requires |x| == 16 && 0 <= i < 16 && Steps(start, x, i) == Regs(a, b, c, d)
    ensures Steps(start, x, i + 1) == Regs(d, Operation(a, b, F(b, c, d), x[WordIndex(i)], Shift(i), Sine(i)), b, c)
  {
    hide Operation;
    hide F;
    hide G;
    hide H;
    hide I;
    hide Sine;
    hide WordIndex;
    hide Shift;
  }

  /** SET in round 1: step i gives the first register its new value. */
  method SetF(ghost start: Regs, x: seq<Word>, ghost i: nat, a: Word, b: Word, c: Word, d: Word, k: nat, s: nat,
              ti: Word)
    returns (r: Word)
    requires |x| == 16 && 0 <= i < 16 && Steps(start, x, i) == Regs(a, b, c, d)
    requires k == WordIndex(i) && s == Shift(i) && ti == Sine(i)
    ensures Steps(start, x, i + 1) == Regs(d, r, b, c)
  {
    hide *;
    StepF(start, x, i, a, b, c, d);
    OperationAsSet(a, b, F(b, c, d), x[k], s, ti);
    r := Set(a, F(b, c, d), x[k], ti, s, b);
  }

  lemma StepG(start: Regs, x: seq<Word>, i: nat, a: Word, b: Word, c: Word, d: Word)
    requires |x| == 16 && 16 <= i < 32 && Steps(start, x, i) == Regs(a, b, c, d)
    ensures Steps(start, x, i + 1) == Regs(d, Operation(a, b, G(b, c, d), x[WordIndex(i)], Shift(i), Sine(i)), b, c)
  {
    hide Operation;
    hide F;
    hide G;
    hide H;
    hide I;
    hide Sine;
    hide WordIndex;
    hide Shift;
  }

  /** SET in round 2: step i gives the first register its new value. */
  method SetG(ghost start: Regs, x: seq<Word>, ghost i: nat, a: Word, b: Word, c: Word, d: Word, k: nat, s: nat,
              ti: Word)
    returns (r: Word)
    requires |x| == 16 && 16 <= i < 32 && Steps(start, x, i) == Regs(a, b, c, d)
    requires k == WordIndex(i) && s == Shift(i) && ti == Sine(i)
    ensures Steps(start, x, i + 1) == Regs(d, r, b, c)
  {
    hide *;
    StepG(start, x, i, a, b, c, d);
    OperationAsSet(a, b, G(b, c, d), x[k], s, ti);
    r := Set(a, G(b, c, d), x[k], ti, s, b);
  }

  lemma StepH(start: Regs, x: seq<Word>, i: nat, a: Word, b: Word, c: Word, d: Word)
    requires |x| == 16 && 32 <= i < 48 && Steps(start, x, i) == Regs(a, b, c, d)
    ensures Steps(start, x, i + 1) == Regs(d, Operation(a, b, H(b, c, d), x[WordIndex(i)], Shift(i), Sine(i)), b, c)
  {
    hide Operation;
    hide F;
    hide G;
    hide H;
    hide I;
    hide Sine;
    hide WordIndex;
    hide Shift;
  }

  /** SET in round 3: step i gives the first register its new value. */
  method SetH(ghost start: Regs, x: seq<Word>, ghost i: nat, a: Word, b: Word, c: Word, d: Word, k: nat, s: nat,
              ti: Word)
    returns (r: Word)
    requires |x| == 16 && 32 <= i < 48 && Steps(start, x, i) == Regs(a, b, c, d)
    requires k == WordIndex(i) && s == Shift(i) && ti == Sine(i)
    ensures Steps(start, x, i + 1) == Regs(d, r, b, c)
  {
    hide *;
    StepH(start, x, i, a, b, c, d);
    OperationAsSet(a, b, H(b, c, d), x[k], s, ti);
    r := Set(a, H(b, c, d), x[k], ti, s, b);
  }

  lemma StepI(start: Regs, x: seq<Word>, i: nat, a: Word, b: Word, c: Word, d: Word)
    requires |x| == 16 && 48 <= i < 64 && Steps(start, x, i) == Regs(a, b, c, d)
    ensures Steps(start, x, i + 1) == Regs(d, Operation(a, b, I(b, c, d), x[WordIndex(i)], Shift(i), Sine(i)), b, c)
  {
    hide Operation;
    hide F;
    hide G;
    hide H;
    hide I;
    hide Sine;
    hide WordIndex;
    hide Shift;
  }

  /** SET in round 4: step i gives the first register its new value. */
  method SetI(ghost start: Regs, x: seq<Word>, ghost i: nat, a: Word, b: Word, c: Word, d: Word, k: nat, s: nat,
              ti: Word)
    returns (r: Word)
    requires |x| == 16 && 48 <= i < 64 && Steps(start, x, i) == Regs(a, b, c, d)
    requires k == WordIndex(i) && s == Shift(i) && ti == Sine(i)
    ensures Steps(start, x, i + 1) == Regs(d, r, b, c)
  {
    hide *;
    StepI(start, x, i, a, b, c, d);
    OperationAsSet(a, b, I(b, c, d), x[k], s, ti);
    r := Set(a, I(b, c, d), x[k], ti, s, b);
  }

  /** The word, rotation and constant of each step of round 1 are those of the standard. */
  lemma Constants1()
    ensures WordIndex(0) == 0 && Shift(0) == 7 && Sine(0) == T1
    ensures WordIndex(1) == 1 && Shift(1) == 12 && Sine(1) == T2
    ensures WordIndex(2) == 2 && Shift(2) == 17 && Sine(2) == T3
    ensures WordIndex(3) == 3 && Shift(3) == 22 && Sine(3) == T4
    ensures WordIndex(4) == 4 && Shift(4) == 7 && Sine(4) == T5
    ensures WordIndex(5) == 5 && Shift(5) == 12 && Sine(5) == T6
    ensures WordIndex(6) == 6 && Shift(6) == 17 && Sine(6) == T7
    ensures WordIndex(7) == 7 && Shift(7) == 22 && Sine(7) == T8
    ensures WordIndex(8) == 8 && Shift(8) == 7 && Sine(8) == T9
    ensures WordIndex(9) == 9 && Shift(9) == 12 && Sine(9) == T10
    ensures WordIndex(10) == 10 && Shift(10) == 17 && Sine(10) == T11
    ensures WordIndex(11) == 11 && Shift(11) == 22 && Sine(11) == T12
    ensures WordIndex(12) == 12 && Shift(12) == 7 && Sine(12) == T13
    ensures WordIndex(13) == 13 && Shift(13) == 12 && Sine(13) == T14
    ensures WordIndex(14) == 14 && Shift(14) == 17 && Sine(14) == T15
    ensures WordIndex(15) == 15 && Shift(15) == 22 && Sine(15) == T16
  {
  }

  /** The word, rotation and constant of each step of round 2 are those of the standard. */
  lemma Constants2()
    ensures WordIndex(16) == 1 && Shift(16) == 5 && Sine(16) == T17
    ensures WordIndex(17) == 6 && Shift(17) == 9 && Sine(17) == T18
    ensures WordIndex(18) == 11 && Shift(18) == 14 && Sine(18) == T19
    ensures WordIndex(19) == 0 && Shift(19) == 20 && Sine(19) == T20
    ensures WordIndex(20) == 5 && Shift(20) == 5 && Sine(20) == T21
    ensures WordIndex(21) == 10 && Shift(21) == 9 && Sine(21) == T22
    ensures WordIndex(22) == 15 && Shift(22) == 14 && Sine(22) == T23
    ensures WordIndex(23) == 4 && Shift(23) == 20 && Sine(23) == T24
    ensures WordIndex(24) == 9 && Shift(24) == 5 && Sine(24) == T25
    ensures WordIndex(25) == 14 && Shift(25) == 9 && Sine(25) == T26
    ensures WordIndex(26) == 3 && Shift(26) == 14 && Sine(26) == T27
    ensures WordIndex(27) == 8 && Shift(27) == 20 && Sine(27) == T28
    ensures WordIndex(28) == 13 && Shift(28) == 5 && Sine(28) == T29
    ensures WordIndex(29) == 2 && Shift(29) == 9 && Sine(29) == T30
    ensures WordIndex(30) == 7 && Shift(30) == 14 && Sine(30) == T31
    ensures WordIndex(31) == 12 && Shift(31) == 20 && Sine(31) == T32
  {
  }

  /** The word, rotation and constant of each step of round 3 are those of the standard. */
  lemma Constants3()
    ensures WordIndex(32) == 5 && Shift(32) == 4 && Sine(32) == T33
    ensures WordIndex(33) == 8 && Shift(33) == 11 && Sine(33) == T34
    ensures WordIndex(34) == 11 && Shift(34) == 16 && Sine(34) == T35
    ensures WordIndex(35) == 14 && Shift(35) == 23 && Sine(35) == T36
    ensures WordIndex(36) == 1 && Shift(36) == 4 && Sine(36) == T37
    ensures WordIndex(37) == 4 && Shift(37) == 11 && Sine(37) == T38
    ensures WordIndex(38) == 7 && Shift(38) == 16 && Sine(38) == T39
    ensures WordIndex(39) == 10 && Shift(39) == 23 && Sine(39) == T40
    ensures WordIndex(40) == 13 && Shift(40) == 4 && Sine(40) == T41
    ensures WordIndex(41) == 0 && Shift(41) == 11 && Sine(41) == T42
    ensures WordIndex(42) == 3 && Shift(42) == 16 && Sine(42) == T43
    ensures WordIndex(43) == 6 && Shift(43) == 23 && Sine(43) == T44
    ensures WordIndex(44) == 9 && Shift(44) == 4 && Sine(44) == T45
    ensures WordIndex(45) == 12 && Shift(45) == 11 && Sine(45) == T46
    ensures WordIndex(46) == 15 && Shift(46) == 16 && Sine(46) == T47
    ensures WordIndex(47) == 2 && Shift(47) == 23 && Sine(47) == T48
  {
  }

  /** The word, rotation and constant of each step of round 4 are those of the standard. */
  lemma Constants4()
    ensures WordIndex(48) == 0 && Shift(48) == 6 && Sine(48) == T49
    ensures WordIndex(49) == 7 && Shift(49) == 10 && Sine(49) == T50
    ensures WordIndex(50) == 14 && Shift(50) == 15 && Sine(50) == T51
    ensures WordIndex(51) == 5 && Shift(51) == 21 && Sine(51) == T52
    ensures WordIndex(52) == 12 && Shift(52) == 6 && Sine(52) == T53
    ensures WordIndex(53) == 3 && Shift(53) == 10 && Sine(53) == T54
    ensures WordIndex(54) == 10 && Shift(54) == 15 && Sine(54) == T55
    ensures WordIndex(55) == 1 && Shift(55) == 21 && Sine(55) == T56
    ensures WordIndex(56) == 8 && Shift(56) == 6 && Sine(56) == T57
    ensures WordIndex(57) == 15 && Shift(57) == 10 && Sine(57) == T58
    ensures WordIndex(58) == 6 && Shift(58) == 15 && Sine(58) == T59
    ensures WordIndex(59) == 13 && Shift(59) == 21 && Sine(59) == T60
    ensures WordIndex(60) == 4 && Shift(60) == 6 && Sine(60) == T61
    ensures WordIndex(61) == 11 && Shift(61) == 10 && Sine(61) == T62
    ensures WordIndex(62) == 2 && Shift(62) == 15 && Sine(62) == T63
    ensures WordIndex(63) == 9 && Shift(63) == 21 && Sine(63) == T64
  {
  }

  method Round1(regs: Regs, x: seq<Word>, ghost start: Regs) returns (r: Regs)
    requires |x| == 16 && regs == Steps(start, x, 0)
    ensures r == Steps(start, x, 16)
  {
    hide *;
    Constants1();
    var a, b, c, d := regs.a, regs.b, regs.c, regs.d;
    a := SetF(start, x, 0, a, b, c, d, 0, 7, T1);
    d := SetF(start, x, 1, d, a, b, c, 1, 12, T2);
    c := SetF(start, x, 2, c, d, a, b, 2, 17, T3);
    b := SetF(start, x, 3, b, c, d, a, 3, 22, T4);
    a := SetF(start, x, 4, a, b, c, d, 4, 7, T5);
    d := SetF(start, x, 5, d, a, b, c, 5, 12, T6);
    c := SetF(start, x, 6, c, d, a, b, 6, 17, T7);
    b := SetF(start, x, 7, b, c, d, a, 7, 22, T8);
    a := SetF(start, x, 8, a, b, c, d, 8, 7, T9);
    d := SetF(start, x, 9, d, a, b, c, 9, 12, T10);
    c := SetF(start, x, 10, c, d, a, b, 10, 17, T11);
    b := SetF(start, x, 11, b, c, d, a, 11, 22, T12);
    a := SetF(start, x, 12, a, b, c, d, 12, 7, T13);
    d := SetF(start, x, 13, d, a, b, c, 13, 12, T14);
    c := SetF(start, x, 14, c, d, a, b, 14, 17, T15);
    b := SetF(start, x, 15, b, c, d, a, 15, 22, T16);
    r := Regs(a, b, c, d);
  }

  method Round2(regs: Regs, x: seq<Word>, ghost start: Regs) returns (r: Regs)
    requires |x| == 16 && regs == Steps(start, x, 16)
    ensures r == Steps(start, x, 32)
  {
    hide *;
    Constants2();
    var a, b, c, d := regs.a, regs.b, regs.c, regs.d;
    a := SetG(start, x, 16, a, b, c, d, 1, 5, T17);
    d := SetG(start, x, 17, d, a, b, c, 6, 9, T18);
    c := SetG(start, x, 18, c, d, a, b, 11, 14, T19);
    b := SetG(start, x, 19, b, c, d, a, 0, 20, T20);
    a := SetG(start, x, 20, a, b, c, d, 5, 5, T21);
    d := SetG(start, x, 21, d, a, b, c, 10, 9, T22);
    c := SetG(start, x, 22, c, d, a, b, 15, 14, T23);
    b := SetG(start, x, 23, b, c, d, a, 4, 20, T24);
    a := SetG(start, x, 24, a, b, c, d, 9, 5, T25);
    d := SetG(start, x, 25, d, a, b, c, 14, 9, T26);
    c := SetG(start, x, 26, c, d, a, b, 3, 14, T27);
    b := SetG(start, x, 27, b, c, d, a, 8, 20, T28);
    a := SetG(start, x, 28, a, b, c, d, 13, 5, T29);
    d := SetG(start, x, 29, d, a, b, c, 2, 9, T30);
    c := SetG(start, x, 30, c, d, a, b, 7, 14, T31);
    b := SetG(start, x, 31, b, c, d, a, 12, 20, T32);
    r := Regs(a, b, c, d);
  }

  method Round3(regs: Regs, x: seq<Word>, ghost start: Regs) returns (r: Regs)
    requires |x| == 16 && regs == Steps(start, x, 32)
    ensures r == Steps(start, x, 48)
  {
    hide *;
    Constants3();
    var a, b, c, d := regs.a, regs.b, regs.c, regs.d;
    a := SetH(start, x, 32, a, b, c, d, 5, 4, T33);
    d := SetH(start, x, 33, d, a, b, c, 8, 11, T34);
    c := SetH(start, x, 34, c, d, a, b, 11, 16, T35);
    b := SetH(start, x, 35, b, c, d, a, 14, 23, T36);
    a := SetH(start, x, 36, a, b, c, d, 1, 4, T37);
    d := SetH(start, x, 37, d, a, b, c, 4, 11, T38);
    c := SetH(start, x, 38, c, d, a, b, 7, 16, T39);
    b := SetH(start, x, 39, b, c, d, a, 10, 23, T40);
    a := SetH(start, x, 40, a, b, c, d, 13, 4, T41);
    d := SetH(start, x, 41, d, a, b, c, 0, 11, T42);
    c := SetH(start, x, 42, c, d, a, b, 3, 16, T43);
    b := SetH(start, x, 43, b, c, d, a, 6, 23, T44);
    a := SetH(start, x, 44, a, b, c, d, 9, 4, T45);
    d := SetH(start, x, 45, d, a, b, c, 12, 11, T46);
    c := SetH(start, x, 46, c, d, a, b, 15, 16, T47);
    b := SetH(start, x, 47, b, c, d, a, 2, 23, T48);
    r := Regs(a, b, c, d);
  }

  method Round4(regs: Regs, x: seq<Word>, ghost start: Regs) returns (r: Regs)
    requires |x| == 16 && regs == Steps(start, x, 48)
    ensures r == Steps(start, x, 64)
  {
    hide *;
    Constants4();
    var a, b, c, d := regs.a, regs.b, regs.c, regs.d;
    a := SetI(start, x, 48, a, b, c, d, 0, 6, T49);
    d := SetI(start, x, 49, d, a, b, c, 7, 10, T50);
    c := SetI(start, x, 50, c, d, a, b, 14, 15, T51);
    b := SetI(start, x, 51, b, c, d, a, 5, 21, T52);
    a := SetI(start, x, 52, a, b, c, d, 12, 6, T53);
    d := SetI(start, x, 53, d, a, b, c, 3, 10, T54);
    c := SetI(start, x, 54, c, d, a, b, 10, 15, T55);
    b := SetI(start, x, 55, b, c, d, a, 1, 21, T56);
    a := SetI(start, x, 56, a, b, c, d, 8, 6, T57);
    d := SetI(start, x, 57, d, a, b, c, 15, 10, T58);
    c := SetI(start, x, 58, c, d, a, b, 6, 15, T59);
    b := SetI(start, x, 59, b, c, d, a, 13, 21, T60);
    a := SetI(start, x, 60, a, b, c, d, 4, 6, T61);
    d := SetI(start, x, 61, d, a, b, c, 11, 10, T62);
    c := SetI(start, x, 62, c, d, a, b, 2, 15, T63);
    b := SetI(start, x, 63, b, c, d, a, 9, 21, T64);
    r := Regs(a, b, c, d);
  }

  /** The words of a block, read low-order byte first. */
  method ReadWords(data: seq<Byte>) returns (x: seq<Word>)
    requires |data| == 64
    ensures x == Decode(data)
  {
    hide DecodeWord;
    x := [];
    for i := 0 to 16
      invariant |x| == i && forall k :: 0 <= k < i ==> x[k] == DecodeWord(data[4 * k..4 * k + 4])
    {
      var word := ReadWord(data[4 * i..4 * i + 4]);
      x := x + [word];
    }
  }

  method ReadWord(xp: seq<Byte>) returns (word: Word)
    requires |xp| == 4
    ensures word == DecodeWord(xp)
  {
    word := (xp[0] as Word) + ((xp[1] as Word) << 8) + ((xp[2] as Word) << 16) + ((xp[3] as Word) << 24);
  }

  /** One block. */
  method Process(abcd: Regs, data: seq<Byte>) returns (r: Regs)
    requires |data| == 64
    ensures r == Block(abcd, data)
  {
    hide *;
    BlockIsSum(abcd, data);
    var x := ReadWords(data);
    NoSteps(abcd, x);
    r := Round1(abcd, x, abcd);
    r := Round2(r, x, abcd);
    r := Round3(r, x, abcd);
    r := Round4(r, x, abcd);
    // Add what the registers held at the start
    r := Plus(abcd, r);
  }

  lemma BlockIsSum(r: Regs, block: seq<Byte>)
    requires |block| == 64
    ensures Block(r, block) == Plus(r, Steps(r, Decode(block), 64))
  {
    hide Steps;
    hide Decode;
    hide Plus;
  }

  lemma NoSteps(r: Regs, x: seq<Word>)
    requires |x| == 16
    ensures Steps(r, x, 0) == r
  {
  }
}
