/** Messages and digests of appendix A.5 of RFC 1321, reached step by step. */
module Rfc1321TestSuite {
  import opened Rfc1321

  /** The registers after the first n steps. */
  ghost predicate Reached(start: Regs, x: seq<Word>, n: nat, r: Regs) {
    |x| == 16 && n <= 64 && Steps(start, x, n) == r
  }

  lemma NextReached(start: Regs, x: seq<Word>, n: nat, r: Regs)
    requires Reached(start, x, n, r) && n < 64
    ensures |x| == 16 && Reached(start, x, n + 1, Step(r, x, n))
  {
    hide Step;
  }

  lemma OneStep(r: Regs, x: seq<Word>, i: nat)
    requires |x| == 16 && i < 64
    ensures Step(r, x, i) ==
            Regs(r.d, Operation(r.a, r.b, Mix(i, r.b, r.c, r.d), x[WordIndex(i)], Shift(i), Sine(i)), r.b, r.c)
  {
    hide Mix;
    hide WordIndex;
    hide Sine;
    hide Operation;
    hide Shift;
  }

  /** Step i on known registers: the word, the rotation and the constant used, the value of the auxiliary function and
      the new register are written out. */
  lemma Next(start: Regs, x: seq<Word>, n: nat, i: nat, r: Regs, k: nat, s: nat, t: Word, f: Word, b: Word)
    returns (next: Regs)
    requires n == i < 64 && Reached(start, x, n, r)
    requires |x| == 16 && k == WordIndex(i)
    requires s == Shift(i)
    requires t == Sine(i)
    requires f == Mix(i, r.b, r.c, r.d)
    requires b == Operation(r.a, r.b, f, x[k], s, t)
    ensures next == Regs(r.d, b, r.b, r.c) && Reached(start, x, n + 1, next)
  {
    hide *;
    NextReached(start, x, n, r);
    OneStep(r, x, i);
    next := Regs(r.d, b, r.b, r.c);
  }

  lemma NoSteps(start: Regs, x: seq<Word>)
    requires |x| == 16
    ensures Reached(start, x, 0, start)
  {
  }

  lemma InitialIs()
    ensures INITIAL == Regs(0x67452301, 0xefcdab89, 0x98badcfe, 0x10325476)
  {
  }

  // ---------- bytes and words ----------

  /** Words are decoded low-order byte first. */
  lemma DecodedWord(s: seq<Byte>)
    requires |s| == 4
    ensures var w := DecodeWord(s);
      && w & 0xff == s[0] as Word && (w >> 8) & 0xff == s[1] as Word
      && (w >> 16) & 0xff == s[2] as Word && w >> 24 == s[3] as Word
  {
    assert DecodeWord(s) == (s[0] as Word) + ((s[1] as Word) << 8) + ((s[2] as Word) << 16) + ((s[3] as Word) << 24);
  }

  /** Word k of a block is made of its bytes 4 k to 4 k + 3. */
  lemma DecodedBlock(block: seq<Byte>, k: nat)
    requires |block| == 64 && k < 16
    ensures var w := Decode(block)[k];
      && w & 0xff == block[4 * k] as Word && (w >> 8) & 0xff == block[4 * k + 1] as Word
      && (w >> 16) & 0xff == block[4 * k + 2] as Word && w >> 24 == block[4 * k + 3] as Word
  {
    DecodedWord(block[4 * k..4 * k + 4]);
    hide DecodeWord;
  }

  lemma WordBytes(x: int)
    ensures var s := EncodeLength(x);
      && s[0] == (x % 256) as Byte && s[1] == (x / 0x100 % 256) as Byte
      && s[2] == (x / 0x1_0000 % 256) as Byte && s[3] == (x / 0x100_0000 % 256) as Byte
  {
  }

  lemma LowQuotients(q: nat, y: nat)
    ensures (TWO_32 * q + y) / 0x100 == 0x100_0000 * q + y / 0x100
    ensures (TWO_32 * q + y) / 0x1_0000 == 0x1_0000 * q + y / 0x1_0000
    ensures (TWO_32 * q + y) / 0x100_0000 == 0x100 * q + y / 0x100_0000
  {
  }

  lemma SameByte(a: int, b: int, k: int)
    requires a == 0x100 * k + b
    ensures a % 256 == b % 256
  {
  }

  lemma LowBytes(x: nat)
    ensures var y := x % TWO_32;
      && y % 256 == x % 256 && y / 0x100 % 256 == x / 0x100 % 256
      && y / 0x1_0000 % 256 == x / 0x1_0000 % 256 && y / 0x100_0000 % 256 == x / 0x100_0000 % 256
  {
    var q, y := x / TWO_32, x % TWO_32;
    LowQuotients(q, y);
    SameByte(x, y, 0x100_0000 * q);
    SameByte(x / 0x100, y / 0x100, 0x1_0000 * q);
    SameByte(x / 0x1_0000, y / 0x1_0000, 0x100 * q);
    SameByte(x / 0x100_0000, y / 0x100_0000, q);
  }

  lemma Halves(x: nat)
    ensures var y := x % TWO_64;
      && y % TWO_32 == x % TWO_32 && y / TWO_32 == x / TWO_32 % TWO_32
  {
    var q := x / TWO_64;
    assert x == TWO_64 * q + x % TWO_64;
    assert x / TWO_32 == TWO_32 * q + (x % TWO_64) / TWO_32;
  }

  lemma HighBytes(x: nat)
    ensures var h := x / TWO_32;
      && h / 0x100 == x / 0x100_0000_0000 && h / 0x1_0000 == x / 0x1_0000_0000_0000
      && h / 0x100_0000 == x / 0x100_0000_0000_0000
  {
  }

  lemma LengthBytes(x: nat)
    ensures var s := EncodeLength64(x % TWO_64);
      && s[0] == (x % 256) as Byte && s[1] == (x / 0x100 % 256) as Byte
      && s[2] == (x / 0x1_0000 % 256) as Byte && s[3] == (x / 0x100_0000 % 256) as Byte
      && s[4] == (x / 0x1_0000_0000 % 256) as Byte && s[5] == (x / 0x100_0000_0000 % 256) as Byte
      && s[6] == (x / 0x1_0000_0000_0000 % 256) as Byte && s[7] == (x / 0x100_0000_0000_0000 % 256) as Byte
  {
    hide EncodeLength;
    WordBytes(x % TWO_64 % TWO_32);
    WordBytes(x % TWO_64 / TWO_32);
    Halves(x);
    LowBytes(x);
    LowBytes(x / TWO_32);
    HighBytes(x);
  }

  /** Sections 3.1 and 3.2: a single 1 bit, zeros up to eight bytes before the end of a block, and the number of bits,
      low-order byte first. */
  lemma PaddedIs(message: seq<Byte>)
    ensures var p, m, n, bits := Padded(message), |message|, |Padded(message)|, 8 * |message|;
      && n % 64 == 0 && m + 9 <= n < m + 73 && p[..m] == message && p[m] == 0x80
      && (forall i :: m < i < n - 8 ==> p[i] == 0)
      && p[n - 8] == (bits % 256) as Byte && p[n - 7] == (bits / 0x100 % 256) as Byte
      && p[n - 6] == (bits / 0x1_0000 % 256) as Byte && p[n - 5] == (bits / 0x100_0000 % 256) as Byte
      && p[n - 4] == (bits / 0x1_0000_0000 % 256) as Byte && p[n - 3] == (bits / 0x100_0000_0000 % 256) as Byte
      && p[n - 2] == (bits / 0x1_0000_0000_0000 % 256) as Byte
      && p[n - 1] == (bits / 0x100_0000_0000_0000 % 256) as Byte
  {
    var zeros, bits := Zeros((55 - |message|) % 64), 8 * |message|;
    LengthBytes(bits);
    hide EncodeLength64;
    hide Zeros;
    var length := EncodeLength64(bits % TWO_64);
    ZerosAre((55 - |message|) % 64);
    var p := Padded(message);
    PartsAre(message, zeros, length, p);
  }

  lemma ZerosAre(n: nat)
    ensures |Zeros(n)| == n && forall i :: 0 <= i < n ==> Zeros(n)[i] == 0
  {
  }

  lemma PartsAre(message: seq<Byte>, zeros: seq<Byte>, length: seq<Byte>, p: seq<Byte>)
    requires p == message + [0x80] + zeros + length && |length| == 8 && |zeros| == (55 - |message|) % 64
    requires forall i :: 0 <= i < |zeros| ==> zeros[i] == 0
    ensures var m, n := |message|, |p|;
      && n % 64 == 0 && m + 9 <= n < m + 73 && p[..m] == message && p[m] == 0x80
      && (forall i :: m < i < n - 8 ==> p[i] == 0) && forall k :: 0 <= k < 8 ==> p[n - 8 + k] == length[k]
  {
    assert |p| == |message| + 1 + |zeros| + 8;
    assert forall i :: |message| < i < |p| - 8 ==> p[i] == zeros[i - |message| - 1];
  }

  lemma PaddedShort(message: seq<Byte>, bits: Byte)
    requires |message| < 32 && EncodeLength64((8 * |message|) % TWO_64) == [bits, 0, 0, 0, 0, 0, 0, 0]
    ensures var p, m := Padded(message), |message|;
      && |p| == 64 && p[..m] == message && p[m] == 0x80 && p[56] == bits
      && forall i :: m < i < 64 && i != 56 ==> p[i] == 0
  {
    hide EncodeLength64;
    hide Zeros;
    var m := |message|;
    var zeros, length := Zeros((55 - m) % 64), EncodeLength64((8 * m) % TWO_64);
    ZerosAre((55 - m) % 64);
    assert |zeros| == 55 - m;
    var p := message + [0x80] + zeros + length;
    assert Padded(message) == p && |p| == 64;
    assert forall i :: m < i < 56 ==> p[i] == zeros[i - m - 1];
    assert forall i :: 56 <= i < 64 ==> p[i] == length[i - 56];
  }

  /** A message that fits one block. */
  lemma OneBlock(message: seq<Byte>, x: seq<Word>, r: Regs)
    requires |message| <= 55 && |Padded(message)| == 64 && x == Decode(Padded(message)) && Reached(INITIAL, x, 64, r)
    ensures Digest(message) == Encode(Plus(INITIAL, r))
  {
    hide Steps;
    hide Decode;
    hide Padded;
    hide Encode;
    var p := Padded(message);
    assert p[..64] == p && p[64..] == [];
    assert Blocks(INITIAL, p) == Blocks(Block(INITIAL, p), []);
  }

  /** Words of which all but the first and the fifteenth are zero. */
  lemma DecodedMostlyZero(block: seq<Byte>, x: seq<Word>)
    requires |block| == 64 && |x| == 16 && forall i :: 4 <= i < 64 && i != 56 ==> block[i] == 0
    requires DecodeWord(block[..4]) == x[0] && DecodeWord([block[56], 0, 0, 0]) == x[14]
    requires forall k :: 0 < k < 16 && k != 14 ==> x[k] == 0
    ensures Decode(block) == x
  {
    assert DecodeWord([0, 0, 0, 0]) == 0;
    hide DecodeWord;
    forall k | 0 <= k < 16
      ensures Decode(block)[k] == x[k]
    {
      var four := block[4 * k..4 * k + 4];
      assert |four| == 4 && forall i :: 0 <= i < 4 ==> four[i] == block[4 * k + i];
      if k == 0 {
        assert four == block[..4];
      } else if k == 14 {
        assert four == [block[56], 0, 0, 0];
      } else {
        assert four == [0, 0, 0, 0];
      }
    }
  }

  // ---------- the empty message ----------

  const EMPTY: seq<Word> := [0x00000080, 0, 0, 0, 0, 0, 0, 0, 0, 0, 0, 0, 0, 0, 0, 0]

  lemma Empty00(start: Regs, x: seq<Word>, n: nat, r0: Regs) returns (r: Regs)
    requires x == EMPTY && |x| == 16 && n == 0 && Reached(start, x, n, r0)
    requires r0 == Regs(0x67452301, 0xefcdab89, 0x98badcfe, 0x10325476)
    ensures Reached(start, x, n + 4, r) && r == Regs(0xa5202774, 0x1b163203, 0xe7f06b23, 0xf59592dd)
  {
    hide Reached;
    r := r0;
    assert RotateLeft(0xd76aa4f7, 7) == 0xb5527beb;
    r := Next(start, x, n, 0, r, 0, 7, 0xd76aa478, 0x98badcfe, 0xa5202774);
    assert RotateLeft(0xb6950756, 12) == 0x50756b69;
    r := Next(start, x, n + 1, 1, r, 1, 12, 0xe8c7b756, 0xbd9afb8a, 0xf59592dd);
    assert RotateLeft(0x6c23792d, 17) == 0xf25ad846;
    r := Next(start, x, n + 2, 2, r, 2, 17, 0x242070db, 0xaf482b54, 0xe7f06b23);
    assert RotateLeft(0x971b80cc, 22) == 0x3325c6e0;
    r := Next(start, x, n + 3, 3, r, 3, 22, 0xc1bdceee, 0xe5900655, 0x1b163203);
  }

  lemma Empty04(start: Regs, x: seq<Word>, n: nat, r0: Regs) returns (r: Regs)
    requires x == EMPTY && |x| == 16 && n == 4 && Reached(start, x, n, r0)
    requires r0 == Regs(0xa5202774, 0x1b163203, 0xe7f06b23, 0xf59592dd)
    ensures Reached(start, x, n + 4, r) && r == Regs(0x32033344, 0x9bc13ce9, 0xf5b158db, 0x2f35d494)
  {
    hide Reached;
    r := r0;
    assert RotateLeft(0x822dda02, 7) == 0x16ed0141;
    r := Next(start, x, n, 4, r, 4, 7, 0xf57c0faf, 0xe791a2df, 0x32033344);
    assert RotateLeft(0x150fd32a, 12) == 0xfd32a150;
    r := Next(start, x, n + 1, 5, r, 5, 12, 0x4787c62a, 0xd7f27a23, 0x2f35d494);
    assert RotateLeft(0xc223e33d, 17) == 0xc67b8447;
    r := Next(start, x, n + 2, 6, r, 6, 17, 0xa8304613, 0x32033207, 0xf5b158db);
    assert RotateLeft(0x3f903a98, 22) == 0xa60fe40e;
    r := Next(start, x, n + 3, 7, r, 7, 22, 0xfd469501, 0x27337394, 0x9bc13ce9);
  }

  lemma Empty08(start: Regs, x: seq<Word>, n: nat, r0: Regs) returns (r: Regs)
    requires x == EMPTY && |x| == 16 && n == 8 && Reached(start, x, n, r0)
    requires r0 == Regs(0x32033344, 0x9bc13ce9, 0xf5b158db, 0x2f35d494)
    ensures Reached(start, x, n + 4, r) && r == Regs(0x3893b991, 0x70768a29, 0xe1ef0576, 0xfce4a312)
  {
    hide Reached;
    r := r0;
    assert RotateLeft(0x5139a4f9, 7) == 0x9cd27ca8;
    r := Next(start, x, n, 8, r, 8, 7, 0x698098d8, 0xb5b5d8dd, 0x3893b991);
    assert RotateLeft(0x981c450e, 12) == 0xc450e981;
    r := Next(start, x, n + 1, 9, r, 9, 12, 0x8b44f7af, 0xdda178cb, 0xfce4a312);
    assert RotateLeft(0x31327285, 17) == 0xe50a6264;
    r := Next(start, x, n + 2, 10, r, 10, 17, 0xffff5bb1, 0x3b81bdf9, 0xe1ef0576);
    assert RotateLeft(0x1e12ce3a, 22) == 0x8e8784b3;
    r := Next(start, x, n + 3, 11, r, 11, 22, 0x895cd7be, 0xf8f4b993, 0x70768a29);
  }

  lemma Empty12(start: Regs, x: seq<Word>, n: nat, r0: Regs) returns (r: Regs)
    requires x == EMPTY && |x| == 16 && n == 12 && Reached(start, x, n, r0)
    requires r0 == Regs(0x3893b991, 0x70768a29, 0xe1ef0576, 0xfce4a312)
    ensures Reached(start, x, n + 4, r) && r == Regs(0xf56c7cf1, 0xd6819c6a, 0x5aa53f75, 0x374943a7)
  {
    hide Reached;
    r := r0;
    assert RotateLeft(0x9109ebe5, 7) == 0x84f5f2c8;
    r := Next(start, x, n, 12, r, 12, 7, 0x6b901122, 0xece62132, 0xf56c7cf1);
    assert RotateLeft(0x6b641dcc, 12) == 0x41dcc6b6;
    r := Next(start, x, n + 1, 13, r, 13, 12, 0xfd987193, 0x70e70927, 0x374943a7);
    assert RotateLeft(0xfde711ad, 17) == 0x235bfbce;
    r := Next(start, x, n + 2, 14, r, 14, 17, 0xa679438e, 0x757ec8a9, 0x5aa53f75);
    assert RotateLeft(0x7173d5ef, 22) == 0x7bdc5cf5;
    r := Next(start, x, n + 3, 15, r, 15, 22, 0x49b40821, 0xb74943a5, 0xd6819c6a);
  }

  lemma Empty16(start: Regs, x: seq<Word>, n: nat, r0: Regs) returns (r: Regs)
    requires x == EMPTY && |x| == 16 && n == 16 && Reached(start, x, n, r0)
    requires r0 == Regs(0xf56c7cf1, 0xd6819c6a, 0x5aa53f75, 0x374943a7)
    ensures Reached(start, x, n + 4, r) && r == Regs(0x1c7d7513, 0xbd782e17, 0xc095f13a, 0x7bd57a3a)
  {
    hide Reached;
    r := r0;
    assert RotateLeft(0x4a2fdec5, 5) == 0x45fbd8a9;
    r := Next(start, x, n, 16, r, 1, 5, 0xf61e2562, 0x5ea53c72, 0x1c7d7513);
    assert RotateLeft(0x93afac02, 9) == 0x5f580527;
    r := Next(start, x, n + 1, 17, r, 6, 9, 0xc040b340, 0x9c25b51b, 0x7bd57a3a);
    assert RotateLeft(0xdc011301, 14) == 0x44c07700;
    r := Next(start, x, n + 2, 18, r, 11, 14, 0x265e5a51, 0x5afd793b, 0xc095f13a);
    assert RotateLeft(0x23cddfce, 20) == 0xfce23cdd;
    r := Next(start, x, n + 3, 19, r, 0, 20, 0xe9b6c7aa, 0x63957b3a, 0xbd782e17);
  }

  lemma Empty20(start: Regs, x: seq<Word>, n: nat, r0: Regs) returns (r: Regs)
    requires x == EMPTY && |x| == 16 && n == 20 && Reached(start, x, n, r0)
    requires r0 == Regs(0x1c7d7513, 0xbd782e17, 0xc095f13a, 0x7bd57a3a)
    ensures Reached(start, x, n + 4, r) && r == Regs(0x3d1e3e6c, 0xe422531a, 0xeb41643e, 0x68b7b3e3)
  {
    hide Reached;
    r := r0;
    assert RotateLeft(0xabfd3082, 5) == 0x7fa61055;
    r := Next(start, x, n, 20, r, 5, 5, 0xd62f105d, 0xb950ab12, 0x3d1e3e6c);
    assert RotateLeft(0xbb95ccba, 9) == 0x2b997577;
    r := Next(start, x, n + 1, 21, r, 10, 9, 0x02441453, 0x3d7c3e2d, 0x68b7b3e3);
    assert RotateLeft(0xc16e0a26, 14) == 0x8289b05b;
    r := Next(start, x, n + 2, 22, r, 15, 14, 0xd8a1e681, 0x2836326b, 0xeb41643e);
    assert RotateLeft(0x0eedcf8e, 20) == 0xf8e0eedc;
    r := Next(start, x, n + 3, 23, r, 4, 20, 0xe7d3fbc8, 0x69a1a5af, 0xe422531a);
  }

  lemma Empty24(start: Regs, x: seq<Word>, n: nat, r0: Regs) returns (r: Regs)
    requires x == EMPTY && |x| == 16 && n == 24 && Reached(start, x, n, r0)
    requires r0 == Regs(0x3d1e3e6c, 0xe422531a, 0xeb41643e, 0x68b7b3e3)
    ensures Reached(start, x, n + 4, r) && r == Regs(0x306ec122, 0xa0572807, 0xa3c663da, 0xd28c77c2)
  {
    hide Reached;
    r := r0;
    assert RotateLeft(0x42626370, 5) == 0x4c4c6e08;
    r := Next(start, x, n, 24, r, 9, 5, 0x21e1cde6, 0xe362571e, 0x306ec122);
    assert RotateLeft(0x50510edb, 9) == 0xa21db6a0;
    r := Next(start, x, n + 1, 25, r, 14, 9, 0xc33707d6, 0x24625322, 0xd28c77c2);
    assert RotateLeft(0xb06344e7, 14) == 0xd139ec18;
    r := Next(start, x, n + 2, 26, r, 3, 14, 0xf4d50d87, 0xd04cd322, 0xa3c663da);
    assert RotateLeft(0x0c42dfc9, 20) == 0xfc90c42d;
    r := Next(start, x, n + 3, 27, r, 8, 20, 0x455a14ed, 0xe2c677c2, 0xa0572807);
  }

  lemma Empty28(start: Regs, x: seq<Word>, n: nat, r0: Regs) returns (r: Regs)
    requires x == EMPTY && |x| == 16 && n == 28 && Reached(start, x, n, r0)
    requires r0 == Regs(0x306ec122, 0xa0572807, 0xa3c663da, 0xd28c77c2)
    ensures Reached(start, x, n + 4, r) && r == Regs(0x13707036, 0xa2205f1f, 0x1c31c384, 0xae7813db)
  {
    hide Reached;
    r := r0;
    assert RotateLeft(0x7b98ca41, 5) == 0x7319482f;
    r := Next(start, x, n, 28, r, 13, 5, 0xa9e3e905, 0xa146201a, 0x13707036);
    assert RotateLeft(0xd2cd83d1, 9) == 0x9b07a3a5;
    r := Next(start, x, n + 1, 29, r, 2, 9, 0xfcefa3f8, 0x03516817, 0xae7813db);
    assert RotateLeft(0xbea5b6e6, 14) == 0x6db9afa9;
    r := Next(start, x, n + 2, 30, r, 7, 14, 0x676f02d9, 0xb3705033, 0x1c31c384);
    assert RotateLeft(0xe9b9b85e, 20) == 0x85ee9b9b;
    r := Next(start, x, n + 3, 31, r, 12, 20, 0x8d2a4c8a, 0xbc3843cd, 0xa2205f1f);
  }

  lemma Empty32(start: Regs, x: seq<Word>, n: nat, r0: Regs) returns (r: Regs)
    requires x == EMPTY && |x| == 16 && n == 32 && Reached(start, x, n, r0)
    requires r0 == Regs(0x13707036, 0xa2205f1f, 0x1c31c384, 0xae7813db)
    ensures Reached(start, x, n + 4, r) && r == Regs(0xdf63eaa1, 0x004b6669, 0x12f3e755, 0xc3689f5b)
  {
    hide Reached;
    r := r0;
    assert RotateLeft(0x23d438b8, 4) == 0x3d438b82;
    r := Next(start, x, n, 32, r, 5, 4, 0xfffa3942, 0x10698f40, 0xdf63eaa1);
    assert RotateLeft(0x975c8096, 11) == 0xe404b4ba;
    r := Next(start, x, n + 1, 33, r, 8, 11, 0x8771f681, 0x6172763a, 0xc3689f5b);
    assert RotateLeft(0x47fa4f8b, 16) == 0x4f8b47fa;
    r := Next(start, x, n + 2, 34, r, 11, 16, 0x6d9d6122, 0xbe2b2ae5, 0x12f3e755);
    assert RotateLeft(0xaefe29da, 23) == 0xed577f14;
    r := Next(start, x, n + 3, 35, r, 14, 23, 0xfde5380c, 0x0ef892af, 0x004b6669);
  }

  lemma Empty36(start: Regs, x: seq<Word>, n: nat, r0: Regs) returns (r: Regs)
    requires x == EMPTY && |x| == 16 && n == 36 && Reached(start, x, n, r0)
    requires r0 == Regs(0xdf63eaa1, 0x004b6669, 0x12f3e755, 0xc3689f5b)
    ensures Reached(start, x, n + 4, r) && r == Regs(0x5f7a9b2e, 0xc5dc8c15, 0x91ca4cb7, 0xabc34e16)
  {
    hide Reached;
    r := r0;
    assert RotateLeft(0x55f2f34c, 4) == 0x5f2f34c5;
    r := Next(start, x, n, 36, r, 1, 4, 0xa4beea44, 0xd1d01e67, 0x5f7a9b2e);
    assert RotateLeft(0x5d098916, 11) == 0x4c48b2e8;
    r := Next(start, x, n + 1, 37, r, 4, 11, 0x4bdecfa9, 0x4dc21a12, 0xabc34e16);
    assert RotateLeft(0xfea1e606, 16) == 0xe606fea1;
    r := Next(start, x, n + 2, 38, r, 7, 16, 0xf6bb4b60, 0xf4f2b351, 0x91ca4cb7);
    assert RotateLeft(0x247ebc68, 23) == 0x34123f5e;
    r := Next(start, x, n + 3, 39, r, 10, 23, 0xbebfbc70, 0x6573998f, 0xc5dc8c15);
  }

  lemma Empty40(start: Regs, x: seq<Word>, n: nat, r0: Regs) returns (r: Regs)
    requires x == EMPTY && |x| == 16 && n == 40 && Reached(start, x, n, r0)
    requires r0 == Regs(0x5f7a9b2e, 0xc5dc8c15, 0x91ca4cb7, 0xabc34e16)
    ensures Reached(start, x, n + 4, r) && r == Regs(0x4497169d, 0x0fe32453, 0xfd95f243, 0x76fd93d4)
  {
    hide Reached;
    r := r0;
    assert RotateLeft(0x87eba8a8, 4) == 0x7eba8a88;
    r := Next(start, x, n, 40, r, 13, 4, 0x289b7ec6, 0xffd58eb4, 0x4497169d);
    assert RotateLeft(0xa6e64ccf, 11) == 0x32667d37;
    r := Next(start, x, n + 1, 41, r, 0, 11, 0xeaa127fa, 0x1081d63f, 0x76fd93d4);
    assert RotateLeft(0x5e6f8698, 16) == 0x86985e6f;
    r := Next(start, x, n + 2, 42, r, 3, 16, 0xd4ef3085, 0xf7b6095c, 0xfd95f243);
    assert RotateLeft(0x9a642024, 23) == 0x124d3210;
    r := Next(start, x, n + 3, 43, r, 6, 23, 0x04881d05, 0xcfff770a, 0x0fe32453);
  }

  lemma Empty44(start: Regs, x: seq<Word>, n: nat, r0: Regs) returns (r: Regs)
    requires x == EMPTY && |x| == 16 && n == 44 && Reached(start, x, n, r0)
    requires r0 == Regs(0x4497169d, 0x0fe32453, 0xfd95f243, 0x76fd93d4)
    ensures Reached(start, x, n + 4, r) && r == Regs(0x3f55edfd, 0xca7d2dbd, 0x68d84ea2, 0x22a31f54)
  {
    hide Reached;
    r := r0;
    assert RotateLeft(0xa2f72c9a, 4) == 0x2f72c9aa;
    r := Next(start, x, n, 44, r, 9, 4, 0xd9d4d039, 0x848b45c4, 0x3f55edfd);
    assert RotateLeft(0x2afc69a6, 11) == 0xe34d3157;
    r := Next(start, x, n + 1, 45, r, 12, 11, 0xe6db99e5, 0xcd233bed, 0x22a31f54);
    assert RotateLeft(0x2f4e4635, 16) == 0x46352f4e;
    r := Next(start, x, n + 2, 46, r, 15, 16, 0x1fa27cf8, 0x1215d6fa, 0x68d84ea2);
    assert RotateLeft(0x49be36c3, 23) == 0x61a4df1b;
    r := Next(start, x, n + 3, 47, r, 2, 23, 0xc4ac5665, 0x752ebc0b, 0xca7d2dbd);
  }

  lemma Empty48(start: Regs, x: seq<Word>, n: nat, r0: Regs) returns (r: Regs)
    requires x == EMPTY && |x| == 16 && n == 48 && Reached(start, x, n, r0)
    requires r0 == Regs(0x3f55edfd, 0xca7d2dbd, 0x68d84ea2, 0x22a31f54)
    ensures Reached(start, x, n + 4, r) && r == Regs(0x93aa2577, 0x561e0689, 0xcd85b8cb, 0x1688dc85)
  {
    hide Reached;
    r := r0;
    assert RotateLeft(0xeb24b3de, 6) == 0xc92cf7ba;
    r := Next(start, x, n, 48, r, 0, 6, 0xf4292244, 0xb7a5a31d, 0x93aa2577);
    assert RotateLeft(0xc3a0b7ad, 10) == 0x82deb70e;
    r := Next(start, x, n + 1, 49, r, 7, 10, 0x432aff97, 0x5dd298c2, 0x1688dc85);
    assert RotateLeft(0xb88d6df9, 15) == 0xb6fcdc46;
    r := Next(start, x, n + 2, 50, r, 14, 15, 0xab9423a7, 0xa420fbb0, 0xcd85b8cb);
    assert RotateLeft(0xc26df444, 21) == 0x88984dbe;
    r := Next(start, x, n + 3, 51, r, 5, 21, 0xfc93a039, 0xfb5d264e, 0x561e0689);
  }

  lemma Empty52(start: Regs, x: seq<Word>, n: nat, r0: Regs) returns (r: Regs)
    requires x == EMPTY && |x| == 16 && n == 52 && Reached(start, x, n, r0)
    requires r0 == Regs(0x93aa2577, 0x561e0689, 0xcd85b8cb, 0x1688dc85)
    ensures Reached(start, x, n + 4, r) && r == Regs(0x5625a114, 0x1e77fa61, 0x392ad0d0, 0x3450f42b)
  {
    hide Reached;
    r := r0;
    assert RotateLeft(0x2c001e6a, 6) == 0x00079a8b;
    r := Next(start, x, n, 52, r, 12, 6, 0x655b59c3, 0x32fa9f30, 0x5625a114);
    assert RotateLeft(0xc5f78ad4, 10) == 0xde2b5317;
    r := Next(start, x, n + 1, 53, r, 3, 10, 0x8f0ccc92, 0x2061e1bd, 0x3450f42b);
    assert RotateLeft(0xb94a09b3, 15) == 0x04d9dca5;
    r := Next(start, x, n + 2, 54, r, 10, 15, 0xffeff47d, 0xebd45c6b, 0x392ad0d0);
    assert RotateLeft(0x694c8f2a, 21) == 0xe54d2991;
    r := Next(start, x, n + 3, 55, r, 1, 21, 0x85845dd1, 0x8daa2ad0, 0x1e77fa61);
  }

  lemma Empty56(start: Regs, x: seq<Word>, n: nat, r0: Regs) returns (r: Regs)
    requires x == EMPTY && |x| == 16 && n == 56 && Reached(start, x, n, r0)
    requires r0 == Regs(0x5625a114, 0x1e77fa61, 0x392ad0d0, 0x3450f42b)
    ensures Reached(start, x, n + 4, r) && r == Regs(0x474a9c8c, 0x30130182, 0x36594b14, 0xdfce00bc)
  {
    hide Reached;
    r := r0;
    assert RotateLeft(0xaca34a88, 6) == 0x28d2a22b;
    r := Next(start, x, n, 56, r, 8, 6, 0x6fa87e4f, 0xe6d52b25, 0x474a9c8c);
    assert RotateLeft(0x0c2620d9, 10) == 0x98836430;
    r := Next(start, x, n + 1, 57, r, 15, 10, 0xfe2ce6e0, 0xd9a845ce, 0xdfce00bc);
    assert RotateLeft(0x94b0ad16, 15) == 0x568b4a58;
    r := Next(start, x, n + 2, 58, r, 6, 15, 0xa3014314, 0xb8849932, 0x36594b14);
    assert RotateLeft(0xcdb377cd, 21) == 0xf9b9b66e;
    r := Next(start, x, n + 3, 59, r, 13, 21, 0x4e0811a1, 0x61336bcb, 0x30130182);
  }

  lemma Empty60(start: Regs, x: seq<Word>, n: nat, r0: Regs) returns (r: Regs)
    requires x == EMPTY && |x| == 16 && n == 60 && Reached(start, x, n, r0)
    requires r0 == Regs(0x474a9c8c, 0x30130182, 0x36594b14, 0xdfce00bc)
    ensures Reached(start, x, n + 4, r) && r == Regs(0x7246fad3, 0x14e45506, 0xff4ea3eb, 0x6e10a476)
  {
    hide Reached;
    r := r0;
    assert RotateLeft(0x4508cfe5, 6) == 0x4233f951;
    r := Next(start, x, n, 60, r, 4, 6, 0xf7537e82, 0x066ab4d7, 0x7246fad3);
    assert RotateLeft(0x68fef26a, 10) == 0xfbc9a9a3;
    r := Next(start, x, n + 1, 61, r, 11, 10, 0xbd3af235, 0xcbf5ff79, 0x6e10a476);
    assert RotateLeft(0xfeeb227b, 15) == 0x913dff75;
    r := Next(start, x, n + 2, 62, r, 2, 15, 0x2ad7d2bb, 0x9dba04ac, 0xff4ea3eb);
    assert RotateLeft(0xad88d8ac, 21) == 0x1595b11b;
    r := Next(start, x, n + 3, 63, r, 9, 21, 0xeb86d391, 0x91ef0399, 0x14e45506);
  }

  lemma EmptySteps(x: seq<Word>)
    requires x == EMPTY && |x| == 16
    ensures Reached(INITIAL, x, 64, Regs(0x7246fad3, 0x14e45506, 0xff4ea3eb, 0x6e10a476))
  {
    hide *;
    NoSteps(INITIAL, x);
    InitialIs();
    var r := Empty00(INITIAL, x, 0, INITIAL);
    r := Empty04(INITIAL, x, 4, r);
    r := Empty08(INITIAL, x, 8, r);
    r := Empty12(INITIAL, x, 12, r);
    r := Empty16(INITIAL, x, 16, r);
    r := Empty20(INITIAL, x, 20, r);
    r := Empty24(INITIAL, x, 24, r);
    r := Empty28(INITIAL, x, 28, r);
    r := Empty32(INITIAL, x, 32, r);
    r := Empty36(INITIAL, x, 36, r);
    r := Empty40(INITIAL, x, 40, r);
    r := Empty44(INITIAL, x, 44, r);
    r := Empty48(INITIAL, x, 48, r);
    r := Empty52(INITIAL, x, 52, r);
    r := Empty56(INITIAL, x, 56, r);
    r := Empty60(INITIAL, x, 60, r);
  }

  lemma EmptyLength()
    ensures EncodeLength64(0) == [0, 0, 0, 0, 0, 0, 0, 0]
  {
    assert ByteOf(0) == 0 && ByteOf(0) == 0;
    hide ByteOf;
    assert EncodeLength(0) == [ByteOf(0), ByteOf(0), ByteOf(0), ByteOf(0)];
    assert EncodeLength(0) == [ByteOf(0), ByteOf(0), ByteOf(0), ByteOf(0)];
  }

  lemma EmptyFirst()
    ensures DecodeWord([0x80, 0x00, 0x00, 0x00]) == 0x00000080 && DecodeWord([0, 0, 0, 0]) == 0
  {
    assert DecodeWord([0x80, 0x00, 0x00, 0x00]) == 0x00000080;
    assert DecodeWord([0, 0, 0, 0]) == 0;
  }

  lemma EmptyBlock()
    ensures |EMPTY| == 16 && EMPTY[0] == 0x00000080 && EMPTY[14] == 0 && forall k :: 0 < k < 16 && k != 14 ==>
              EMPTY[k] == 0
  {
  }

  lemma EmptyStart(p: seq<Byte>)
    requires |p| == 64 && p[..0] == [] && p[0] == 0x80 && forall i :: 0 < i < 64 && i != 56 ==> p[i] == 0
    ensures p[..4] == [0x80, 0x00, 0x00, 0x00]
  {
  }

  lemma EmptyWords()
    ensures |Padded([])| == 64 && Decode(Padded([])) == EMPTY
  {
    hide Padded;
    hide Decode;
    hide DecodeWord;
    hide EMPTY;
    hide EncodeLength64;
    var message: seq<Byte> := [];
    EmptyLength();
    PaddedShort(message, 0);
    EmptyStart(Padded(message));
    EmptyFirst();
    EmptyBlock();
    DecodedMostlyZero(Padded(message), EMPTY);
  }

  /** MD5 ("") = d41d8cd98f00b204e9800998ecf8427e */
  lemma DigestOfEmpty()
    ensures Digest([]) ==
            [0xd4, 0x1d, 0x8c, 0xd9, 0x8f, 0x00, 0xb2, 0x04,
             0xe9, 0x80, 0x09, 0x98, 0xec, 0xf8, 0x42, 0x7e]
  {
    hide *;
    EmptyWords();
    EmptySteps(EMPTY);
    OneBlock([], EMPTY, Regs(0x7246fad3, 0x14e45506, 0xff4ea3eb, 0x6e10a476));
    EmptyEncoded();
  }

  lemma EmptyEncoded()
    ensures Encode(Plus(INITIAL, Regs(0x7246fad3, 0x14e45506, 0xff4ea3eb, 0x6e10a476))) ==
            [0xd4, 0x1d, 0x8c, 0xd9, 0x8f, 0x00, 0xb2, 0x04,
             0xe9, 0x80, 0x09, 0x98, 0xec, 0xf8, 0x42, 0x7e]
  {
    assert Plus(INITIAL, Regs(0x7246fad3, 0x14e45506, 0xff4ea3eb, 0x6e10a476))
        == Regs(0xd98c1dd4, 0x04b2008f, 0x980980e9, 0x7e42f8ec);
    assert EncodeWord(0xd98c1dd4) == [0xd4, 0x1d, 0x8c, 0xd9];
    assert EncodeWord(0x04b2008f) == [0x8f, 0x00, 0xb2, 0x04];
    assert EncodeWord(0x980980e9) == [0xe9, 0x80, 0x09, 0x98];
    assert EncodeWord(0x7e42f8ec) == [0xec, 0xf8, 0x42, 0x7e];
  }

  // ---------- abc ----------

  const ABC: seq<Word> := [0x80636261, 0, 0, 0, 0, 0, 0, 0, 0, 0, 0, 0, 0, 0, 0x00000018, 0]

  lemma Abc00(start: Regs, x: seq<Word>, n: nat, r0: Regs) returns (r: Regs)
    requires x == ABC && |x| == 16 && n == 0 && Reached(start, x, n, r0)
    requires r0 == Regs(0x67452301, 0xefcdab89, 0x98badcfe, 0x10325476)
    ensures Reached(start, x, n + 4, r) && r == Regs(0xd6d117b4, 0x7ad956f2, 0x2f6fbd72, 0x344a8432)
  {
    hide Reached;
    r := r0;
    assert RotateLeft(0x57ce06d8, 7) == 0xe7036c2b;
    r := Next(start, x, n, 0, r, 0, 7, 0xd76aa478, 0x98badcfe, 0xd6d117b4);
    assert RotateLeft(0xc7e5d796, 12) == 0x5d796c7e;
    r := Next(start, x, n + 1, 1, r, 1, 12, 0xe8c7b756, 0xceebcbca, 0x344a8432);
    assert RotateLeft(0x9ca07d92, 17) == 0xfb253940;
    r := Next(start, x, n + 2, 2, r, 2, 17, 0x242070db, 0xdfc52fb9, 0x2f6fbd72);
    assert RotateLeft(0xa666012d, 22) == 0x4b699980;
    r := Next(start, x, n + 3, 3, r, 3, 22, 0xc1bdceee, 0xf4da86b6, 0x7ad956f2);
  }

  lemma Abc04(start: Regs, x: seq<Word>, n: nat, r0: Regs) returns (r: Regs)
    requires x == ABC && |x| == 16 && n == 4 && Reached(start, x, n, r0)
    requires r0 == Regs(0xd6d117b4, 0x7ad956f2, 0x2f6fbd72, 0x344a8432)
    ensures Reached(start, x, n + 4, r) && r == Regs(0xc73741ef, 0x928d99f6, 0x207dc67b, 0x8bac3051)
  {
    hide Reached;
    r := r0;
    assert RotateLeft(0xfa98bbd5, 7) == 0x4c5deafd;
    r := Next(start, x, n, 4, r, 4, 7, 0xf57c0faf, 0x2e4b9472, 0xc73741ef);
    assert RotateLeft(0xe62c474e, 12) == 0xc474ee62;
    r := Next(start, x, n + 1, 5, r, 5, 12, 0x4787c62a, 0x6a59fcf2, 0x8bac3051);
    assert RotateLeft(0xcb154a68, 17) == 0x94d1962a;
    r := Next(start, x, n + 2, 6, r, 6, 17, 0xa8304613, 0xf37546e3, 0x207dc67b);
    assert RotateLeft(0x3f4dedc8, 22) == 0x720fd37b;
    r := Next(start, x, n + 3, 7, r, 7, 22, 0xfd469501, 0xc72e01d5, 0x928d99f6);
  }

  lemma Abc08(start: Regs, x: seq<Word>, n: nat, r0: Regs) returns (r: Regs)
    requires x == ABC && |x| == 16 && n == 8 && Reached(start, x, n, r0)
    requires r0 == Regs(0xc73741ef, 0x928d99f6, 0x207dc67b, 0x8bac3051)
    ensures Reached(start, x, n + 4, r) && r == Regs(0x854b3712, 0x5ed49596, 0x3020401c, 0x74e2f284)
  {
    hide Reached;
    r := r0;
    assert RotateLeft(0x39e57b3a, 7) == 0xf2bd9d1c;
    r := Next(start, x, n, 8, r, 8, 7, 0x698098d8, 0x092da073, 0x854b3712);
    assert RotateLeft(0xb72ef97b, 12) == 0xef97bb72;
    r := Next(start, x, n + 1, 9, r, 9, 12, 0x8b44f7af, 0xa03dd17b, 0x74e2f284);
    assert RotateLeft(0xa6cc5d9e, 17) == 0xbb3d4d98;
    r := Next(start, x, n + 2, 10, r, 10, 17, 0xffff5bb1, 0x864f3b72, 0x3020401c);
    assert RotateLeft(0xd155e8ba, 22) == 0x2eb4557a;
    r := Next(start, x, n + 3, 11, r, 11, 22, 0x895cd7be, 0xb56b7706, 0x5ed49596);
  }

  lemma Abc12(start: Regs, x: seq<Word>, n: nat, r0: Regs) returns (r: Regs)
    requires x == ABC && |x| == 16 && n == 12 && Reached(start, x, n, r0)
    requires r0 == Regs(0x854b3712, 0x5ed49596, 0x3020401c, 0x74e2f284)
    ensures Reached(start, x, n + 4, r) && r == Regs(0xdda9b9a6, 0x72aff2e0, 0xe396856b, 0xa1051895)
  {
    hide Reached;
    r := r0;
    assert RotateLeft(0x20fdaa48, 7) == 0x7ed52410;
    r := Next(start, x, n, 12, r, 12, 7, 0x6b901122, 0x30226214, 0xdda9b9a6);
    assert RotateLeft(0xeefc35b5, 12) == 0xc35b5eef;
    r := Next(start, x, n + 1, 13, r, 13, 12, 0xfd987193, 0x7c80d19e, 0xa1051895);
    assert RotateLeft(0xb66b2148, 17) == 0x42916cd6;
    r := Next(start, x, n + 2, 14, r, 14, 17, 0xa679438e, 0xdfd19d86, 0xe396856b);
    assert RotateLeft(0x65b5d63c, 22) == 0x8f196d75;
    r := Next(start, x, n + 3, 15, r, 15, 22, 0x49b40821, 0xbd2d3885, 0x72aff2e0);
  }

  lemma Abc16(start: Regs, x: seq<Word>, n: nat, r0: Regs) returns (r: Regs)
    requires x == ABC && |x| == 16 && n == 16 && Reached(start, x, n, r0)
    requires r0 == Regs(0xdda9b9a6, 0x72aff2e0, 0xe396856b, 0xa1051895)
    ensures Reached(start, x, n + 4, r) && r == Regs(0x3e9e9126, 0xb5b204e4, 0xe25e1652, 0x4a1d804e)
  {
    hide Reached;
    r := r0;
    assert RotateLeft(0x365f74f2, 5) == 0xcbee9e46;
    r := Next(start, x, n, 16, r, 1, 5, 0xf61e2562, 0x629795ea, 0x3e9e9126);
    assert RotateLeft(0x9405bf77, 9) == 0x0b7eef28;
    r := Next(start, x, n + 1, 17, r, 6, 9, 0xc040b340, 0x32bff3a2, 0x4a1d804e);
    assert RotateLeft(0x58126102, 14) == 0x98409604;
    r := Next(start, x, n + 2, 18, r, 11, 14, 0x265e5a51, 0x4e1d8146, 0xe25e1652);
    assert RotateLeft(0x3ee92d35, 20) == 0xd353ee92;
    r := Next(start, x, n + 3, 19, r, 0, 20, 0xe9b6c7aa, 0x621f104a, 0xb5b204e4);
  }

  lemma Abc20(start: Regs, x: seq<Word>, n: nat, r0: Regs) returns (r: Regs)
    requires x == ABC && |x| == 16 && n == 20 && Reached(start, x, n, r0)
    requires r0 == Regs(0x3e9e9126, 0xb5b204e4, 0xe25e1652, 0x4a1d804e)
    ensures Reached(start, x, n + 4, r) && r == Regs(0x59a8ffda, 0x47092c07, 0xabfc7920, 0x6d002f1e)
  {
    hide Reached;
    r := r0;
    assert RotateLeft(0xb51fb7d7, 5) == 0xa3f6faf6;
    r := Next(start, x, n, 20, r, 5, 5, 0xd62f105d, 0xa0521654, 0x59a8ffda);
    assert RotateLeft(0xa209ab97, 9) == 0x13572f44;
    r := Next(start, x, n + 1, 21, r, 10, 9, 0x02441453, 0x55a816f6, 0x6d002f1e);
    assert RotateLeft(0x2808fbf1, 14) == 0x3efc4a02;
    r := Next(start, x, n + 2, 22, r, 15, 14, 0xd8a1e681, 0x6d08ff1e, 0xabfc7920);
    assert RotateLeft(0xcb2e79b0, 20) == 0x9b0cb2e7;
    r := Next(start, x, n + 3, 23, r, 4, 20, 0xe7d3fbc8, 0x2da87904, 0x47092c07);
  }

  lemma Abc24(start: Regs, x: seq<Word>, n: nat, r0: Regs) returns (r: Regs)
    requires x == ABC && |x| == 16 && n == 24 && Reached(start, x, n, r0)
    requires r0 == Regs(0x59a8ffda, 0x47092c07, 0xabfc7920, 0x6d002f1e)
    ensures Reached(start, x, n + 4, r) && r == Regs(0xb7f268cf, 0x786acb8f, 0xfe1623b1, 0x09388eff)
  {
    hide Reached;
    r := r0;
    assert RotateLeft(0x438749e6, 5) == 0x70e93cc8;
    r := Next(start, x, n, 24, r, 9, 5, 0x21e1cde6, 0xc7fc7c26, 0xb7f268cf);
    assert RotateLeft(0x1828a313, 9) == 0x51462630;
    r := Next(start, x, n + 1, 25, r, 14, 9, 0xc33707d6, 0xe7f16c07, 0x09388eff);
    assert RotateLeft(0x52cbd376, 14) == 0xf4dd94b2;
    r := Next(start, x, n + 2, 26, r, 3, 14, 0xf4d50d87, 0xb1fa4ccf, 0xfe1623b1);
    assert RotateLeft(0x4a7de7a5, 20) == 0x7a54a7de;
    r := Next(start, x, n + 3, 27, r, 8, 20, 0x455a14ed, 0xbe1aa6b1, 0x786acb8f);
  }

  lemma Abc28(start: Regs, x: seq<Word>, n: nat, r0: Regs) returns (r: Regs)
    requires x == ABC && |x| == 16 && n == 28 && Reached(start, x, n, r0)
    requires r0 == Regs(0xb7f268cf, 0x786acb8f, 0xfe1623b1, 0x09388eff)
    ensures Reached(start, x, n + 4, r) && r == Regs(0x790a77fb, 0x726342d3, 0xa62884aa, 0x9f47e4f8)
  {
    hide Reached;
    r := r0;
    assert RotateLeft(0x6004fd63, 5) == 0x009fac6c;
    r := Next(start, x, n, 28, r, 13, 5, 0xa9e3e905, 0xfe2eab8f, 0x790a77fb);
    assert RotateLeft(0x7e931eb6, 9) == 0x263d6cfd;
    r := Next(start, x, n + 1, 29, r, 2, 9, 0xfcefa3f8, 0x786aebbf, 0x9f47e4f8);
    assert RotateLeft(0x7ec81b82, 14) == 0x06e09fb2;
    r := Next(start, x, n + 2, 30, r, 7, 14, 0x676f02d9, 0x1942f4f8, 0xa62884aa);
    assert RotateLeft(0xabe29cc3, 20) == 0xcc3abe29;
    r := Next(start, x, n + 3, 31, r, 12, 20, 0x8d2a4c8a, 0xa64d84aa, 0x726342d3);
  }

  lemma Abc32(start: Regs, x: seq<Word>, n: nat, r0: Regs) returns (r: Regs)
    requires x == ABC && |x| == 16 && n == 32 && Reached(start, x, n, r0)
    requires r0 == Regs(0x790a77fb, 0x726342d3, 0xa62884aa, 0x9f47e4f8)
    ensures Reached(start, x, n + 4, r) && r == Regs(0xb3707ebf, 0x3b0875c7, 0x8d212ff5, 0x60127b2e)
  {
    hide Reached;
    r := r0;
    assert RotateLeft(0xc410d3be, 4) == 0x410d3bec;
    r := Next(start, x, n, 32, r, 5, 4, 0xfffa3942, 0x4b0c2281, 0xb3707ebf);
    assert RotateLeft(0x8df5943f, 11) == 0xaca1fc6f;
    r := Next(start, x, n + 1, 33, r, 8, 11, 0x8771f681, 0x673bb8c6, 0x60127b2e);
    assert RotateLeft(0xb4c72d0e, 16) == 0x2d0eb4c7;
    r := Next(start, x, n + 2, 34, r, 11, 16, 0x6d9d6122, 0xa1014742, 0x8d212ff5);
    assert RotateLeft(0xce8ba55b, 23) == 0xade745d2;
    r := Next(start, x, n + 3, 35, r, 14, 23, 0xfde5380c, 0x5e432a64, 0x3b0875c7);
  }

  lemma Abc36(start: Regs, x: seq<Word>, n: nat, r0: Regs) returns (r: Regs)
    requires x == ABC && |x| == 16 && n == 36 && Reached(start, x, n, r0)
    requires r0 == Regs(0xb3707ebf, 0x3b0875c7, 0x8d212ff5, 0x60127b2e)
    ensures Reached(start, x, n + 4, r) && r == Regs(0x21b117b9, 0x5a2f5ea5, 0x3575227e, 0x6e7429d5)
  {
    hide Reached;
    r := r0;
    assert RotateLeft(0x2e6a8a1f, 4) == 0xe6a8a1f2;
    r := Next(start, x, n, 36, r, 1, 4, 0xa4beea44, 0xd63b211c, 0x21b117b9);
    assert RotateLeft(0x43899862, 11) == 0x4cc3121c;
    r := Next(start, x, n + 1, 37, r, 4, 11, 0x4bdecfa9, 0x97984d8b, 0x6e7429d5);
    assert RotateLeft(0xf8a9c700, 16) == 0xc700f8a9;
    r := Next(start, x, n + 2, 38, r, 7, 16, 0xf6bb4b60, 0x74cd4bab, 0x3575227e);
    assert RotateLeft(0x74784e49, 23) == 0x24ba3c27;
    r := Next(start, x, n + 3, 39, r, 10, 23, 0xbebfbc70, 0x7ab01c12, 0x5a2f5ea5);
  }

  lemma Abc40(start: Regs, x: seq<Word>, n: nat, r0: Regs) returns (r: Regs)
    requires x == ABC && |x| == 16 && n == 40 && Reached(start, x, n, r0)
    requires r0 == Regs(0x21b117b9, 0x5a2f5ea5, 0x3575227e, 0x6e7429d5)
    ensures Reached(start, x, n + 4, r) && r == Regs(0x11de1779, 0x4c6124f4, 0x31c465ca, 0xfadcaa38)
  {
    hide Reached;
    r := r0;
    assert RotateLeft(0x4b7aeb8d, 4) == 0xb7aeb8d4;
    r := Next(start, x, n, 40, r, 13, 4, 0x289b7ec6, 0x012e550e, 0x11de1779);
    assert RotateLeft(0x57fd1fd2, 11) == 0xe8fe92bf;
    r := Next(start, x, n + 1, 41, r, 0, 11, 0xeaa127fa, 0x7e846ba2, 0xfadcaa38);
    assert RotateLeft(0xbb9236e7, 16) == 0x36e7bb92;
    r := Next(start, x, n + 2, 42, r, 3, 16, 0xd4ef3085, 0xb12de3e4, 0x31c465ca);
    assert RotateLeft(0x397e5435, 23) == 0x1a9cbf2a;
    r := Next(start, x, n + 3, 43, r, 6, 23, 0x04881d05, 0xdac6d88b, 0x4c6124f4);
  }

  lemma Abc44(start: Regs, x: seq<Word>, n: nat, r0: Regs) returns (r: Regs)
    requires x == ABC && |x| == 16 && n == 44 && Reached(start, x, n, r0)
    requires r0 == Regs(0x11de1779, 0x4c6124f4, 0x31c465ca, 0xfadcaa38)
    ensures Reached(start, x, n + 4, r) && r == Regs(0x7f2e507b, 0x7beb9700, 0x8fae6399, 0x99d9679d)
  {
    hide Reached;
    r := r0;
    assert RotateLeft(0x732cd2b8, 4) == 0x32cd2b87;
    r := Next(start, x, n, 44, r, 9, 4, 0xd9d4d039, 0x8779eb06, 0x7f2e507b);
    assert RotateLeft(0xe4435562, 11) == 0x1aab1722;
    r := Next(start, x, n + 1, 45, r, 12, 11, 0xe6db99e5, 0x028b1145, 0x99d9679d);
    assert RotateLeft(0xfbfcf5d4, 16) == 0xf5d4fbfc;
    r := Next(start, x, n + 2, 46, r, 15, 16, 0x1fa27cf8, 0xaa961312, 0x8fae6399);
    assert RotateLeft(0x7a66cfd8, 23) == 0xec3d3367;
    r := Next(start, x, n + 3, 47, r, 2, 23, 0xc4ac5665, 0x6959547f, 0x7beb9700);
  }

  lemma Abc48(start: Regs, x: seq<Word>, n: nat, r0: Regs) returns (r: Regs)
    requires x == ABC && |x| == 16 && n == 48 && Reached(start, x, n, r0)
    requires r0 == Regs(0x7f2e507b, 0x7beb9700, 0x8fae6399, 0x99d9679d)
    ensures Reached(start, x, n + 4, r) && r == Regs(0x7b201df8, 0x8bf025c4, 0xb298cefd, 0xf4e8e96e)
  {
    hide Reached;
    r := r0;
    assert RotateLeft(0xe3fcd21b, 6) == 0xff3486f8;
    r := Next(start, x, n, 48, r, 0, 6, 0xf4292244, 0xf041fcfb, 0x7b201df8);
    assert RotateLeft(0xdd9e7232, 10) == 0x79c8cb76;
    r := Next(start, x, n + 1, 49, r, 7, 10, 0x432aff97, 0x009a0afe, 0xf4e8e96e);
    assert RotateLeft(0xcb1f7b5f, 15) == 0xbdafe58f;
    r := Next(start, x, n + 2, 50, r, 14, 15, 0xab9423a7, 0x8fdcf407, 0xb298cefd);
    assert RotateLeft(0xbab63eca, 21) == 0xd95756c7;
    r := Next(start, x, n + 3, 51, r, 5, 21, 0xfc93a039, 0x42370791, 0x8bf025c4);
  }

  lemma Abc52(start: Regs, x: seq<Word>, n: nat, r0: Regs) returns (r: Regs)
    requires x == ABC && |x| == 16 && n == 52 && Reached(start, x, n, r0)
    requires r0 == Regs(0x7b201df8, 0x8bf025c4, 0xb298cefd, 0xf4e8e96e)
    ensures Reached(start, x, n + 4, r) && r == Regs(0x06cc5e8a, 0x3bfa2c27, 0x7d632dd0, 0x5b0d97aa)
  {
    hide Reached;
    r := r0;
    assert RotateLeft(0x19eb70e3, 6) == 0x7adc38c6;
    r := Next(start, x, n, 52, r, 12, 6, 0x655b59c3, 0x396ff928, 0x06cc5e8a);
    assert RotateLeft(0x4815104e, 10) == 0x54413920;
    r := Next(start, x, n + 1, 53, r, 3, 10, 0x8f0ccc92, 0xc41f5a4e, 0x5b0d97aa);
    assert RotateLeft(0x2c4c44ab, 15) == 0x22559626;
    r := Next(start, x, n + 2, 54, r, 10, 15, 0xffeff47d, 0x79c38131, 0x7d632dd0);
    assert RotateLeft(0xb7f2bdf4, 21) == 0xbe96fe57;
    r := Next(start, x, n + 3, 55, r, 1, 21, 0x85845dd1, 0xa67e3a5f, 0x3bfa2c27);
  }

  lemma Abc56(start: Regs, x: seq<Word>, n: nat, r0: Regs) returns (r: Regs)
    requires x == ABC && |x| == 16 && n == 56 && Reached(start, x, n, r0)
    requires r0 == Regs(0x06cc5e8a, 0x3bfa2c27, 0x7d632dd0, 0x5b0d97aa)
    ensures Reached(start, x, n + 4, r) && r == Regs(0x7f81cc35, 0x7327d604, 0x4f9dbe3f, 0x094454ab)
  {
    hide Reached;
    r := r0;
    assert RotateLeft(0x390e1e80, 6) == 0x4387a00e;
    r := Next(start, x, n, 56, r, 8, 6, 0x6fa87e4f, 0xc29941a7, 0x7f81cc35);
    assert RotateLeft(0x1da270a2, 10) == 0x89c28876;
    r := Next(start, x, n + 1, 57, r, 15, 10, 0xfe2ce6e0, 0xc467f218, 0x094454ab);
    assert RotateLeft(0xd3288cb2, 15) == 0x46596994;
    r := Next(start, x, n + 2, 58, r, 6, 15, 0xa3014314, 0xb2c41bce, 0x4f9dbe3f);
    assert RotateLeft(0x50be291c, 21) == 0x238a17c5;
    r := Next(start, x, n + 3, 59, r, 13, 21, 0x4e0811a1, 0xc6bbeb54, 0x7327d604);
  }

  lemma Abc60(start: Regs, x: seq<Word>, n: nat, r0: Regs) returns (r: Regs)
    requires x == ABC && |x| == 16 && n == 60 && Reached(start, x, n, r0)
    requires r0 == Regs(0x7f81cc35, 0x7327d604, 0x4f9dbe3f, 0x094454ab)
    ensures Reached(start, x, n + 4, r) && r == Regs(0x310ade8f, 0xc08226b3, 0xe484b9d8, 0x624d8cb2)
  {
    hide Reached;
    r := r0;
    assert RotateLeft(0x2ef78c22, 6) == 0xbde3088b;
    r := Next(start, x, n, 60, r, 4, 6, 0xf7537e82, 0xb822416b, 0x310ade8f);
    assert RotateLeft(0x88cc50ab, 10) == 0x3142ae23;
    r := Next(start, x, n + 1, 61, r, 11, 10, 0xbd3af235, 0xc24d09cb, 0x624d8cb2);
    assert RotateLeft(0x5a4d046e, 15) == 0x82372d26;
    r := Next(start, x, n + 2, 62, r, 2, 15, 0x2ad7d2bb, 0xdfd77374, 0xe484b9d8);
    assert RotateLeft(0xeb66dedf, 21) == 0xdbfd6cdb;
    r := Next(start, x, n + 3, 63, r, 9, 21, 0xeb86d391, 0x8cb8354a, 0xc08226b3);
  }

  lemma AbcSteps(x: seq<Word>)
    requires x == ABC && |x| == 16
    ensures Reached(INITIAL, x, 64, Regs(0x310ade8f, 0xc08226b3, 0xe484b9d8, 0x624d8cb2))
  {
    hide *;
    NoSteps(INITIAL, x);
    InitialIs();
    var r := Abc00(INITIAL, x, 0, INITIAL);
    r := Abc04(INITIAL, x, 4, r);
    r := Abc08(INITIAL, x, 8, r);
    r := Abc12(INITIAL, x, 12, r);
    r := Abc16(INITIAL, x, 16, r);
    r := Abc20(INITIAL, x, 20, r);
    r := Abc24(INITIAL, x, 24, r);
    r := Abc28(INITIAL, x, 28, r);
    r := Abc32(INITIAL, x, 32, r);
    r := Abc36(INITIAL, x, 36, r);
    r := Abc40(INITIAL, x, 40, r);
    r := Abc44(INITIAL, x, 44, r);
    r := Abc48(INITIAL, x, 48, r);
    r := Abc52(INITIAL, x, 52, r);
    r := Abc56(INITIAL, x, 56, r);
    r := Abc60(INITIAL, x, 60, r);
  }

  lemma AbcLength()
    ensures EncodeLength64(24) == [24, 0, 0, 0, 0, 0, 0, 0]
  {
    assert ByteOf(24) == 24 && ByteOf(0) == 0;
    hide ByteOf;
    assert EncodeLength(24) == [ByteOf(24), ByteOf(0), ByteOf(0), ByteOf(0)];
    assert EncodeLength(0) == [ByteOf(0), ByteOf(0), ByteOf(0), ByteOf(0)];
  }

  lemma AbcFirst()
    ensures DecodeWord([0x61, 0x62, 0x63, 0x80]) == 0x80636261 && DecodeWord([24, 0, 0, 0]) == 24
  {
    assert DecodeWord([0x61, 0x62, 0x63, 0x80]) == 0x80636261;
    assert DecodeWord([24, 0, 0, 0]) == 24;
  }

  lemma AbcBlock()
    ensures |ABC| == 16 && ABC[0] == 0x80636261 && ABC[14] == 24 && forall k :: 0 < k < 16 && k != 14 ==> ABC[k] == 0
  {
  }

  lemma AbcStart(p: seq<Byte>)
    requires |p| == 64 && p[..3] == [0x61, 0x62, 0x63] && p[3] == 0x80 && forall i :: 3 < i < 64 && i != 56 ==>
               p[i] == 0
    ensures p[..4] == [0x61, 0x62, 0x63, 0x80]
  {
  }

  lemma AbcWords()
    ensures |Padded([0x61, 0x62, 0x63])| == 64 && Decode(Padded([0x61, 0x62, 0x63])) == ABC
  {
    hide Padded;
    hide Decode;
    hide DecodeWord;
    hide ABC;
    hide EncodeLength64;
    var message: seq<Byte> := [0x61, 0x62, 0x63];
    AbcLength();
    PaddedShort(message, 24);
    AbcStart(Padded(message));
    AbcFirst();
    AbcBlock();
    DecodedMostlyZero(Padded(message), ABC);
  }

  /** MD5 ("abc") = 900150983cd24fb0d6963f7d28e17f72 */
  lemma DigestOfAbc()
    ensures Digest([0x61, 0x62, 0x63]) ==
            [0x90, 0x01, 0x50, 0x98, 0x3c, 0xd2, 0x4f, 0xb0,
             0xd6, 0x96, 0x3f, 0x7d, 0x28, 0xe1, 0x7f, 0x72]
  {
    hide *;
    AbcWords();
    AbcSteps(ABC);
    OneBlock([0x61, 0x62, 0x63], ABC, Regs(0x310ade8f, 0xc08226b3, 0xe484b9d8, 0x624d8cb2));
    AbcEncoded();
  }

  lemma AbcEncoded()
    ensures Encode(Plus(INITIAL, Regs(0x310ade8f, 0xc08226b3, 0xe484b9d8, 0x624d8cb2))) ==
            [0x90, 0x01, 0x50, 0x98, 0x3c, 0xd2, 0x4f, 0xb0,
             0xd6, 0x96, 0x3f, 0x7d, 0x28, 0xe1, 0x7f, 0x72]
  {
    assert Plus(INITIAL, Regs(0x310ade8f, 0xc08226b3, 0xe484b9d8, 0x624d8cb2))
        == Regs(0x98500190, 0xb04fd23c, 0x7d3f96d6, 0x727fe128);
    assert EncodeWord(0x98500190) == [0x90, 0x01, 0x50, 0x98];
    assert EncodeWord(0xb04fd23c) == [0x3c, 0xd2, 0x4f, 0xb0];
    assert EncodeWord(0x7d3f96d6) == [0xd6, 0x96, 0x3f, 0x7d];
    assert EncodeWord(0x727fe128) == [0x28, 0xe1, 0x7f, 0x72];
  }

  // ---------- ABCDEFGHIJKLMNOPQRSTUVWXYZabcdefghijklmnopqrstuvwxyz0123456789 ----------

  const LETTERS: seq<Word> := [0x44434241, 0x48474645, 0x4c4b4a49, 0x504f4e4d, 0x54535251, 0x58575655, 0x62615a59,
      0x66656463, 0x6a696867, 0x6e6d6c6b, 0x7271706f, 0x76757473, 0x7a797877, 0x33323130, 0x37363534, 0x00803938]

  lemma Letters00(start: Regs, x: seq<Word>, n: nat, r0: Regs) returns (r: Regs)
    requires x == LETTERS && |x| == 16 && n == 0 && Reached(start, x, n, r0)
    requires r0 == Regs(0x67452301, 0xefcdab89, 0x98badcfe, 0x10325476)
    ensures Reached(start, x, n + 4, r) && r == Regs(0xc6c10796, 0x27bce07a, 0x11067980, 0x99a09999)
  {
    hide Reached;
    r := r0;
    assert RotateLeft(0x1bade6b8, 7) == 0xd6f35c0d;
    r := Next(start, x, n, 0, r, 0, 7, 0xd76aa478, 0x98badcfe, 0xc6c10796);
    assert RotateLeft(0x203d2df9, 12) == 0xd2df9203;
    r := Next(start, x, n + 1, 1, r, 1, 12, 0xe8c7b756, 0xdefbdbe8, 0x99a09999);
    assert RotateLeft(0xeff3bbb2, 17) == 0x7765dfe7;
    r := Next(start, x, n + 2, 2, r, 2, 17, 0x242070db, 0xe6cd2390, 0x11067980);
    assert RotateLeft(0xd99be85a, 22) == 0x16b666fa;
    r := Next(start, x, n + 3, 3, r, 3, 22, 0xc1bdceee, 0xd7c11f96, 0x27bce07a);
  }

  lemma Letters04(start: Regs, x: seq<Word>, n: nat, r0: Regs) returns (r: Regs)
    requires x == LETTERS && |x| == 16 && n == 4 && Reached(start, x, n, r0)
    requires r0 == Regs(0xc6c10796, 0x27bce07a, 0x11067980, 0x99a09999)
    ensures Reached(start, x, n + 4, r) && r == Regs(0xf22e6c4e, 0xa4799506, 0xa95a2fc0, 0xb4ac9218)
  {
    hide Reached;
    r := r0;
    assert RotateLeft(0xa994e317, 7) == 0xca718bd4;
    r := Next(start, x, n, 4, r, 4, 7, 0xf57c0faf, 0x99047981, 0xf22e6c4e);
    assert RotateLeft(0x5cac27e2, 12) == 0xc27e25ca;
    r := Next(start, x, n + 1, 5, r, 5, 12, 0x4787c62a, 0x232c71ca, 0xb4ac9218);
    assert RotateLeft(0xced47a56, 17) == 0xf4ad9da8;
    r := Next(start, x, n + 2, 6, r, 6, 17, 0xa8304613, 0xb33c606a, 0xa95a2fc0);
    assert RotateLeft(0x7d951bec, 22) == 0xfb1f6546;
    r := Next(start, x, n + 3, 7, r, 7, 22, 0xfd469501, 0xf22c420e, 0xa4799506);
  }

  lemma Letters08(start: Regs, x: seq<Word>, n: nat, r0: Regs) returns (r: Regs)
    requires x == LETTERS && |x| == 16 && n == 8 && Reached(start, x, n, r0)
    requires r0 == Regs(0xf22e6c4e, 0xa4799506, 0xa95a2fc0, 0xb4ac9218)
    ensures Reached(start, x, n + 4, r) && r == Regs(0x1eb3e7c1, 0x8a7612ec, 0xca27520b, 0xa6e70cfe)
  {
    hide Reached;
    r := r0;
    assert RotateLeft(0x76f474a5, 7) == 0x7a3a52bb;
    r := Next(start, x, n, 8, r, 8, 7, 0x698098d8, 0xb0dc0718, 0x1eb3e7c1);
    assert RotateLeft(0x53d88332, 12) == 0x8833253d;
    r := Next(start, x, n + 1, 9, r, 9, 12, 0x8b44f7af, 0xa5798d00, 0xa6e70cfe);
    assert RotateLeft(0x228691a0, 17) == 0x2340450d;
    r := Next(start, x, n + 2, 10, r, 10, 17, 0xffff5bb1, 0x06bb95c0, 0xca27520b);
    assert RotateLeft(0x3b038701, 22) == 0xc04ec0e1;
    r := Next(start, x, n + 3, 11, r, 11, 22, 0x895cd7be, 0x96b7a5ca, 0x8a7612ec);
  }

  lemma Letters12(start: Regs, x: seq<Word>, n: nat, r0: Regs) returns (r: Regs)
    requires x == LETTERS && |x| == 16 && n == 12 && Reached(start, x, n, r0)
    requires r0 == Regs(0x1eb3e7c1, 0x8a7612ec, 0xca27520b, 0xa6e70cfe)
    ensures Reached(start, x, n + 4, r) && r == Regs(0x3cbdcd45, 0x5d38e690, 0xfa148c8a, 0xb8dec763)
  {
    hide Reached;
    r := r0;
    assert RotateLeft(0xb3648f74, 7) == 0xb247ba59;
    r := Next(start, x, n, 12, r, 12, 7, 0x6b901122, 0xaea71e1a, 0x3cbdcd45);
    assert RotateLeft(0xa1e7c20f, 12) == 0x7c20fa1e;
    r := Next(start, x, n + 1, 13, r, 13, 12, 0xfd987193, 0xca36124e, 0xb8dec763);
    assert RotateLeft(0xe293a09a, 17) == 0x4135c527;
    r := Next(start, x, n + 2, 14, r, 14, 17, 0xa679438e, 0x3abcd5cd, 0xfa148c8a);
    assert RotateLeft(0x9168198c, 22) == 0x63245a06;
    r := Next(start, x, n + 3, 15, r, 15, 22, 0x49b40821, 0xbcbdc547, 0x5d38e690);
  }

  lemma Letters16(start: Regs, x: seq<Word>, n: nat, r0: Regs) returns (r: Regs)
    requires x == LETTERS && |x| == 16 && n == 16 && Reached(start, x, n, r0)
    requires r0 == Regs(0x3cbdcd45, 0x5d38e690, 0xfa148c8a, 0xb8dec763)
    ensures Reached(start, x, n + 4, r) && r == Regs(0x04b9d52a, 0x47ae7c81, 0xd3ee3ed1, 0x783002eb)
  {
    hide Reached;
    r := r0;
    assert RotateLeft(0xd53c0774, 5) == 0xa780ee9a;
    r := Next(start, x, n, 16, r, 1, 5, 0xf61e2562, 0x5a18ce88, 0x04b9d52a);
    assert RotateLeft(0xe0b9bb16, 9) == 0x73762dc1;
    r := Next(start, x, n + 1, 17, r, 6, 9, 0xc040b340, 0x0538e61a, 0x783002eb);
    assert RotateLeft(0xef996ef8, 14) == 0x5bbe3be6;
    r := Next(start, x, n + 2, 18, r, 11, 14, 0x265e5a51, 0x58b113aa, 0xd3ee3ed1);
    assert RotateLeft(0x03db073c, 20) == 0x73c03db0;
    r := Next(start, x, n + 3, 19, r, 0, 20, 0xe9b6c7aa, 0x78a816c1, 0x47ae7c81);
  }

  lemma Letters20(start: Regs, x: seq<Word>, n: nat, r0: Regs) returns (r: Regs)
    requires x == LETTERS && |x| == 16 && n == 20 && Reached(start, x, n, r0)
    requires r0 == Regs(0x04b9d52a, 0x47ae7c81, 0xd3ee3ed1, 0x783002eb)
    ensures Reached(start, x, n + 4, r) && r == Regs(0x2d7d8a3f, 0x75292030, 0x4b534dc3, 0xd1210823)
  {
    hide Reached;
    r := r0;
    assert RotateLeft(0xf72e786d, 5) == 0xe5cf0dbe;
    r := Next(start, x, n, 20, r, 5, 5, 0xd62f105d, 0xc3ee3c91, 0x2d7d8a3f);
    assert RotateLeft(0xf251d1be, 9) == 0xa3a37de4;
    r := Next(start, x, n + 1, 21, r, 10, 9, 0x02441453, 0x056c4a11, 0xd1210823);
    assert RotateLeft(0x1681e8c9, 14) == 0x7a3245a0;
    r := Next(start, x, n + 2, 22, r, 15, 14, 0xd8a1e681, 0x69718a3f, 0x4b534dc3);
    assert RotateLeft(0x5d26d29d, 20) == 0x29d5d26d;
    r := Next(start, x, n + 3, 23, r, 4, 20, 0xe7d3fbc8, 0xd9510803, 0x75292030);
  }

  lemma Letters24(start: Regs, x: seq<Word>, n: nat, r0: Regs) returns (r: Regs)
    requires x == LETTERS && |x| == 16 && n == 24 && Reached(start, x, n, r0)
    requires r0 == Regs(0x2d7d8a3f, 0x75292030, 0x4b534dc3, 0xd1210823)
    ensures Reached(start, x, n + 4, r) && r == Regs(0x9d2a6e33, 0xf2ff6ea0, 0xd473b564, 0x0e8d2e44)
  {
    hide Reached;
    r := r0;
    assert RotateLeft(0x19400a70, 5) == 0x28014e03;
    r := Next(start, x, n, 24, r, 9, 5, 0x21e1cde6, 0x5b7345e0, 0x9d2a6e33);
    assert RotateLeft(0x08b8b160, 9) == 0x7162c011;
    r := Next(start, x, n + 1, 25, r, 14, 9, 0xc33707d6, 0x3d2a6c33, 0x0e8d2e44);
    assert RotateLeft(0x1c83179a, 14) == 0xc5e68720;
    r := Next(start, x, n + 2, 26, r, 3, 14, 0xf4d50d87, 0x8c0b6e03, 0xd473b564);
    assert RotateLeft(0xbb93c1e8, 20) == 0x1e8bb93c;
    r := Next(start, x, n + 3, 27, r, 8, 20, 0x455a14ed, 0x96a72464, 0xf2ff6ea0);
  }

  lemma Letters28(start: Regs, x: seq<Word>, n: nat, r0: Regs) returns (r: Regs)
    requires x == LETTERS && |x| == 16 && n == 28 && Reached(start, x, n, r0)
    requires r0 == Regs(0x9d2a6e33, 0xf2ff6ea0, 0xd473b564, 0x0e8d2e44)
    ensures Reached(start, x, n + 4, r) && r == Regs(0x9b085fa9, 0xdd789ecc, 0x5993248f, 0x4400a9bd)
  {
    hide Reached;
    r := r0;
    assert RotateLeft(0x4d404788, 5) == 0xa808f109;
    r := Next(start, x, n, 28, r, 13, 5, 0xa9e3e905, 0xd2ffbf20, 0x9b085fa9);
    assert RotateLeft(0x0a547c25, 9) == 0xa8f84a14;
    r := Next(start, x, n + 1, 29, r, 2, 9, 0xfcefa3f8, 0xb28c5fa0, 0x4400a9bd);
    assert RotateLeft(0xeb485649, 14) == 0x15927ad2;
    r := Next(start, x, n + 2, 30, r, 7, 14, 0x676f02d9, 0x490039a9, 0x5993248f);
    assert RotateLeft(0x57a3d83e, 20) == 0x83e57a3d;
    r := Next(start, x, n + 3, 31, r, 12, 20, 0x8d2a4c8a, 0x5d00a49d, 0xdd789ecc);
  }

  lemma Letters32(start: Regs, x: seq<Word>, n: nat, r0: Regs) returns (r: Regs)
    requires x == LETTERS && |x| == 16 && n == 32 && Reached(start, x, n, r0)
    requires r0 == Regs(0x9b085fa9, 0xdd789ecc, 0x5993248f, 0x4400a9bd)
    ensures Reached(start, x, n + 4, r) && r == Regs(0x21c8d2b7, 0x1b9504f8, 0x056ec119, 0x1d55a18e)
  {
    hide Reached;
    r := r0;
    assert RotateLeft(0xb445033e, 4) == 0x445033eb;
    r := Next(start, x, n, 32, r, 5, 4, 0xfffa3942, 0xc0eb13fe, 0x21c8d2b7);
    assert RotateLeft(0xdaff7199, 11) == 0xfb8cced7;
    r := Next(start, x, n + 1, 33, r, 8, 11, 0x8771f681, 0xa52368f4, 0x1d55a18e);
    assert RotateLeft(0x1f8be819, 16) == 0xe8191f8b;
    r := Next(start, x, n + 2, 34, r, 11, 16, 0x6d9d6122, 0xe1e5edf5, 0x056ec119);
    assert RotateLeft(0x4c87be2c, 23) == 0x162643df;
    r := Next(start, x, n + 3, 35, r, 14, 23, 0xfde5380c, 0x39f3b220, 0x1b9504f8);
  }

  lemma Letters36(start: Regs, x: seq<Word>, n: nat, r0: Regs) returns (r: Regs)
    requires x == LETTERS && |x| == 16 && n == 36 && Reached(start, x, n, r0)
    requires r0 == Regs(0x21c8d2b7, 0x1b9504f8, 0x056ec119, 0x1d55a18e)
    ensures Reached(start, x, n + 4, r) && r == Regs(0x436b7fe9, 0xcf0341ed, 0xf404c2f6, 0x075800c1)
  {
    hide Reached;
    r := r0;
    assert RotateLeft(0x127d67af, 4) == 0x27d67af1;
    r := Next(start, x, n, 36, r, 1, 4, 0xa4beea44, 0x03ae646f, 0x436b7fe9);
    assert RotateLeft(0x1b187d90, 11) == 0xc3ec80d8;
    r := Next(start, x, n + 1, 37, r, 4, 11, 0x4bdecfa9, 0x5d90ba08, 0x075800c1);
    assert RotateLeft(0xc235ecac, 16) == 0xecacc235;
    r := Next(start, x, n + 2, 38, r, 7, 16, 0xf6bb4b60, 0x5fa67bd0, 0xf404c2f6);
    assert RotateLeft(0xfcfdefb5, 23) == 0xdafe7ef7;
    r := Next(start, x, n + 3, 39, r, 10, 23, 0xbebfbc70, 0xb037bdde, 0xcf0341ed);
  }

  lemma Letters40(start: Regs, x: seq<Word>, n: nat, r0: Regs) returns (r: Regs)
    requires x == LETTERS && |x| == 16 && n == 40 && Reached(start, x, n, r0)
    requires r0 == Regs(0x436b7fe9, 0xcf0341ed, 0xf404c2f6, 0x075800c1)
    ensures Reached(start, x, n + 4, r) && r == Regs(0x888e7d8a, 0x047b9419, 0xce620273, 0xbbdaecd8)
  {
    hide Reached;
    r := r0;
    assert RotateLeft(0xdb98b3b9, 4) == 0xb98b3b9d;
    r := Next(start, x, n, 40, r, 13, 4, 0x289b7ec6, 0x3c5f83da, 0x888e7d8a);
    assert RotateLeft(0xe9c6698d, 11) == 0x334c6f4e;
    r := Next(start, x, n + 1, 41, r, 0, 11, 0xeaa127fa, 0xb389fe91, 0xbbdaecd8);
    assert RotateLeft(0x159b1287, 16) == 0x1287159b;
    r := Next(start, x, n + 2, 42, r, 3, 16, 0xd4ef3085, 0xfc57d0bf, 0xce620273);
    assert RotateLeft(0x33234c6c, 23) == 0x361991a6;
    r := Next(start, x, n + 3, 43, r, 6, 23, 0x04881d05, 0xfd369321, 0x047b9419);
  }

  lemma Letters44(start: Regs, x: seq<Word>, n: nat, r0: Regs) returns (r: Regs)
    requires x == LETTERS && |x| == 16 && n == 44 && Reached(start, x, n, r0)
    requires r0 == Regs(0x888e7d8a, 0x047b9419, 0xce620273, 0xbbdaecd8)
    ensures Reached(start, x, n + 4, r) && r == Regs(0x2dbee21d, 0xf166f514, 0xee46e961, 0xe95c3a43)
  {
    hide Reached;
    r := r0;
    assert RotateLeft(0x429434e0, 4) == 0x29434e04;
    r := Next(start, x, n, 44, r, 9, 4, 0xd9d4d039, 0x71c37ab2, 0x2dbee21d);
    assert RotateLeft(0x04d773ab, 11) == 0xbb9d5826;
    r := Next(start, x, n + 1, 45, r, 12, 11, 0xe6db99e5, 0xe7a77477, 0xe95c3a43);
    assert RotateLeft(0xaf1e04ea, 16) == 0x04eaaf1e;
    r := Next(start, x, n + 2, 46, r, 15, 16, 0x1fa27cf8, 0xc0994c47, 0xee46e961);
    assert RotateLeft(0x40176606, 23) == 0x03200bb3;
    r := Next(start, x, n + 3, 47, r, 2, 23, 0xc4ac5665, 0x2aa4313f, 0xf166f514);
  }

  lemma Letters48(start: Regs, x: seq<Word>, n: nat, r0: Regs) returns (r: Regs)
    requires x == LETTERS && |x| == 16 && n == 48 && Reached(start, x, n, r0)
    requires r0 == Regs(0x2dbee21d, 0xf166f514, 0xee46e961, 0xe95c3a43)
    ensures Reached(start, x, n + 4, r) && r == Regs(0xe47fd4f3, 0x7a13bc5c, 0xf22aedcc, 0xfb887751)
  {
    hide Reached;
    r := r0;
    assert RotateLeft(0x7fcc637f, 6) == 0xf318dfdf;
    r := Next(start, x, n, 48, r, 0, 6, 0xf4292244, 0x19a11cdd, 0xe47fd4f3);
    assert RotateLeft(0x9785c228, 10) == 0x1708a25e;
    r := Next(start, x, n + 1, 49, r, 7, 10, 0x432aff97, 0x049923eb, 0xfb887751);
    assert RotateLeft(0xecf7ed44, 15) == 0xf6a2767b;
    r := Next(start, x, n + 2, 50, r, 14, 15, 0xab9423a7, 0x1be6ab08, 0xf22aedcc);
    assert RotateLeft(0x4674843f, 21) == 0x87e8ce90;
    r := Next(start, x, n + 3, 51, r, 5, 21, 0xfc93a039, 0x0022989d, 0x7a13bc5c);
  }

  lemma Letters52(start: Regs, x: seq<Word>, n: nat, r0: Regs) returns (r: Regs)
    requires x == LETTERS && |x| == 16 && n == 52 && Reached(start, x, n, r0)
    requires r0 == Regs(0xe47fd4f3, 0x7a13bc5c, 0xf22aedcc, 0xfb887751)
    ensures Reached(start, x, n + 4, r) && r == Regs(0xa691d430, 0xefb0e72f, 0x3fc23df6, 0x528452f2)
  {
    hide Reached;
    r := r0;
    assert RotateLeft(0x50b1f85f, 6) == 0x2c7e17d4;
    r := Next(start, x, n, 52, r, 12, 6, 0x655b59c3, 0x8c5d5132, 0xa691d430);
    assert RotateLeft(0xb0aafc9f, 10) == 0xabf27ec2;
    r := Next(start, x, n + 1, 53, r, 3, 10, 0x8f0ccc92, 0xd5c66a6f, 0x528452f2);
    assert RotateLeft(0xd609da7b, 15) == 0xed3deb04;
    r := Next(start, x, n + 2, 54, r, 10, 15, 0xffeff47d, 0x717d87c3, 0x3fc23df6);
    assert RotateLeft(0x7549cd7f, 21) == 0xafeea939;
    r := Next(start, x, n + 3, 55, r, 1, 21, 0x85845dd1, 0x2d6a6d0d, 0xefb0e72f);
  }

  lemma Letters56(start: Regs, x: seq<Word>, n: nat, r0: Regs) returns (r: Regs)
    requires x == LETTERS && |x| == 16 && n == 56 && Reached(start, x, n, r0)
    requires r0 == Regs(0xa691d430, 0xefb0e72f, 0x3fc23df6, 0x528452f2)
    ensures Reached(start, x, n + 4, r) && r == Regs(0x27145703, 0x49d9a5b4, 0x374fbe79, 0x21a11069)
  {
    hide Reached;
    r := r0;
    assert RotateLeft(0x50dd8dbf, 6) == 0x37636fd4;
    r := Next(start, x, n, 56, r, 8, 6, 0x6fa87e4f, 0xd039d2d9, 0x27145703);
    assert RotateLeft(0x59bea32e, 10) == 0xfa8cb966;
    r := Next(start, x, n + 1, 57, r, 15, 10, 0xfe2ce6e0, 0x088d3024, 0x21a11069);
    assert RotateLeft(0x5c202b5d, 15) == 0x15aeae10;
    r := Next(start, x, n + 2, 58, r, 6, 15, 0xa3014314, 0x16fb4ffa, 0x374fbe79);
    assert RotateLeft(0x4f39d894, 21) == 0x1289e73b;
    r := Next(start, x, n + 3, 59, r, 13, 21, 0x4e0811a1, 0xde4eae94, 0x49d9a5b4);
  }

  lemma Letters60(start: Regs, x: seq<Word>, n: nat, r0: Regs) returns (r: Regs)
    requires x == LETTERS && |x| == 16 && n == 60 && Reached(start, x, n, r0)
    requires r0 == Regs(0x27145703, 0x49d9a5b4, 0x374fbe79, 0x21a11069)
    ensures Reached(start, x, n + 4, r) && r == Regs(0x1cb80f0a, 0xef2e3a46, 0x10f68731, 0xea3d3eb4)
  {
    hide Reached;
    r := r0;
    assert RotateLeft(0x5b4b79a5, 6) == 0xd2de6956;
    r := Next(start, x, n, 60, r, 4, 6, 0xf7537e82, 0xe89051cf, 0x1cb80f0a);
    assert RotateLeft(0xeab3614b, 10) == 0xcd852faa;
    r := Next(start, x, n + 1, 61, r, 11, 10, 0xbd3af235, 0x9561ea3a, 0xea3d3eb4);
    assert RotateLeft(0x90fa4d72, 15) == 0x26b9487d;
    r := Next(start, x, n + 2, 62, r, 2, 15, 0x2ad7d2bb, 0xe28771f5, 0x10f68731);
    assert RotateLeft(0xbd98aef1, 21) == 0xde37b315;
    r := Next(start, x, n + 3, 63, r, 9, 21, 0xeb86d391, 0x19cac941, 0xef2e3a46);
  }

  lemma LettersSteps(x: seq<Word>)
    requires x == LETTERS && |x| == 16
    ensures Reached(INITIAL, x, 64, Regs(0x1cb80f0a, 0xef2e3a46, 0x10f68731, 0xea3d3eb4))
  {
    hide *;
    NoSteps(INITIAL, x);
    InitialIs();
    var r := Letters00(INITIAL, x, 0, INITIAL);
    r := Letters04(INITIAL, x, 4, r);
    r := Letters08(INITIAL, x, 8, r);
    r := Letters12(INITIAL, x, 12, r);
    r := Letters16(INITIAL, x, 16, r);
    r := Letters20(INITIAL, x, 20, r);
    r := Letters24(INITIAL, x, 24, r);
    r := Letters28(INITIAL, x, 28, r);
    r := Letters32(INITIAL, x, 32, r);
    r := Letters36(INITIAL, x, 36, r);
    r := Letters40(INITIAL, x, 40, r);
    r := Letters44(INITIAL, x, 44, r);
    r := Letters48(INITIAL, x, 48, r);
    r := Letters52(INITIAL, x, 52, r);
    r := Letters56(INITIAL, x, 56, r);
    r := Letters60(INITIAL, x, 60, r);
  }

  /** The buffer after the first block. */
  const CHAINED := Regs(0x83fd320b, 0xdefbe5cf, 0xa9b1642f, 0xfa6f932a)

  const REST: seq<Word> := [0, 0, 0, 0, 0, 0, 0, 0, 0, 0, 0, 0, 0, 0, 0x000001f0, 0]

  lemma Rest00(start: Regs, x: seq<Word>, n: nat, r0: Regs) returns (r: Regs)
    requires x == REST && |x| == 16 && n == 0 && Reached(start, x, n, r0)
    requires r0 == Regs(0x83fd320b, 0xdefbe5cf, 0xa9b1642f, 0xfa6f932a)
    ensures Reached(start, x, n + 4, r) && r == Regs(0xeda23ed1, 0xddcf0634, 0x3c307338, 0x989939cf)
  {
    hide Reached;
    r := r0;
    assert RotateLeft(0x041d4cb2, 7) == 0x0ea65902;
    r := Next(start, x, n, 0, r, 0, 7, 0xd76aa478, 0xa8b5762f, 0xeda23ed1);
    assert RotateLeft(0xafeaaf6f, 12) == 0xaaf6fafe;
    r := Next(start, x, n + 1, 1, r, 1, 12, 0xe8c7b756, 0xccb364ef, 0x989939cf);
    assert RotateLeft(0x9cb4d1cb, 17) == 0xa3973969;
    r := Next(start, x, n + 2, 2, r, 2, 17, 0x242070db, 0xcee2fcc1, 0x3c307338);
    assert RotateLeft(0x7a4bf286, 22) == 0xa19e92fc;
    r := Next(start, x, n + 3, 3, r, 3, 22, 0xc1bdceee, 0xd9923dc9, 0xddcf0634);
  }

  lemma Rest04(start: Regs, x: seq<Word>, n: nat, r0: Regs) returns (r: Regs)
    requires x == REST && |x| == 16 && n == 4 && Reached(start, x, n, r0)
    requires r0 == Regs(0xeda23ed1, 0xddcf0634, 0x3c307338, 0x989939cf)
    ensures Reached(start, x, n + 4, r) && r == Regs(0x75144433, 0x99b6b699, 0xc783cb60, 0xc8875807)
  {
    hide Reached;
    r := r0;
    assert RotateLeft(0xff2e8a7b, 7) == 0x97453dff;
    r := Next(start, x, n, 4, r, 4, 7, 0xf57c0faf, 0x1c103bfb, 0x75144433);
    assert RotateLeft(0x3d453731, 12) == 0x537313d4;
    r := Next(start, x, n + 1, 5, r, 5, 12, 0x4787c62a, 0x5d243738, 0xc8875807);
    assert RotateLeft(0x39acff7e, 17) == 0xfefc7359;
    r := Next(start, x, n + 2, 6, r, 6, 17, 0xa8304613, 0x554c4633, 0xc783cb60);
    assert RotateLeft(0xcbace748, 22) == 0xd232eb39;
    r := Next(start, x, n + 3, 7, r, 7, 22, 0xfd469501, 0xf0974c13, 0x99b6b699);
  }

  lemma Rest08(start: Regs, x: seq<Word>, n: nat, r0: Regs) returns (r: Regs)
    requires x == REST && |x| == 16 && n == 8 && Reached(start, x, n, r0)
    requires r0 == Regs(0x75144433, 0x99b6b699, 0xc783cb60, 0xc8875807)
    ensures Reached(start, x, n + 4, r) && r == Regs(0xa60a3f69, 0x64cc7c5a, 0x64db26e9, 0xaa6630be)
  {
    hide Reached;
    r := r0;
    assert RotateLeft(0xa018a711, 7) == 0x0c5388d0;
    r := Next(start, x, n, 8, r, 8, 7, 0x698098d8, 0xc183ca06, 0xa60a3f69);
    assert RotateLeft(0x155045bf, 12) == 0x045bf155;
    r := Next(start, x, n + 1, 9, r, 9, 12, 0x8b44f7af, 0xc183f609, 0xaa6630be);
    assert RotateLeft(0x7b15dd3a, 17) == 0xba74f62b;
    r := Next(start, x, n + 2, 10, r, 10, 17, 0xffff5bb1, 0xb392b629, 0x64db26e9);
    assert RotateLeft(0xc555c7ff, 22) == 0xfff15571;
    r := Next(start, x, n + 3, 11, r, 11, 22, 0x895cd7be, 0xa24239a8, 0x64cc7c5a);
  }

  lemma Rest12(start: Regs, x: seq<Word>, n: nat, r0: Regs) returns (r: Regs)
    requires x == REST && |x| == 16 && n == 12 && Reached(start, x, n, r0)
    requires r0 == Regs(0xa60a3f69, 0x64cc7c5a, 0x64db26e9, 0xaa6630be)
    ensures Reached(start, x, n + 4, r) && r == Regs(0xa70737da, 0xa36f556f, 0x96f6586e, 0x5473f8a7)
  {
    hide Reached;
    r := r0;
    assert RotateLeft(0x00847577, 7) == 0x423abb80;
    r := Next(start, x, n, 12, r, 12, 7, 0x6b901122, 0xeeea24ec, 0xa70737da);
    assert RotateLeft(0x0cdad6cc, 12) == 0xad6cc0cd;
    r := Next(start, x, n + 1, 13, r, 13, 12, 0xfd987193, 0x64dc347b, 0x5473f8a7);
    assert RotateLeft(0x2fe3a141, 17) == 0x42825fc7;
    r := Next(start, x, n + 2, 14, r, 14, 17, 0xa679438e, 0x248f34da, 0x96f6586e);
    assert RotateLeft(0xe3f40431, 22) == 0x0c78fd01;
    r := Next(start, x, n + 3, 15, r, 15, 22, 0x49b40821, 0x35737fb6, 0xa36f556f);
  }

  lemma Rest16(start: Regs, x: seq<Word>, n: nat, r0: Regs) returns (r: Regs)
    requires x == REST && |x| == 16 && n == 16 && Reached(start, x, n, r0)
    requires r0 == Regs(0xa70737da, 0xa36f556f, 0x96f6586e, 0x5473f8a7)
    ensures Reached(start, x, n + 4, r) && r == Regs(0xa5050ad3, 0x82b8827c, 0x27dcd8b4, 0x28776046)
  {
    hide Reached;
    r := r0;
    assert RotateLeft(0x200cadab, 5) == 0x0195b564;
    r := Next(start, x, n, 16, r, 1, 5, 0xf61e2562, 0x82e7506f, 0xa5050ad3);
    assert RotateLeft(0xb9c1b92a, 9) == 0x83725573;
    r := Next(start, x, n + 1, 17, r, 6, 9, 0xc040b340, 0xa50d0d43, 0x28776046);
    assert RotateLeft(0xe1bbfd95, 14) == 0xff65786e;
    r := Next(start, x, n + 2, 18, r, 11, 14, 0x265e5a51, 0x24674ad6, 0x27dcd8b4);
    assert RotateLeft(0xba9c85ad, 20) == 0x5adba9c8;
    r := Next(start, x, n + 3, 19, r, 0, 20, 0xe9b6c7aa, 0x2d766894, 0x82b8827c);
  }

  lemma Rest20(start: Regs, x: seq<Word>, n: nat, r0: Regs) returns (r: Regs)
    requires x == REST && |x| == 16 && n == 20 && Reached(start, x, n, r0)
    requires r0 == Regs(0xa5050ad3, 0x82b8827c, 0x27dcd8b4, 0x28776046)
    ensures Reached(start, x, n + 4, r) && r == Regs(0xe04f070c, 0xdf35cb56, 0xc0d22b61, 0x2f3cd2a2)
  {
    hide Reached;
    r := r0;
    assert RotateLeft(0x82ecb424, 5) == 0x5d968490;
    r := Next(start, x, n, 20, r, 5, 5, 0xd62f105d, 0x07b898f4, 0xe04f070c);
    assert RotateLeft(0xcb2776e5, 9) == 0x4eedcb96;
    r := Next(start, x, n + 1, 21, r, 10, 9, 0x02441453, 0xa06c024c, 0x2f3cd2a2);
    assert RotateLeft(0x62fe4655, 14) == 0x919558bf;
    r := Next(start, x, n + 2, 22, r, 15, 14, 0xd8a1e681, 0x627f8720, 0xc0d22b61);
    assert RotateLeft(0x39ff51e6, 20) == 0x1e639ff5;
    r := Next(start, x, n + 3, 23, r, 4, 20, 0xe7d3fbc8, 0xcf72d3a2, 0xdf35cb56);
  }

  lemma Rest24(start: Regs, x: seq<Word>, n: nat, r0: Regs) returns (r: Regs)
    requires x == REST && |x| == 16 && n == 24 && Reached(start, x, n, r0)
    requires r0 == Regs(0xe04f070c, 0xdf35cb56, 0xc0d22b61, 0x2f3cd2a2)
    ensures Reached(start, x, n + 4, r) && r == Regs(0x242dd210, 0x2291191a, 0x5c295967, 0x576ace33)
  {
    hide Reached;
    r := r0;
    assert RotateLeft(0xd227c035, 5) == 0x44f806ba;
    r := Next(start, x, n, 24, r, 9, 5, 0x21e1cde6, 0xcff6eb43, 0x242dd210);
    assert RotateLeft(0x11999e7e, 9) == 0x333cfc23;
    r := Next(start, x, n + 1, 25, r, 14, 9, 0xc33707d6, 0x1f25c216, 0x576ace33);
    assert RotateLeft(0x2cd012fa, 14) == 0x04be8b34;
    r := Next(start, x, n + 2, 26, r, 3, 14, 0xf4d50d87, 0x7728da12, 0x5c295967);
    assert RotateLeft(0x7bfb3c66, 20) == 0xc667bfb3;
    r := Next(start, x, n + 3, 27, r, 8, 20, 0x455a14ed, 0x576b5c23, 0x2291191a);
  }

  lemma Rest28(start: Regs, x: seq<Word>, n: nat, r0: Regs) returns (r: Regs)
    requires x == REST && |x| == 16 && n == 28 && Reached(start, x, n, r0)
    requires r0 == Regs(0x242dd210, 0x2291191a, 0x5c295967, 0x576ace33)
    ensures Reached(start, x, n + 4, r) && r == Regs(0x24eba695, 0x9c03e2e8, 0x10c42a2f, 0x4bd0378b)
  {
    hide Reached;
    r := r0;
    assert RotateLeft(0xd812d46b, 5) == 0x025a8d7b;
    r := Next(start, x, n, 28, r, 13, 5, 0xa9e3e905, 0x0a011956, 0x24eba695);
    assert RotateLeft(0x7b137248, 9) == 0x26e490f6;
    r := Next(start, x, n + 1, 29, r, 2, 9, 0xfcefa3f8, 0x26b9001d, 0x4bd0378b);
    assert RotateLeft(0xca9313cf, 14) == 0xc4f3f2a4;
    r := Next(start, x, n + 2, 30, r, 7, 14, 0x676f02d9, 0x06fab78f, 0x10c42a2f);
    assert RotateLeft(0xfb8b98b3, 20) == 0x8b3fb8b9;
    r := Next(start, x, n + 3, 31, r, 12, 20, 0x8d2a4c8a, 0x4bd0330f, 0x9c03e2e8);
  }

  lemma Rest32(start: Regs, x: seq<Word>, n: nat, r0: Regs) returns (r: Regs)
    requires x == REST && |x| == 16 && n == 32 && Reached(start, x, n, r0)
    requires r0 == Regs(0x24eba695, 0x9c03e2e8, 0x10c42a2f, 0x4bd0378b)
    ensures Reached(start, x, n + 4, r) && r == Regs(0x5be1d526, 0xa2448453, 0x9f4a1a7e, 0x9e414279)
  {
    hide Reached;
    r := r0;
    assert RotateLeft(0xebfddf23, 4) == 0xbfddf23e;
    r := Next(start, x, n, 32, r, 5, 4, 0xfffa3942, 0xc717ff4c, 0x5be1d526);
    assert RotateLeft(0xaa684bed, 11) == 0x425f6d53;
    r := Next(start, x, n + 1, 33, r, 8, 11, 0x8771f681, 0xd7261de1, 0x9e414279);
    assert RotateLeft(0xd8050108, 16) == 0x0108d805;
    r := Next(start, x, n + 2, 34, r, 11, 16, 0x6d9d6122, 0x59a375b7, 0x9f4a1a7e);
    assert RotateLeft(0xf4d3aa05, 23) == 0x02fa69d5;
    r := Next(start, x, n + 3, 35, r, 14, 23, 0xfde5380c, 0x5aea8d21, 0xa2448453);
  }

  lemma Rest36(start: Regs, x: seq<Word>, n: nat, r0: Regs) returns (r: Regs)
    requires x == REST && |x| == 16 && n == 36 && Reached(start, x, n, r0)
    requires r0 == Regs(0x5be1d526, 0xa2448453, 0x9f4a1a7e, 0x9e414279)
    ensures Reached(start, x, n + 4, r) && r == Regs(0xe14e403d, 0xfe314121, 0x60cc183a, 0xe8cfd670)
  {
    hide Reached;
    r := r0;
    assert RotateLeft(0xa3f09bbe, 4) == 0x3f09bbea;
    r := Next(start, x, n, 36, r, 1, 4, 0xa4beea44, 0xa34fdc54, 0xe14e403d);
    assert RotateLeft(0xc660f032, 11) == 0x07819633;
    r := Next(start, x, n + 1, 37, r, 4, 11, 0x4bdecfa9, 0xdc40de10, 0xe8cfd670);
    assert RotateLeft(0x41ca77fc, 16) == 0x77fc41ca;
    r := Next(start, x, n + 2, 38, r, 7, 16, 0xf6bb4b60, 0xabc5121e, 0x60cc183a);
    assert RotateLeft(0xca51cf3a, 23) == 0x9d6528e7;
    r := Next(start, x, n + 3, 39, r, 10, 23, 0xbebfbc70, 0x694d8e77, 0xfe314121);
  }

  lemma Rest40(start: Regs, x: seq<Word>, n: nat, r0: Regs) returns (r: Regs)
    requires x == REST && |x| == 16 && n == 40 && Reached(start, x, n, r0)
    requires r0 == Regs(0xe14e403d, 0xfe314121, 0x60cc183a, 0xe8cfd670)
    ensures Reached(start, x, n + 4, r) && r == Regs(0xfff62809, 0x7c7e974c, 0x8cb5221c, 0xe37209ac)
  {
    hide Reached;
    r := r0;
    assert RotateLeft(0x801c4e6e, 4) == 0x01c4e6e8;
    r := Next(start, x, n, 40, r, 13, 4, 0x289b7ec6, 0x76328f6b, 0xfff62809);
    assert RotateLeft(0x347c6f7c, 11) == 0xe37be1a3;
    r := Next(start, x, n + 1, 41, r, 0, 11, 0xeaa127fa, 0x610b7112, 0xe37209ac);
    assert RotateLeft(0x1870a943, 16) == 0xa9431870;
    r := Next(start, x, n + 2, 42, r, 3, 16, 0xd4ef3085, 0xe2b56084, 0x8cb5221c);
    assert RotateLeft(0x92ea61df, 23) == 0xefc97530;
    r := Next(start, x, n + 3, 43, r, 6, 23, 0x04881d05, 0x903103b9, 0x7c7e974c);
  }

  lemma Rest44(start: Regs, x: seq<Word>, n: nat, r0: Regs) returns (r: Regs)
    requires x == REST && |x| == 16 && n == 44 && Reached(start, x, n, r0)
    requires r0 == Regs(0xfff62809, 0x7c7e974c, 0x8cb5221c, 0xe37209ac)
    ensures Reached(start, x, n + 4, r) && r == Regs(0x54c9eb3a, 0x79c0710a, 0x2ec86f72, 0xd4d9c6ac)
  {
    hide Reached;
    r := r0;
    assert RotateLeft(0xed84b53e, 4) == 0xd84b53ee;
    r := Next(start, x, n, 44, r, 9, 4, 0xd9d4d039, 0x13b9bcfc, 0x54c9eb3a);
    assert RotateLeft(0x6e5001fb, 11) == 0x800fdb72;
    r := Next(start, x, n + 1, 45, r, 12, 11, 0xe6db99e5, 0xa4025e6a, 0xd4d9c6ac);
    assert RotateLeft(0xa8c659ee, 16) == 0x59eea8c6;
    r := Next(start, x, n + 2, 46, r, 15, 16, 0x1fa27cf8, 0xfc6ebada, 0x2ec86f72);
    assert RotateLeft(0xf0033095, 23) == 0x4af80198;
    r := Next(start, x, n + 3, 47, r, 2, 23, 0xc4ac5665, 0xaed842e4, 0x79c0710a);
  }

  lemma Rest48(start: Regs, x: seq<Word>, n: nat, r0: Regs) returns (r: Regs)
    requires x == REST && |x| == 16 && n == 48 && Reached(start, x, n, r0)
    requires r0 == Regs(0x54c9eb3a, 0x79c0710a, 0x2ec86f72, 0xd4d9c6ac)
    ensures Reached(start, x, n + 4, r) && r == Regs(0x02095af1, 0x2ba98e3f, 0xa8dcfe26, 0x13d245fd)
  {
    hide Reached;
    r := r0;
    assert RotateLeft(0x9e2123a7, 6) == 0x8848e9e7;
    r := Next(start, x, n, 48, r, 0, 6, 0xf4292244, 0x552e1629, 0x02095af1);
    assert RotateLeft(0xc304723a, 10) == 0x11c8eb0c;
    r := Next(start, x, n + 1, 49, r, 7, 10, 0x432aff97, 0xaaffabf7, 0x13d245fd);
    assert RotateLeft(0x70532a15, 15) == 0x950ab829;
    r := Next(start, x, n + 2, 50, r, 14, 15, 0xab9423a7, 0x95f6950c, 0xa8dcfe26);
    assert RotateLeft(0x6480cc16, 21) == 0x82cc9019;
    r := Next(start, x, n + 3, 51, r, 5, 21, 0xfc93a039, 0xee2cbad3, 0x2ba98e3f);
  }

  lemma Rest52(start: Regs, x: seq<Word>, n: nat, r0: Regs) returns (r: Regs)
    requires x == REST && |x| == 16 && n == 52 && Reached(start, x, n, r0)
    requires r0 == Regs(0x02095af1, 0x2ba98e3f, 0xa8dcfe26, 0x13d245fd)
    ensures Reached(start, x, n + 4, r) && r == Regs(0xe126c1aa, 0xfb7bcee0, 0x6f287ff5, 0x96b00fa7)
  {
    hide Reached;
    r := r0;
    assert RotateLeft(0xaed5f4cd, 6) == 0xb57d336b;
    r := Next(start, x, n, 52, r, 12, 6, 0x655b59c3, 0x47714019, 0xe126c1aa);
    assert RotateLeft(0x7f6d6253, 10) == 0xb5894dfd;
    r := Next(start, x, n + 1, 53, r, 3, 10, 0x8f0ccc92, 0xdc8e4fc4, 0x96b00fa7);
    assert RotateLeft(0xe09db0f0, 15) == 0xd878704e;
    r := Next(start, x, n + 2, 54, r, 10, 15, 0xffeff47d, 0x37d0be4d, 0x6f287ff5);
    assert RotateLeft(0x9a775c62, 21) == 0x8c534eeb;
    r := Next(start, x, n + 3, 55, r, 1, 21, 0x85845dd1, 0xe9497052, 0xfb7bcee0);
  }

  lemma Rest56(start: Regs, x: seq<Word>, n: nat, r0: Regs) returns (r: Regs)
    requires x == REST && |x| == 16 && n == 56 && Reached(start, x, n, r0)
    requires r0 == Regs(0xe126c1aa, 0xfb7bcee0, 0x6f287ff5, 0x96b00fa7)
    ensures Reached(start, x, n + 4, r) && r == Regs(0x452c1099, 0x5ac74608, 0xc197ea8e, 0xca801ba6)
  {
    hide Reached;
    r := r0;
    assert RotateLeft(0xe526c106, 6) == 0x49b041b9;
    r := Next(start, x, n, 56, r, 8, 6, 0x6fa87e4f, 0x9457810d, 0x452c1099);
    assert RotateLeft(0xc3615502, 10) == 0x85540b0d;
    r := Next(start, x, n + 1, 57, r, 15, 10, 0xfe2ce6e0, 0x2e845e7b, 0xca801ba6);
    assert RotateLeft(0x9dd1ee2f, 15) == 0xf717cee8;
    r := Next(start, x, n + 2, 58, r, 6, 15, 0xa3014314, 0x8ba82b26, 0xc197ea8e);
    assert RotateLeft(0x7adbd4c9, 21) == 0x992f5b7a;
    r := Next(start, x, n + 3, 59, r, 13, 21, 0x4e0811a1, 0x3157f448, 0x5ac74608);
  }

  lemma Rest60(start: Regs, x: seq<Word>, n: nat, r0: Regs) returns (r: Regs)
    requires x == REST && |x| == 16 && n == 60 && Reached(start, x, n, r0)
    requires r0 == Regs(0x452c1099, 0x5ac74608, 0xc197ea8e, 0xca801ba6)
    ensures Reached(start, x, n + 4, r) && r == Regs(0x14ae42c6, 0x16dd9203, 0x826afd76, 0xa52dae75)
  {
    hide Reached;
    r := r0;
    assert RotateLeft(0xfae79bf2, 6) == 0xb9e6fcbe;
    r := Next(start, x, n, 60, r, 4, 6, 0xf7537e82, 0xbe680cd7, 0x14ae42c6);
    assert RotateLeft(0xebe41fda, 10) == 0x907f6baf;
    r := Next(start, x, n + 1, 61, r, 11, 10, 0xbd3af235, 0x642911ff, 0xa52dae75);
    assert RotateLeft(0x9e03ba7a, 15) == 0xdd3d4f01;
    r := Next(start, x, n + 2, 62, r, 2, 15, 0x2ad7d2bb, 0xb193fd31, 0x826afd76);
    assert RotateLeft(0x94a46ca3, 21) == 0x9472948d;
    r := Next(start, x, n + 3, 63, r, 9, 21, 0xeb86d391, 0x4e56530a, 0x16dd9203);
  }

  lemma RestSteps(x: seq<Word>)
    requires x == REST && |x| == 16
    ensures Reached(CHAINED, x, 64, Regs(0x14ae42c6, 0x16dd9203, 0x826afd76, 0xa52dae75))
  {
    hide *;
    NoSteps(CHAINED, x);
    ChainedIs();
    var r := Rest00(CHAINED, x, 0, CHAINED);
    r := Rest04(CHAINED, x, 4, r);
    r := Rest08(CHAINED, x, 8, r);
    r := Rest12(CHAINED, x, 12, r);
    r := Rest16(CHAINED, x, 16, r);
    r := Rest20(CHAINED, x, 20, r);
    r := Rest24(CHAINED, x, 24, r);
    r := Rest28(CHAINED, x, 28, r);
    r := Rest32(CHAINED, x, 32, r);
    r := Rest36(CHAINED, x, 36, r);
    r := Rest40(CHAINED, x, 40, r);
    r := Rest44(CHAINED, x, 44, r);
    r := Rest48(CHAINED, x, 48, r);
    r := Rest52(CHAINED, x, 52, r);
    r := Rest56(CHAINED, x, 56, r);
    r := Rest60(CHAINED, x, 60, r);
  }

  lemma ChainedIs()
    ensures CHAINED == Regs(0x83fd320b, 0xdefbe5cf, 0xa9b1642f, 0xfa6f932a)
    ensures Plus(INITIAL, Regs(0x1cb80f0a, 0xef2e3a46, 0x10f68731, 0xea3d3eb4)) == CHAINED
  {
  }

  const PART_0: seq<Byte> :=
    [0x41, 0x42, 0x43, 0x44, 0x45, 0x46, 0x47, 0x48, 0x49, 0x4a, 0x4b, 0x4c, 0x4d, 0x4e, 0x4f, 0x50]
  const PART_1: seq<Byte> :=
    [0x51, 0x52, 0x53, 0x54, 0x55, 0x56, 0x57, 0x58, 0x59, 0x5a, 0x61, 0x62, 0x63, 0x64, 0x65, 0x66]
  const PART_2: seq<Byte> :=
    [0x67, 0x68, 0x69, 0x6a, 0x6b, 0x6c, 0x6d, 0x6e, 0x6f, 0x70, 0x71, 0x72, 0x73, 0x74, 0x75, 0x76]
  const PART_3: seq<Byte> := [0x77, 0x78, 0x79, 0x7a, 0x30, 0x31, 0x32, 0x33, 0x34, 0x35, 0x36, 0x37, 0x38, 0x39]

  const SIXTY_TWO := PART_0 + PART_1 + PART_2 + PART_3

  lemma Part0(s: seq<Byte>)
    requires s == [0x41, 0x42, 0x43, 0x44, 0x45, 0x46, 0x47, 0x48, 0x49, 0x4a, 0x4b, 0x4c, 0x4d, 0x4e, 0x4f, 0x50]
    ensures |s| == 16 && forall i :: 0 <= i < 4 ==> DecodeWord(s[4 * i..4 * i + 4]) == LETTERS[i]
  {
    assert s[0..4] == [0x41, 0x42, 0x43, 0x44] && LETTERS[0] == 0x44434241;
    assert DecodeWord([0x41, 0x42, 0x43, 0x44]) == 0x44434241;
    assert s[4..8] == [0x45, 0x46, 0x47, 0x48] && LETTERS[1] == 0x48474645;
    assert DecodeWord([0x45, 0x46, 0x47, 0x48]) == 0x48474645;
    assert s[8..12] == [0x49, 0x4a, 0x4b, 0x4c] && LETTERS[2] == 0x4c4b4a49;
    assert DecodeWord([0x49, 0x4a, 0x4b, 0x4c]) == 0x4c4b4a49;
    assert s[12..16] == [0x4d, 0x4e, 0x4f, 0x50] && LETTERS[3] == 0x504f4e4d;
    assert DecodeWord([0x4d, 0x4e, 0x4f, 0x50]) == 0x504f4e4d;
    hide DecodeWord;
    hide LETTERS;
    forall i | 0 <= i < 4
      ensures DecodeWord(s[4 * i..4 * i + 4]) == LETTERS[i]
    {
      if i == 0 {
      } else if i == 1 {
      } else if i == 2 {
      } else {
      }
    }
  }

  lemma Part1(s: seq<Byte>)
    requires s == [0x51, 0x52, 0x53, 0x54, 0x55, 0x56, 0x57, 0x58, 0x59, 0x5a, 0x61, 0x62, 0x63, 0x64, 0x65, 0x66]
    ensures |s| == 16 && forall i :: 0 <= i < 4 ==> DecodeWord(s[4 * i..4 * i + 4]) == LETTERS[4 + i]
  {
    assert s[0..4] == [0x51, 0x52, 0x53, 0x54] && LETTERS[4] == 0x54535251;
    assert DecodeWord([0x51, 0x52, 0x53, 0x54]) == 0x54535251;
    assert s[4..8] == [0x55, 0x56, 0x57, 0x58] && LETTERS[5] == 0x58575655;
    assert DecodeWord([0x55, 0x56, 0x57, 0x58]) == 0x58575655;
    assert s[8..12] == [0x59, 0x5a, 0x61, 0x62] && LETTERS[6] == 0x62615a59;
    assert DecodeWord([0x59, 0x5a, 0x61, 0x62]) == 0x62615a59;
    assert s[12..16] == [0x63, 0x64, 0x65, 0x66] && LETTERS[7] == 0x66656463;
    assert DecodeWord([0x63, 0x64, 0x65, 0x66]) == 0x66656463;
    hide DecodeWord;
    hide LETTERS;
    forall i | 0 <= i < 4
      ensures DecodeWord(s[4 * i..4 * i + 4]) == LETTERS[4 + i]
    {
      if i == 0 {
      } else if i == 1 {
      } else if i == 2 {
      } else {
      }
    }
  }

  lemma Part2(s: seq<Byte>)
    requires s == [0x67, 0x68, 0x69, 0x6a, 0x6b, 0x6c, 0x6d, 0x6e, 0x6f, 0x70, 0x71, 0x72, 0x73, 0x74, 0x75, 0x76]
    ensures |s| == 16 && forall i :: 0 <= i < 4 ==> DecodeWord(s[4 * i..4 * i + 4]) == LETTERS[8 + i]
  {
    assert s[0..4] == [0x67, 0x68, 0x69, 0x6a] && LETTERS[8] == 0x6a696867;
    assert DecodeWord([0x67, 0x68, 0x69, 0x6a]) == 0x6a696867;
    assert s[4..8] == [0x6b, 0x6c, 0x6d, 0x6e] && LETTERS[9] == 0x6e6d6c6b;
    assert DecodeWord([0x6b, 0x6c, 0x6d, 0x6e]) == 0x6e6d6c6b;
    assert s[8..12] == [0x6f, 0x70, 0x71, 0x72] && LETTERS[10] == 0x7271706f;
    assert DecodeWord([0x6f, 0x70, 0x71, 0x72]) == 0x7271706f;
    assert s[12..16] == [0x73, 0x74, 0x75, 0x76] && LETTERS[11] == 0x76757473;
    assert DecodeWord([0x73, 0x74, 0x75, 0x76]) == 0x76757473;
    hide DecodeWord;
    hide LETTERS;
    forall i | 0 <= i < 4
      ensures DecodeWord(s[4 * i..4 * i + 4]) == LETTERS[8 + i]
    {
      if i == 0 {
      } else if i == 1 {
      } else if i == 2 {
      } else {
      }
    }
  }

  lemma Part3(s: seq<Byte>)
    requires s == [0x77, 0x78, 0x79, 0x7a, 0x30, 0x31, 0x32, 0x33, 0x34, 0x35, 0x36, 0x37, 0x38, 0x39, 0x80, 0x00]
    ensures |s| == 16 && forall i :: 0 <= i < 4 ==> DecodeWord(s[4 * i..4 * i + 4]) == LETTERS[12 + i]
  {
    assert s[0..4] == [0x77, 0x78, 0x79, 0x7a] && LETTERS[12] == 0x7a797877;
    assert DecodeWord([0x77, 0x78, 0x79, 0x7a]) == 0x7a797877;
    assert s[4..8] == [0x30, 0x31, 0x32, 0x33] && LETTERS[13] == 0x33323130;
    assert DecodeWord([0x30, 0x31, 0x32, 0x33]) == 0x33323130;
    assert s[8..12] == [0x34, 0x35, 0x36, 0x37] && LETTERS[14] == 0x37363534;
    assert DecodeWord([0x34, 0x35, 0x36, 0x37]) == 0x37363534;
    assert s[12..16] == [0x38, 0x39, 0x80, 0x00] && LETTERS[15] == 0x00803938;
    assert DecodeWord([0x38, 0x39, 0x80, 0x00]) == 0x00803938;
    hide DecodeWord;
    hide LETTERS;
    forall i | 0 <= i < 4
      ensures DecodeWord(s[4 * i..4 * i + 4]) == LETTERS[12 + i]
    {
      if i == 0 {
      } else if i == 1 {
      } else if i == 2 {
      } else {
      }
    }
  }

  lemma FourParts(block: seq<Byte>, a: seq<Byte>, b: seq<Byte>, c: seq<Byte>, d: seq<Byte>, j: nat, k: nat)
    requires |a| == |b| == |c| == |d| == 16 && block == a + b + c + d && k < 16 && j == k / 4
    ensures |block| == 64
    ensures var part, i := if j == 0 then a else if j == 1 then b else if j == 2 then c else d, k % 4;
      block[4 * k..4 * k + 4] == part[4 * i..4 * i + 4]
  {
    var part, i := if j == 0 then a else if j == 1 then b else if j == 2 then c else d, k % 4;
    assert block[16 * j..16 * j + 16] == part;
    assert block[4 * k..4 * k + 4] == block[16 * j..16 * j + 16][4 * i..4 * i + 4];
  }

  lemma BlockOfParts(block: seq<Byte>, a: seq<Byte>, b: seq<Byte>, c: seq<Byte>, d: seq<Byte>, w: seq<Word>)
    requires |a| == |b| == |c| == |d| == 16 && block == a + b + c + d && |w| == 16
    requires forall i :: 0 <= i < 4 ==> DecodeWord(a[4 * i..4 * i + 4]) == w[i]
    requires forall i :: 0 <= i < 4 ==> DecodeWord(b[4 * i..4 * i + 4]) == w[4 + i]
    requires forall i :: 0 <= i < 4 ==> DecodeWord(c[4 * i..4 * i + 4]) == w[8 + i]
    requires forall i :: 0 <= i < 4 ==> DecodeWord(d[4 * i..4 * i + 4]) == w[12 + i]
    ensures |block| == 64 && Decode(block) == w
  {
    hide DecodeWord;
    forall k | 0 <= k < 16
      ensures Decode(block)[k] == w[k]
    {
      FourParts(block, a, b, c, d, k / 4, k);
    }
  }

  lemma LastPart(d: seq<Byte>)
    requires d == PART_3 + [0x80, 0]
    ensures |d| == 16 && forall i :: 0 <= i < 4 ==> DecodeWord(d[4 * i..4 * i + 4]) == LETTERS[12 + i]
  {
    Part3(d);
  }

  lemma FirstBlockIs(block: seq<Byte>)
    requires block == PART_0 + PART_1 + PART_2 + (PART_3 + [0x80, 0])
    ensures |block| == 64 && Decode(block) == LETTERS
  {
    Part0(PART_0);
    Part1(PART_1);
    Part2(PART_2);
    LastPart(PART_3 + [0x80, 0]);
    LettersWords();
    hide *;
    BlockOfParts(block, PART_0, PART_1, PART_2, PART_3 + [0x80, 0], LETTERS);
  }

  lemma LettersWords()
    ensures |LETTERS| == 16
  {
  }

  lemma LettersLength()
    ensures EncodeLength64(496) == [0xf0, 1, 0, 0, 0, 0, 0, 0]
  {
    assert ByteOf(496) == 0xf0 && ByteOf(1) == 1 && ByteOf(0) == 0;
    hide ByteOf;
    assert EncodeLength(496) == [ByteOf(496), ByteOf(1), ByteOf(0), ByteOf(0)];
    assert EncodeLength(0) == [ByteOf(0), ByteOf(0), ByteOf(0), ByteOf(0)];
  }

  lemma LongBytes(message: seq<Byte>)
    requires |message| == 62
    ensures var p := Padded(message);
      && |p| == 128 && p[..62] == message && p[62] == 0x80 && p[120] == 0xf0 && p[121] == 1
      && forall i :: 63 <= i < 128 && i != 120 && i != 121 ==> p[i] == 0
  {
    LettersLength();
    hide EncodeLength64;
    hide Zeros;
    var zeros, length := Zeros(57), EncodeLength64(496);
    ZerosAre(57);
    var p := message + [0x80] + zeros + length;
    assert Padded(message) == p && |p| == 128;
    assert forall i :: 63 <= i < 120 ==> p[i] == zeros[i - 63];
    assert forall i :: 120 <= i < 128 ==> p[i] == length[i - 120];
  }

  /** Of a message of 62 bytes the end of the padding has a block of its own. */
  lemma PaddedLong(message: seq<Byte>)
    requires |message| == 62
    ensures var p := Padded(message);
      |p| == 128 && p[..64] == message + [0x80, 0] && IsRest(p[64..])
  {
    LongBytes(message);
    hide Padded;
    var p := Padded(message);
    assert p[..64] == p[..62] + [p[62], p[63]];
  }

  lemma LettersPadded()
    ensures var p := Padded(SIXTY_TWO);
      && |p| == 128 && p[..64] == PART_0 + PART_1 + PART_2 + (PART_3 + [0x80, 0]) && IsRest(p[64..])
  {
    LettersCount();
    PaddedLong(SIXTY_TWO);
    LettersAre();
    hide *;
    assert (PART_0 + PART_1 + PART_2 + PART_3) + [0x80, 0] == PART_0 + PART_1 + PART_2 + (PART_3 + [0x80, 0]);
  }

  lemma LettersAre()
    ensures SIXTY_TWO == PART_0 + PART_1 + PART_2 + PART_3
  {
  }

  lemma LettersCount()
    ensures |SIXTY_TWO| == 62
  {
  }

  predicate IsRest(block: seq<Byte>) {
    |block| == 64 && block[56] == 0xf0 && block[57] == 1 && forall i :: 0 <= i < 64 && i != 56 && i != 57 ==>
      block[i] == 0
  }

  lemma RestIs(block: seq<Byte>)
    requires IsRest(block)
    ensures |block| == 64 && Decode(block) == REST
  {
    LengthWord();
    RestWords();
    assert DecodeWord([0, 0, 0, 0]) == 0;
    hide DecodeWord;
    hide REST;
    forall k | 0 <= k < 16
      ensures Decode(block)[k] == REST[k]
    {
      var four := block[4 * k..4 * k + 4];
      assert |four| == 4 && forall i :: 0 <= i < 4 ==> four[i] == block[4 * k + i];
      if k == 14 {
        assert four == [0xf0, 1, 0, 0];
      } else {
        assert four == [0, 0, 0, 0];
      }
    }
  }

  lemma RestWords()
    ensures |REST| == 16 && REST[14] == 496 && forall k :: 0 <= k < 16 && k != 14 ==> REST[k] == 0
  {
  }

  lemma LengthWord()
    ensures DecodeWord([0xf0, 1, 0, 0]) == 496
  {
    assert DecodeWord([0xf0, 1, 0, 0]) == 496;
  }

  /** A message whose padding ends in a second block. */
  lemma TwoBlocks(message: seq<Byte>, x: seq<Word>, y: seq<Word>, r: Regs, h: Regs, s: Regs)
    requires |Padded(message)| == 128 && x == Decode(Padded(message)[..64]) && y == Decode(Padded(message)[64..])
    requires Reached(INITIAL, x, 64, r) && Plus(INITIAL, r) == h && Reached(h, y, 64, s)
    ensures Digest(message) == Encode(Plus(h, s))
  {
    hide Steps;
    hide Decode;
    hide Padded;
    hide Encode;
    var p := Padded(message);
    var q := p[64..];
    assert q[..64] == q && q[64..] == [];
    assert Blocks(INITIAL, p) == Blocks(Block(INITIAL, p[..64]), q);
    assert Blocks(h, q) == Blocks(Block(h, q), []);
  }

  /** MD5 ("ABCDEFGHIJKLMNOPQRSTUVWXYZabcdefghijklmnopqrstuvwxyz0123456789") = d174ab98d277d9f5a5611c2c9f419d9f */
  lemma DigestOfLetters()
    ensures Digest(SIXTY_TWO) ==
            [0xd1, 0x74, 0xab, 0x98, 0xd2, 0x77, 0xd9, 0xf5,
             0xa5, 0x61, 0x1c, 0x2c, 0x9f, 0x41, 0x9d, 0x9f]
  {
    hide *;
    LettersPadded();
    FirstBlockIs(Padded(SIXTY_TWO)[..64]);
    RestIs(Padded(SIXTY_TWO)[64..]);
    LettersSteps(LETTERS);
    ChainedIs();
    RestSteps(REST);
    TwoBlocks(SIXTY_TWO, LETTERS, REST, Regs(0x1cb80f0a, 0xef2e3a46, 0x10f68731, 0xea3d3eb4), CHAINED,
              Regs(0x14ae42c6, 0x16dd9203, 0x826afd76, 0xa52dae75));
    LettersEncoded();
  }

  lemma LettersEncoded()
    ensures Encode(Plus(CHAINED, Regs(0x14ae42c6, 0x16dd9203, 0x826afd76, 0xa52dae75))) ==
            [0xd1, 0x74, 0xab, 0x98, 0xd2, 0x77, 0xd9, 0xf5,
             0xa5, 0x61, 0x1c, 0x2c, 0x9f, 0x41, 0x9d, 0x9f]
  {
    assert Plus(CHAINED, Regs(0x14ae42c6, 0x16dd9203, 0x826afd76, 0xa52dae75))
        == Regs(0x98ab74d1, 0xf5d977d2, 0x2c1c61a5, 0x9f9d419f);
    assert EncodeWord(0x98ab74d1) == [0xd1, 0x74, 0xab, 0x98];
    assert EncodeWord(0xf5d977d2) == [0xd2, 0x77, 0xd9, 0xf5];
    assert EncodeWord(0x2c1c61a5) == [0xa5, 0x61, 0x1c, 0x2c];
    assert EncodeWord(0x9f9d419f) == [0x9f, 0x41, 0x9d, 0x9f];
  }
}
