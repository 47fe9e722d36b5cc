/** The 64-step transformation of one block, as section 3.4 of RFC 1321 defines it. */
module Rfc1321 {

  type Byte = bv8
  type Word = bv32

  /** The four words of the message digest buffer. */
  datatype Regs = Regs(a: Word, b: Word, c: Word, d: Word)

  /** Section 3.3. */
  const INITIAL := Regs(0x67452301, 0xefcdab89, 0x98badcfe, 0x10325476)

  /** X <<< n */
  function RotateLeft(x: Word, n: nat): Word
    requires 0 < n < 32
  {
    (x << n) | (x >> (32 - n))
  }

  // The four auxiliary functions of section 3.4

  function F(x: Word, y: Word, z: Word): Word {
    (x & y) | (!x & z)
  }

  function G(x: Word, y: Word, z: Word): Word {
    (x & z) | (y & !z)
  }

  function H(x: Word, y: Word, z: Word): Word {
    x ^ y ^ z
  }

  function I(x: Word, y: Word, z: Word): Word {
    y ^ (x | !z)
  }

  function Mix(i: nat, x: Word, y: Word, z: Word): Word {
    if i < 16 then F(x, y, z) else if i < 32 then G(x, y, z) else if i < 48 then H(x, y, z) else I(x, y, z)
  }

  /** The word of the block that step i uses. */
  function WordIndex(i: nat): (k: nat)
    ensures k < 16
  {
    if i < 16 then i else if i < 32 then (5 * i + 1) % 16 else if i < 48 then (3 * i + 5) % 16 else (7 * i) % 16
  }

  /** The rotation of step i. */
  function Shift(i: nat): (s: nat)
    ensures 0 < s < 32
  {
    var j := i % 4;
    if i < 16 then (if j == 0 then 7 else if j == 1 then 12 else if j == 2 then 17 else 22)
    else if i < 32 then (if j == 0 then 5 else if j == 1 then 9 else if j == 2 then 14 else 20)
    else if i < 48 then (if j == 0 then 4 else if j == 1 then 11 else if j == 2 then 16 else 23)
    else (if j == 0 then 6 else if j == 1 then 10 else if j == 2 then 15 else 21)
  }

  /** The integer part of 2^32 times abs(sin(i + 1)), round by round. */
  function Sine(i: nat): Word
    requires i < 64
  {
    if i < 16 then Sine1(i) else if i < 32 then Sine2(i - 16) else if i < 48 then Sine3(i - 32) else Sine4(i - 48)
  }

  function Sine1(i: nat): Word
    requires i < 16
  {
    match i
    case 0 => 0xd76aa478
    case 1 => 0xe8c7b756
    case 2 => 0x242070db
    case 3 => 0xc1bdceee
    case 4 => 0xf57c0faf
    case 5 => 0x4787c62a
    case 6 => 0xa8304613
    case 7 => 0xfd469501
    case 8 => 0x698098d8
    case 9 => 0x8b44f7af
    case 10 => 0xffff5bb1
    case 11 => 0x895cd7be
    case 12 => 0x6b901122
    case 13 => 0xfd987193
    case 14 => 0xa679438e
    case _ => 0x49b40821
  }

  function Sine2(i: nat): Word
    requires i < 16
  {
    match i
    case 0 => 0xf61e2562
    case 1 => 0xc040b340
    case 2 => 0x265e5a51
    case 3 => 0xe9b6c7aa
    case 4 => 0xd62f105d
    case 5 => 0x02441453
    case 6 => 0xd8a1e681
    case 7 => 0xe7d3fbc8
    case 8 => 0x21e1cde6
    case 9 => 0xc33707d6
    case 10 => 0xf4d50d87
    case 11 => 0x455a14ed
    case 12 => 0xa9e3e905
    case 13 => 0xfcefa3f8
    case 14 => 0x676f02d9
    case _ => 0x8d2a4c8a
  }

  function Sine3(i: nat): Word
    requires i < 16
  {
    match i
    case 0 => 0xfffa3942
    case 1 => 0x8771f681
    case 2 => 0x6d9d6122
    case 3 => 0xfde5380c
    case 4 => 0xa4beea44
    case 5 => 0x4bdecfa9
    case 6 => 0xf6bb4b60
    case 7 => 0xbebfbc70
    case 8 => 0x289b7ec6
    case 9 => 0xeaa127fa
    case 10 => 0xd4ef3085
    case 11 => 0x04881d05
    case 12 => 0xd9d4d039
    case 13 => 0xe6db99e5
    case 14 => 0x1fa27cf8
    case _ => 0xc4ac5665
  }

  function Sine4(i: nat): Word
    requires i < 16
  {
    match i
    case 0 => 0xf4292244
    case 1 => 0x432aff97
    case 2 => 0xab9423a7
    case 3 => 0xfc93a039
    case 4 => 0x655b59c3
    case 5 => 0x8f0ccc92
    case 6 => 0xffeff47d
    case 7 => 0x85845dd1
    case 8 => 0x6fa87e4f
    case 9 => 0xfe2ce6e0
    case 10 => 0xa3014314
    case 11 => 0x4e0811a1
    case 12 => 0xf7537e82
    case 13 => 0xbd3af235
    case 14 => 0x2ad7d2bb
    case _ => 0xeb86d391
  }

  /** b + ((a + f + x + t) <<< s) */
  function Operation(a: Word, b: Word, f: Word, x: Word, s: nat, t: Word): Word
    requires 0 < s < 32
  {
    b + RotateLeft(a + f + x + t, s)
  }

  /** One step; the registers change roles from step to step. */
  function Step(r: Regs, x: seq<Word>, i: nat): Regs
    requires |x| == 16 && i < 64
  {
    Regs(r.d, Operation(r.a, r.b, Mix(i, r.b, r.c, r.d), x[WordIndex(i)], Shift(i), Sine(i)), r.b, r.c)
  }

  /** The first n steps. */
  function Steps(r: Regs, x: seq<Word>, n: nat): Regs
    requires |x| == 16 && n <= 64
  {
    if n == 0 then r else Step(Steps(r, x, n - 1), x, n - 1)
  }

  /** Four bytes, low-order byte first. */
  function DecodeWord(s: seq<Byte>): Word
    requires |s| == 4
  {
    (s[0] as Word) + ((s[1] as Word) << 8) + ((s[2] as Word) << 16) + ((s[3] as Word) << 24)
  }

  function Decode(block: seq<Byte>): (x: seq<Word>)
    requires |block| == 64
    ensures |x| == 16
  {
    seq(16, k requires 0 <= k < 16 => DecodeWord(block[4 * k..4 * k + 4]))
  }

  function Plus(r: Regs, s: Regs): Regs {
    Regs(r.a + s.a, r.b + s.b, r.c + s.c, r.d + s.d)
  }

  /** The buffer after one more block. */
  function Block(r: Regs, block: seq<Byte>): Regs
    requires |block| == 64
  {
    Plus(r, Steps(r, Decode(block), 64))
  }

  /** The buffer after all complete blocks of a message. */
  function Blocks(r: Regs, message: seq<Byte>): Regs
    decreases |message|
  {
    if |message| < 64 then r else Blocks(Block(r, message[..64]), message[64..])
  }

  // ---------- sections 3.1, 3.2 and 3.5 ----------

  const TWO_32: int := 0x1_0000_0000
  const TWO_64: int := 0x1_0000_0000_0000_0000

  function ByteOf(x: int): Byte {
    (x % 256) as Byte
  }

  /** The low 32 bits of a number, low-order byte first. */
  function EncodeLength(x: int): (s: seq<Byte>)
    ensures |s| == 4
  {
    [ByteOf(x), ByteOf(x / 0x100), ByteOf(x / 0x1_0000), ByteOf(x / 0x100_0000)]
  }

  /** A 64-bit number as two words, low-order word first. */
  function EncodeLength64(x: int): (s: seq<Byte>)
    ensures |s| == 8
  {
    EncodeLength(x % TWO_32) + EncodeLength(x / TWO_32)
  }

  function Zeros(n: nat): seq<Byte> {
    seq(n, _ => 0)
  }

  /** A single 1 bit, zeros up to 448 bits modulo 512, and the length in bits modulo 2^64. */
  function Padded(message: seq<Byte>): seq<Byte> {
    message + [0x80] + Zeros((55 - |message|) % 64) + EncodeLength64((8 * |message|) % TWO_64)
  }

  function EncodeWord(w: Word): (s: seq<Byte>)
    ensures |s| == 4
  {
    [(w & 0xff) as Byte, ((w >> 8) & 0xff) as Byte, ((w >> 16) & 0xff) as Byte, ((w >> 24) & 0xff) as Byte]
  }

  function Encode(r: Regs): (s: seq<Byte>)
    ensures |s| == 16
  {
    EncodeWord(r.a) + EncodeWord(r.b) + EncodeWord(r.c) + EncodeWord(r.d)
  }

  /** The message digest. */
  function Digest(message: seq<Byte>): (s: seq<Byte>)
    ensures |s| == 16
  {
    Encode(Blocks(INITIAL, Padded(message)))
  }
}
