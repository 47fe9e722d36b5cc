/** Bits of words and bytes, lowest first. */
module BitStrings {
  import opened ByteStreams

  function Pow2(n: nat): (p: nat)
    ensures p > 0
  {
    if n == 0 then 1 else 2 * Pow2(n - 1)
  }

  /** The lowest n bits of a word. */
  function Bits(value: nat, n: nat): (bits: seq<bool>)
    ensures |bits| == n
    decreases n
  {
    if n == 0 then [] else [value % 2 == 1] + Bits(value / 2, n - 1)
  }

  function Value(bits: seq<bool>): nat {
    if bits == [] then 0 else (if bits[0] then 1 else 0) + 2 * Value(bits[1..])
  }

  /** The bitwise or of two words. */
  function Or(a: nat, b: nat): nat
    decreases a + b
  {
    if a == 0 then b
    else if b == 0 then a
    else (if a % 2 == 1 || b % 2 == 1 then 1 else 0) + 2 * Or(a / 2, b / 2)
  }

  lemma PowersOfTwo()
    ensures Pow2(8) == 256
  {
    assert Pow2(4) == 16;
  }

  function ShiftLeft(a: nat, k: nat): nat {
    a * Pow2(k)
  }

  function Bit(b: bool): nat {
    if b then 1 else 0
  }

  lemma {:induction false} ValueOfBits(value: nat, n: nat)
    ensures Value(Bits(value, n)) == value % Pow2(n)
    decreases n
  {
    if n > 0 {
      ValueOfBits(value / 2, n - 1);
      assert Bits(value, n)[1..] == Bits(value / 2, n - 1);
      ModDouble(value, Pow2(n - 1));
    }
  }

  lemma ModDouble(v: nat, p: nat)
    requires p > 0
    ensures v % (2 * p) == v % 2 + 2 * ((v / 2) % p)
  {
    var q, r := (v / 2) / p, (v / 2) % p;
    assert v / 2 == q * p + r;
    assert v == q * (2 * p) + (v % 2 + 2 * r);
    ModIs(v, 2 * p, q, v % 2 + 2 * r);
  }

  lemma ModIs(v: nat, m: nat, q: nat, r: nat)
    requires m > 0 && v == q * m + r && r < m
    ensures v % m == r
  {
    var d := v / m - q;
    assert (v / m) * m + v % m == v;
    assert d * m == r - v % m by { Distribute(v / m, q, m); }
    Zero(d, m, r - v % m);
  }

  lemma Distribute(a: int, b: int, m: int)
    ensures (a - b) * m == a * m - b * m
  {
  }

  lemma Zero(d: int, m: int, x: int)
    requires d * m == x && -m < x < m
    ensures x == 0
  {
    if d >= 1 {
      AtLeast(d, m);
    } else if d <= -1 {
      AtLeast(-d, m);
    }
  }

  lemma AtLeast(d: int, m: int)
    requires d >= 1 && m >= 0
    ensures d * m >= m
  {
  }

  lemma {:induction false} BitsOfValue(bits: seq<bool>)
    ensures Bits(Value(bits), |bits|) == bits
    ensures Value(bits) < Pow2(|bits|)
  {
    if bits != [] {
      BitsOfValue(bits[1..]);
      assert Value(bits) / 2 == Value(bits[1..]);
    }
  }

  /** Setting the next higher bit of a word extends its bit string. */
  lemma {:induction false} ValueAppend(bits: seq<bool>, b: bool)
    ensures Value(bits + [b]) == Value(bits) + ShiftLeft(Bit(b), |bits|)
  {
    if bits == [] {
      assert [b][1..] == [];
    } else {
      ValueAppend(bits[1..], b);
      assert (bits + [b])[1..] == bits[1..] + [b];
    }
  }

  /** Or with a shifted bit above all bits set is addition. */
  lemma {:induction false} OrAbove(a: nat, b: bool, k: nat)
    requires a < Pow2(k)
    ensures Or(a, ShiftLeft(Bit(b), k)) == a + ShiftLeft(Bit(b), k)
    decreases k
  {
    if a > 0 && b {
      var p := Pow2(k - 1);
      assert ShiftLeft(1, k) == 2 * p && ShiftLeft(1, k - 1) == p;
      OrAbove(a / 2, b, k - 1);
    }
  }

  lemma OrAppends(bits: seq<bool>, b: bool)
    ensures Or(Value(bits), ShiftLeft(Bit(b), |bits|)) == Value(bits + [b])
  {
    BitsOfValue(bits);
    OrAbove(Value(bits), b, |bits|);
    ValueAppend(bits, b);
  }

  // ---------- bit strings in bytes ----------

  /** The bits of a byte sequence. */
  function BytesBits(s: seq<Byte>): (bits: seq<bool>)
    ensures |bits| == 8 * |s|
  {
    if s == [] then [] else BytesBits(s[..|s| - 1]) + Bits(s[|s| - 1], 8)
  }

  lemma BytesBitsAppend(s: seq<Byte>, b: Byte)
    ensures BytesBits(s + [b]) == BytesBits(s) + Bits(b, 8)
  {
    assert (s + [b])[..|s|] == s;
  }

  lemma {:induction false} BytesBitsConcat(s: seq<Byte>, t: seq<Byte>)
    ensures BytesBits(s + t) == BytesBits(s) + BytesBits(t)
    decreases |t|
  {
    hide Bits;
    if t == [] {
      assert s + t == s;
    } else {
      var n := |t| - 1;
      BytesBitsConcat(s, t[..n]);
      assert (s + t)[..|s| + n] == s + t[..n];
    }
  }

  function Zeros(n: nat): (zeros: seq<bool>)
    ensures |zeros| == n
  {
    seq(n, _ => false)
  }

  lemma {:induction false} ValueOfZeros(n: nat)
    ensures Value(Zeros(n)) == 0
  {
    if n > 0 {
      ValueOfZeros(n - 1);
      assert Zeros(n)[1..] == Zeros(n - 1);
    }
  }

  lemma {:induction false} ValueConcat(a: seq<bool>, b: seq<bool>)
    ensures Value(b) == 0 ==> Value(a + b) == Value(a)
  {
    if a == [] {
      assert a + b == b;
    } else {
      ValueConcat(a[1..], b);
      assert (a + b)[1..] == a[1..] + b;
    }
  }

  /** A byte that holds fewer than eight bits is filled up with zeros. */
  lemma PaddedByte(bits: seq<bool>)
    requires |bits| <= 8
    ensures Value(bits) < 256 && Bits(Value(bits), 8) == bits + Zeros(8 - |bits|)
  {
    PowersOfTwo();
    hide *;
    var padded := bits + Zeros(8 - |bits|);
    assert |padded| == 8;
    ValueOfZeros(8 - |bits|);
    ValueConcat(bits, Zeros(8 - |bits|));
    BitsOfValue(padded);
  }

  /** The bits of byte i are bits 8 i to 8 i + 7. */
  lemma {:induction false} ByteBits(s: seq<Byte>, i: nat)
    requires i < |s|
    ensures BytesBits(s)[8 * i..8 * i + 8] == Bits(s[i], 8)
    decreases |s|
  {
    hide Bits;
    if i < |s| - 1 {
      ByteBits(s[..|s| - 1], i);
    }
  }

  /** The bits of a prefix are a prefix of the bits. */
  lemma PrefixBits(s: seq<Byte>, n: nat)
    requires n <= |s|
    ensures BytesBits(s)[..8 * n] == BytesBits(s[..n])
  {
    hide *;
    BytesBitsConcat(s[..n], s[n..]);
    assert s[..n] + s[n..] == s;
  }

  // ---------- single bits of a word ----------

  predicate TestBit(a: nat, p: nat) {
    if p == 0 then a % 2 == 1 else TestBit(a / 2, p - 1)
  }

  lemma {:induction false} TestBitOfZero(p: nat)
    ensures !TestBit(0, p)
  {
    if p > 0 {
      TestBitOfZero(p - 1);
    }
  }

  lemma {:induction false} TestBitOfOr(a: nat, b: nat, p: nat)
    ensures TestBit(Or(a, b), p) <==> TestBit(a, p) || TestBit(b, p)
    decreases p
  {
    if a == 0 {
      TestBitOfZero(p);
    } else if b == 0 {
      TestBitOfZero(p);
    } else if p > 0 {
      TestBitOfOr(a / 2, b / 2, p - 1);
    }
  }

  lemma {:induction false} TestBitOfPower(k: nat, p: nat)
    ensures TestBit(Pow2(k), p) <==> k == p
    decreases k
  {
    if k == 0 {
      if p > 0 {
        TestBitOfZero(p - 1);
      }
    } else if p > 0 {
      TestBitOfPower(k - 1, p - 1);
    }
  }

  /** Or with 1 << k sets bit k. */
  lemma SetBit(a: nat, k: nat, p: nat)
    ensures TestBit(Or(a, ShiftLeft(1, k)), p) <==> TestBit(a, p) || p == k
  {
    TestBitOfOr(a, Pow2(k), p);
    TestBitOfPower(k, p);
  }

  function ShiftRight(a: nat, k: nat): nat {
    if k == 0 then a else ShiftRight(a, k - 1) / 2
  }

  /** The lowest bit after k shifts is bit k. */
  lemma {:induction false} LowestBit(a: nat, k: nat)
    ensures ShiftRight(a, k) % 2 == 1 <==> TestBit(a, k)
    decreases k
  {
    if k > 0 {
      ShiftFirst(a, k);
      LowestBit(a / 2, k - 1);
    }
  }

  lemma {:induction false} ShiftFirst(a: nat, k: nat)
    requires k > 0
    ensures ShiftRight(a, k) == ShiftRight(a / 2, k - 1)
    decreases k
  {
    if k > 1 {
      ShiftFirst(a, k - 1);
    }
  }
}
