/** Byte sequences as files see them. */
module ByteStreams {
  import opened Integers

  type Byte = x: int | 0 <= x < 256

  /** The contents have grown to reach n bytes; what the new bytes hold is left open. */
  ghost predicate Extended(before: seq<Byte>, after: seq<Byte>, n: int) {
    before <= after && |after| == Max(|before|, n)
  }

  /** The bytes b have been written at position p; a gap before them may hold anything. */
  ghost predicate Overwritten(before: seq<Byte>, p: int, b: seq<Byte>, after: seq<Byte>) {
    && 0 <= p && |after| == Max(|before|, p + |b|)
    && after[p..p + |b|] == b
    && (forall i :: 0 <= i < |before| && !(p <= i < p + |b|) ==> after[i] == before[i])
  }

  /** At the end of the contents, writing is appending. */
  lemma OverwrittenAtEnd(before: seq<Byte>, b: seq<Byte>, after: seq<Byte>)
    ensures Overwritten(before, |before|, b, after) <==> after == before + b
  {
    if Overwritten(before, |before|, b, after) {
      assert after[..|before|] == before;
      assert after == after[..|before|] + after[|before|..];
    }
  }

  /** Two adjacent writes are one. */
  lemma OverwrittenTwice(c0: seq<Byte>, p: int, a: seq<Byte>, c1: seq<Byte>, b: seq<Byte>, c2: seq<Byte>)
    requires Overwritten(c0, p, a, c1) && Overwritten(c1, p + |a|, b, c2)
    ensures Overwritten(c0, p, a + b, c2)
  {
    assert c2[p..p + |a|] == c1[p..p + |a|];
    assert c2[p..p + |a + b|] == c2[p..p + |a|] + c2[p + |a|..p + |a| + |b|];
  }

  // ---------- words and strings ----------

  /** The bytes of a word on a little-endian machine, or in the opposite order. */
  function WordBytes(u: nat, swapBytes: bool): (s: seq<Byte>)
    ensures |s| == 4
  {
    var a, b, c, d := u % 256, u / 0x100 % 256, u / 0x1_0000 % 256, u / 0x100_0000 % 256;
    if swapBytes then [d, c, b, a] else [a, b, c, d]
  }

  /** Where the bytes of a word that has been written are found, the lowest first unless they are swapped. */
  lemma WordWritten(before: seq<Byte>, p: int, u: nat, swapBytes: bool, after: seq<Byte>)
    requires Overwritten(before, p, WordBytes(u, swapBytes), after)
    ensures after[p + if swapBytes then 3 else 0] == u % 256
    ensures after[p + if swapBytes then 2 else 1] == u / 256 % 256
    ensures after[p + if swapBytes then 1 else 2] == u / 65_536 % 256
    ensures after[p + if swapBytes then 0 else 3] == u / 16_777_216 % 256
  {
    var word := after[p..p + 4];
    assert forall k :: 0 <= k < 4 ==> word[k] == after[p + k];
  }

  function WordOf(s: seq<Byte>, swapBytes: bool): nat
    requires |s| == 4
  {
    var a: int, b: int, c: int, d: int := s[0], s[1], s[2], s[3];
    if swapBytes then d + 0x100 * c + 0x1_0000 * b + 0x100_0000 * a
    else a + 0x100 * b + 0x1_0000 * c + 0x100_0000 * d
  }

  lemma WordRoundTrip(u: nat, swapBytes: bool)
    requires u < 0x1_0000_0000
    ensures WordOf(WordBytes(u, swapBytes), swapBytes) == u
  {
    var v, w, x := u / 0x100, u / 0x1_0000, u / 0x100_0000;
    assert w == v / 0x100 && x == w / 0x100;
    assert u == u % 0x100 + 0x100 * v && v == v % 0x100 + 0x100 * w && w == w % 0x100 + 0x100 * x;
    var s := WordBytes(u, swapBytes);
    var a: int, b: int, c: int, d: int := u % 0x100, v % 0x100, w % 0x100, x;
    assert s == if swapBytes then [d, c, b, a] else [a, b, c, d];
  }

  /** What a C string function sees of a byte sequence: the bytes before the first null. */
  function CString(s: seq<Byte>): (t: seq<Byte>)
    ensures |t| <= |s| && t == s[..|t|] && 0 !in t
    ensures |t| < |s| ==> s[|t|] == 0
  {
    if s == [] || s[0] == 0 then []
    else [s[0]] + CString(s[1..])
  }

  lemma {:induction false} CStringIs(t: seq<Byte>, rest: seq<Byte>)
    requires 0 !in t
    ensures CString(t + [0] + rest) == t && CString(t) == t
  {
    if t == [] {
      assert ([] + [0] + rest)[0] == 0;
    } else {
      CStringIs(t[1..], rest);
      assert (t + [0] + rest)[1..] == t[1..] + [0] + rest;
    }
  }

  /** Reading up to the first null, or to the end, gives the string of the whole. */
  lemma {:induction false} CStringOfPrefix(s: seq<Byte>, n: nat)
    requires n < |s| && 0 !in s[..n] && (s[n] == 0 || n + 1 == |s|)
    ensures CString(s[..n + 1]) == CString(s) && n + 1 == Min(|CString(s)| + 1, |s|)
    decreases n
  {
    if n > 0 {
      assert s[0] == s[..n][0];
      assert forall b :: b in s[1..][..n - 1] ==> b in s[..n];
      CStringOfPrefix(s[1..], n - 1);
      assert s[1..][..n] == s[..n + 1][1..];
    }
  }

  function EvenBytes(s: seq<Byte>): seq<Byte> {
    CString(s) + [0] + if (|CString(s)| + 1) % 2 == 1 then [0] else []
  }

  function String32Bytes(s: seq<Byte>, swapBytes: bool): seq<Byte> {
    WordBytes(|CString(s)| + 1, swapBytes) + (CString(s) + [0])
  }
}
