/** The streaming MD5 state: init, append in any pieces, finish. */
module Md5 {
  import opened Rfc1321
  import opened Rfc1321TestSuite
  import opened Md5Process

  // ---------- folding blocks ----------

  /** Whole blocks are processed independently of what follows them. */
  lemma {:induction false} BlocksAppend(r: Regs, s: seq<Byte>, t: seq<Byte>)
    requires |s| % 64 == 0
    ensures Blocks(r, s + t) == Blocks(Blocks(r, s), t)
    decreases |s|
  {
    hide Block;
    if s == [] {
      assert s + t == t;
    } else {
      BlocksAppend(Block(r, s[..64]), s[64..], t);
      assert (s + t)[..64] == s[..64] && (s + t)[64..] == s[64..] + t;
    }
  }

  lemma OneBlock(r: Regs, s: seq<Byte>)
    requires |s| == 64
    ensures Blocks(r, s) == Block(r, s)
  {
    assert s[..64] == s && s[64..] == [];
  }

  /** One more block after whole blocks. */
  lemma NextBlock(s: seq<Byte>, block: seq<Byte>)
    requires |s| % 64 == 0 && |block| == 64
    ensures Blocks(INITIAL, s + block) == Block(Blocks(INITIAL, s), block)
  {
    BlocksAppend(INITIAL, s, block);
    OneBlock(Blocks(INITIAL, s), block);
  }

  /** An incomplete block changes nothing. */
  lemma PartialBlock(s: seq<Byte>, rest: seq<Byte>)
    requires |s| % 64 == 0 && |rest| < 64
    ensures Blocks(INITIAL, s + rest) == Blocks(INITIAL, s)
  {
    BlocksAppend(INITIAL, s, rest);
  }

  // ---------- the split counter ----------

  /** The two words of the counter as one number. */
  function Count(count0: int, count1: int): int {
    count1 * TWO_32 + count0
  }

  ghost predicate IsCount(count0: int, count1: int, bytes: nat) {
    && 0 <= count0 < TWO_32 && 0 <= count1 < TWO_32
    && Count(count0, count1) == (8 * bytes) % TWO_64
  }

  /** Adding the bits of n bytes word by word, with a carry, adds them modulo 2^64. */
  lemma CountAdd(count0: int, count1: int, bytes: nat, n: nat)
    requires IsCount(count0, count1, bytes) && n < 0x8000_0000
    ensures var nbits := (n * 8) % TWO_32;
      var low := (count0 + nbits) % TWO_32;
      var high := (count1 + n / 0x2000_0000) % TWO_32;
      IsCount(low, if low < nbits then (high + 1) % TWO_32 else high, bytes + n)
  {
    var h, nbits := n / 0x2000_0000, (n * 8) % TWO_32;
    assert n * 8 == h * TWO_32 + nbits;
    var carry := if count0 + nbits >= TWO_32 then 1 else 0;
    var low := count0 + nbits - carry * TWO_32;
    var total := count1 + h + carry;
    var high, q, k := total % TWO_32, total / TWO_32, (8 * bytes) / TWO_64;
    assert 8 * (bytes + n) == Count(low, high) + (q + k) * TWO_64;
    ModuloIs(8 * (bytes + n), Count(low, high), q + k);
    LowWord(count0, nbits);
    CarryInto(count1 + h);
  }

  lemma LowWord(x: int, y: int)
    requires 0 <= x < TWO_32 && 0 <= y < TWO_32
    ensures var low := (x + y) % TWO_32;
      if x + y >= TWO_32 then low == x + y - TWO_32 && low < y else low == x + y && low >= y
  {
  }

  lemma CarryInto(x: int)
    ensures (x % TWO_32 + 1) % TWO_32 == (x + 1) % TWO_32
  {
  }

  lemma ModuloIs(x: int, r: int, q: int)
    requires x == r + q * TWO_64 && 0 <= r < TWO_64
    ensures x % TWO_64 == r
  {
  }

  /** The low word alone tells where in a block the message ends. */
  lemma OffsetInBlock(count0: int, count1: int, bytes: nat)
    requires IsCount(count0, count1, bytes)
    ensures (count0 / 8) % 64 == bytes % 64
  {
    var k := (8 * bytes) / TWO_64;
    var w := k * TWO_32 + count1;
    assert count0 == 8 * (bytes - w * 0x2000_0000);
    assert count0 / 8 == bytes - w * 0x2000_0000;
    assert w * 0x2000_0000 == 64 * (w * 0x80_0000);
    ModuloShift(bytes, w * 0x80_0000);
  }

  lemma ModuloShift(x: int, m: int)
    ensures (x - 64 * m) % 64 == x % 64
  {
  }

  // ---------- the state ----------

  /** The buffer starts with the part of the message after its last whole block. */
  ghost predicate Buffered(buffer: seq<Byte>, message: seq<Byte>) {
    && |buffer| == 64
    && buffer[..|message| % 64] == message[|message| - |message| % 64..]
  }

  lemma Rejoined(m: seq<Byte>, data: seq<Byte>, p: int, n: int)
    requires 0 <= p <= n <= |data|
    ensures m + data[..p] + data[p..n] == m + data[..n]
  {
    assert data[..p] + data[p..n] == data[..n];
  }

  lemma BufferedTail(buffer: seq<Byte>, base: seq<Byte>, tail: seq<Byte>)
    requires |buffer| == 64 && |base| % 64 == 0 && |tail| < 64
    requires buffer[..|tail|] == tail
    ensures Buffered(buffer, base + tail)
  {
  }

  /** The value of a signed 32-bit int after a conversion or a sum that does not fit. */
  function ToInt32(n: nat): int {
    var r := n % TWO_32;
    if r < 0x8000_0000 then r else r - TWO_32
  }

  /** Behind a partial block the sum of offset and size overflows, and the piece is copied past the 64-byte buffer. */
  predicate Overrun(messageLength: nat, nbytes: int) {
    nbytes > 0 && messageLength % 64 != 0 && messageLength % 64 + nbytes >= 0x8000_0000
  }

  lemma SumOfOffset(offset: nat, nbytes: nat)
    requires offset < 64 && nbytes < 0x8000_0000
    ensures if offset + nbytes >= 0x8000_0000 then ToInt32(offset + nbytes) < 0
            else ToInt32(offset + nbytes) == offset + nbytes
  {
  }

  const PAD: seq<Byte> := [0x80] + Zeros(63)

  class Md5State {
    var count0: int
    var count1: int
    var abcd: Regs
    const buf: array<Byte>
    /** Everything appended so far. */
    ghost var message: seq<Byte>

    ghost predicate Valid()
      reads this, buf
    {
      && buf.Length == 64
      && IsCount(count0, count1, |message|)
      && abcd == Blocks(INITIAL, message)
      && Buffered(buf[..], message)
    }

    constructor Init()
      ensures Valid() && message == [] && fresh(buf)
    {
      count0, count1 := 0, 0;
      abcd := INITIAL;
      buf := new Byte[64];
      message := [];
    }

    /** Copies bytes into the buffer from an offset on. */
    method Copy(offset: nat, p: seq<Byte>)
      requires offset + |p| <= buf.Length
      modifies buf
      ensures buf[..offset] == old(buf[..offset])
      ensures buf[offset..offset + |p|] == p
      ensures buf[..offset + |p|] == old(buf[..offset]) + p
    {
      forall i | 0 <= i < |p| {
        buf[offset + i] := p[i];
      }
      assert buf[..offset + |p|] == buf[..offset] + buf[offset..offset + |p|];
    }

    /** Counts the bits of nbytes more bytes in the two words. */
    method AddCount(nbytes: int, ghost bytes: nat)
      requires 0 < nbytes < 0x8000_0000 && IsCount(count0, count1, bytes)
      modifies this`count0, this`count1
      ensures IsCount(count0, count1, bytes + nbytes)
    {
      var nbits := (nbytes * 8) % TWO_32;
      CountAdd(count0, count1, bytes, nbytes);
      count1 := (count1 + nbytes / 0x2000_0000) % TWO_32;
      count0 := (count0 + nbits) % TWO_32;
      if count0 < nbits {
        count1 := (count1 + 1) % TWO_32;
      }
    }

    /** Fills up the buffered block. */
    method FillBlock(offset: nat, data: seq<Byte>, nbytes: int, ghost base: seq<Byte>)
      returns (p: int, done: bool, overrun: bool)
      requires 0 < offset < 64 && 0 < nbytes <= |data| && nbytes < 0x8000_0000 && buf.Length == 64
      requires |base| % 64 == 0 && message == base + buf[..offset]
      requires IsCount(count0, count1, |message| + nbytes) && abcd == Blocks(INITIAL, message)
      modifies this`abcd, this`message, buf
      ensures overrun <==> offset + nbytes >= 0x8000_0000
      ensures !overrun && done ==> Valid() && message == old(message) + data[..nbytes]
      ensures !overrun && !done ==> message == old(message) && 0 < p <= nbytes && (|message| + p) % 64 == 0
      ensures !overrun && !done ==> abcd == Blocks(INITIAL, message + data[..p])
    {
      hide Blocks;
      hide Block;
      hide IsCount;
      hide Buffered;
      ghost var tail, piece := buf[..offset], data[..nbytes];
      SumOfOffset(offset, nbytes);
      p := if ToInt32(offset + nbytes) > 64 then 64 - offset else nbytes;
      done, overrun := false, offset + p > buf.Length;
      if overrun {
        return;
      }
      Copy(offset, data[..p]);
      done := offset + p < 64;
      if done {
        StillPartial(base, tail, piece);
        assert message + piece == base + (tail + piece);
        BufferedTail(buf[..], base, tail + piece);
        message := message + piece;
        return;
      }
      CompletedBlock(base, tail, data[..p]);
      assert buf[..] == tail + data[..p];
      abcd := Process(abcd, buf[..]);
    }

    /** Hashes as many blocks as there are, straight from the data. */
    method ProcessBlocks(data: seq<Byte>, start: int, nbytes: int, ghost m: seq<Byte>) returns (p: int)
      requires 0 <= start <= nbytes <= |data| && (|m| + start) % 64 == 0
      requires abcd == Blocks(INITIAL, m + data[..start])
      modifies this`abcd
      ensures start <= p <= nbytes < p + 64 && (|m| + p) % 64 == 0
      ensures abcd == Blocks(INITIAL, m + data[..p])
    {
      hide *;
      p := start;
      var left := nbytes - start;
      while left >= 64
        invariant start <= p <= nbytes && left == nbytes - p && (|m| + p) % 64 == 0
        invariant abcd == Blocks(INITIAL, m + data[..p])
        decreases left
      {
        NextBlock(m + data[..p], data[p..p + 64]);
        assert m + data[..p] + data[p..p + 64] == m + data[..p + 64];
        abcd := Process(abcd, data[p..p + 64]);
        p, left := p + 64, left - 64;
      }
    }

    /** Buffers what is left after the last whole block. */
    method KeepRest(data: seq<Byte>, p: int, nbytes: int, ghost m: seq<Byte>)
      requires 0 <= p <= nbytes <= |data| && nbytes < p + 64 && (|m| + p) % 64 == 0
      requires buf.Length == 64 && IsCount(count0, count1, |m| + nbytes)
      requires abcd == Blocks(INITIAL, m + data[..p])
      modifies this`message, buf
      ensures Valid() && message == m + data[..nbytes]
    {
      hide Blocks;
      hide Buffered;
      hide IsCount;
      var left := nbytes - p;
      if left != 0 {
        Copy(0, data[p..nbytes]);
      }
      PartialBlock(m + data[..p], data[p..nbytes]);
      Rejoined(m, data, p, nbytes);
      message := m + data[..nbytes];
      BufferedTail(buf[..], m + data[..p], data[p..nbytes]);
    }

    /** Takes the first nbytes bytes of data; none when nbytes is not positive. Stops where the original copies past
        the buffer. */
    method Append(data: seq<Byte>, nbytes: int) returns (overrun: bool)
      requires Valid() && nbytes <= |data| && nbytes < 0x8000_0000
      modifies this, buf
      ensures overrun <==> Overrun(|old(message)|, nbytes)
      ensures !overrun ==> Valid() && message == old(message) + if nbytes <= 0 then [] else data[..nbytes]
    {
      overrun := false;
      hide IsCount;
      hide Blocks;
      OffsetInBlock(count0, count1, |message|);
      var offset := (count0 / 8) % 64;
      if nbytes <= 0 {
        return;
      }
      AddCount(nbytes, |message|);
      var p, done := 0, false;
      ghost var m := message;
      hide *;
      assert m + data[..p] == m;
      if offset != 0 {
        p, done, overrun := FillBlock(offset, data, nbytes, m[..|m| - offset]);
        if overrun || done {
          return;
        }
      }
      p := ProcessBlocks(data, p, nbytes, m);
      KeepRest(data, p, nbytes, m);
    }

    /** Pads the message and delivers the digest. */
    method Finish() returns (digest: seq<Byte>)
      requires Valid()
      modifies this, buf
      ensures digest == Digest(old(message))
    {
      hide Blocks;
      ghost var m := message;
      var data := SaveLength();
      OffsetInBlock(count0, count1, |m|);
      var n := (55 - count0 / 8) % 64 + 1;
      PadLength(count0 / 8, |m|);
      var overrun := Append(PAD, n);
      assert PAD[..n] == [0x80] + Zeros(n - 1);
      overrun := Append(data, 8);
      assert data[..8] == data;
      assert message == Padded(m);
      digest := EncodeWord(abcd.a) + EncodeWord(abcd.b) + EncodeWord(abcd.c) + EncodeWord(abcd.d);
    }

    method SaveLength() returns (data: seq<Byte>)
      requires Valid()
      ensures data == EncodeLength64((8 * |message|) % TWO_64)
    {
      CountWords(count0, count1);
      data := EncodeLength(count0) + EncodeLength(count1);
    }
  }

  lemma CountWords(count0: int, count1: int)
    requires 0 <= count0 < TWO_32
    ensures Count(count0, count1) % TWO_32 == count0 && Count(count0, count1) / TWO_32 == count1
  {
  }

  lemma PadLength(x: int, bytes: int)
    requires x % 64 == bytes % 64
    ensures (55 - x) % 64 == (55 - bytes) % 64
  {
  }

  lemma StillPartial(base: seq<Byte>, tail: seq<Byte>, piece: seq<Byte>)
    requires |base| % 64 == 0 && |tail| + |piece| < 64
    ensures Blocks(INITIAL, base + tail + piece) == Blocks(INITIAL, base + tail)
    ensures |base + tail + piece| % 64 == |tail| + |piece|
  {
    hide Blocks;
    PartialBlock(base, tail);
    PartialBlock(base, tail + piece);
    assert base + tail + piece == base + (tail + piece);
  }

  lemma CompletedBlock(base: seq<Byte>, tail: seq<Byte>, piece: seq<Byte>)
    requires |base| % 64 == 0 && |tail| + |piece| == 64 && tail != [] && piece != []
    ensures Blocks(INITIAL, base + tail + piece) == Block(Blocks(INITIAL, base + tail), tail + piece)
    ensures |base + tail + piece| % 64 == 0
  {
    hide Blocks;
    hide Block;
    PartialBlock(base, tail);
    NextBlock(base, tail + piece);
    assert base + tail + piece == base + (tail + piece);
  }

  // ---------- one call for a whole message ----------

  /** The bytes Crypto::md5 really hashes: its size argument passes through a signed 32-bit int. */
  function Hashed(data: seq<Byte>): seq<Byte> {
    var n := ToInt32(|data|);
    if n <= 0 then [] else data[..n]
  }

  lemma ToInt32Fits(n: nat)
    ensures ToInt32(n) <= n && ToInt32(n) < 0x8000_0000
  {
  }

  lemma HashedBytes(data: seq<Byte>)
    ensures ToInt32(|data|) <= |data|
    ensures Hashed(data) == if ToInt32(|data|) <= 0 then [] else data[..ToInt32(|data|)]
  {
  }

  lemma EmptyHasNoOffset(nbytes: int)
    ensures !Overrun(0, nbytes)
  {
  }

  method CryptoMd5(data: seq<Byte>) returns (digest: seq<Byte>)
    ensures digest == Digest(Hashed(data))
  {
    hide *;
    ToInt32Fits(|data|);
    HashedBytes(data);
    var state := new Md5State.Init();
    EmptyHasNoOffset(ToInt32(|data|));
    var overrun := state.Append(data, ToInt32(|data|));
    assert state.message == Hashed(data);
    digest := state.Finish();
  }

  /** The whole message is hashed exactly when its size is below 2^31 bytes. */
  lemma HashedIsWhole(data: seq<Byte>)
    ensures Hashed(data) == data <==> |data| < 0x8000_0000
  {
    if |data| < 0x8000_0000 {
      assert ToInt32(|data|) == |data|;
    }
  }

  /** Three messages of the test suite in appendix A.5 of RFC 1321: none, abc, and all letters and digits. */
  method HashTestSuite() returns (empty: seq<Byte>, abc: seq<Byte>, all: seq<Byte>)
    ensures empty == [0xd4, 0x1d, 0x8c, 0xd9, 0x8f, 0x00, 0xb2, 0x04, 0xe9, 0x80, 0x09, 0x98, 0xec, 0xf8, 0x42, 0x7e]
    ensures all == [0xd1, 0x74, 0xab, 0x98, 0xd2, 0x77, 0xd9, 0xf5, 0xa5, 0x61, 0x1c, 0x2c, 0x9f, 0x41, 0x9d, 0x9f]
    ensures abc == [0x90, 0x01, 0x50, 0x98, 0x3c, 0xd2, 0x4f, 0xb0, 0xd6, 0x96, 0x3f, 0x7d, 0x28, 0xe1, 0x7f, 0x72]
  {
    hide *;
    empty := CryptoMd5([]);
    HashedIsWhole([]);
    DigestOfEmpty();
    abc := CryptoMd5([0x61, 0x62, 0x63]);
    HashedIsWhole([0x61, 0x62, 0x63]);
    DigestOfAbc();
    all := CryptoMd5(SIXTY_TWO);
    LettersCount();
    HashedIsWhole(SIXTY_TWO);
    DigestOfLetters();
  }

  function Concat(chunks: seq<seq<Byte>>): seq<Byte> {
    if chunks == [] then [] else Concat(chunks[..|chunks| - 1]) + chunks[|chunks| - 1]
  }

  /** Piece i is appended behind a partial block with which it makes up 2^31 bytes or more. */
  predicate OverrunAt(chunks: seq<seq<Byte>>, i: nat)
    requires i < |chunks|
  {
    Overrun(|Concat(chunks[..i])|, |chunks[i]|)
  }

  predicate SomeOverrun(chunks: seq<seq<Byte>>) {
    exists i :: 0 <= i < |chunks| && OverrunAt(chunks, i)
  }

  ghost predicate NoneOverrun(chunks: seq<seq<Byte>>, n: nat)
    requires n <= |chunks|
  {
    forall i :: 0 <= i < n ==> !OverrunAt(chunks, i)
  }

  lemma AllChunks(chunks: seq<seq<Byte>>)
    ensures NoneOverrun(chunks, 0) && Concat(chunks[..0]) == []
    ensures NoneOverrun(chunks, |chunks|) <==> !SomeOverrun(chunks)
  {
    hide OverrunAt;
  }

  lemma NextChunk(chunks: seq<seq<Byte>>, i: nat)
    requires i < |chunks|
    ensures Overrun(|Concat(chunks[..i])|, |chunks[i]|) ==> SomeOverrun(chunks)
    ensures NoneOverrun(chunks, i) && !Overrun(|Concat(chunks[..i])|, |chunks[i]|) ==> NoneOverrun(chunks, i + 1)
    ensures Concat(chunks[..i + 1]) == Concat(chunks[..i]) + if |chunks[i]| <= 0 then [] else chunks[i][..|chunks[i]|]
  {
    assert chunks[..i + 1][..i] == chunks[..i];
    assert chunks[i][..|chunks[i]|] == chunks[i];
    assert OverrunAt(chunks, i) == Overrun(|Concat(chunks[..i])|, |chunks[i]|);
    hide OverrunAt;
    hide Overrun;
    hide Concat;
  }

  /** However a message is cut into pieces that an int can count, the digest is that of the whole, unless some piece
      runs over the buffer. */
  method HashChunks(chunks: seq<seq<Byte>>) returns (overrun: bool, digest: seq<Byte>)
    requires forall i :: 0 <= i < |chunks| ==> |chunks[i]| < 0x8000_0000
    ensures overrun <==> SomeOverrun(chunks)
    ensures !overrun ==> digest == Digest(Concat(chunks))
  {
    hide *;
    var state := new Md5State.Init();
    overrun := false;
    AllChunks(chunks);
    for i := 0 to |chunks|
      invariant !overrun && NoneOverrun(chunks, i)
      invariant state.Valid() && fresh(state) && fresh(state.buf) && state.message == Concat(chunks[..i])
    {
      NextChunk(chunks, i);
      overrun := state.Append(chunks[i], |chunks[i]|);
      if overrun {
        return true, [];
      }
    }
    assert chunks[..|chunks|] == chunks;
    digest := state.Finish();
  }

  lemma PiecesJoin()
    ensures Concat([PART_0, [], PART_1 + PART_2 + PART_3]) == SIXTY_TWO
    ensures !SomeOverrun([PART_0, [], PART_1 + PART_2 + PART_3])
    ensures |PART_0| < 0x8000_0000 && |PART_1 + PART_2 + PART_3| < 0x8000_0000
  {
    var a, b: seq<Byte>, c := PART_0, [], PART_1 + PART_2 + PART_3;
    assert |a| == 16 && |c| == 46 && a + c == SIXTY_TWO;
    hide PART_0;
    hide PART_1;
    hide PART_2;
    hide PART_3;
    hide SIXTY_TWO;
    assert [a, b, c][..2] == [a, b] && [a, b, c][..1] == [a] && [a, b, c][..0] == [];
    assert [a, b][..1] == [a] && [a][..0] == [];
    assert Concat([a]) == a && Concat([a, b]) == a && Concat([a, b, c]) == a + c;
  }

  /** All letters and digits in pieces, one of them empty. */
  method HashPieces() returns (digest: seq<Byte>)
    ensures digest == [0xd1, 0x74, 0xab, 0x98, 0xd2, 0x77, 0xd9, 0xf5, 0xa5, 0x61, 0x1c, 0x2c, 0x9f, 0x41, 0x9d, 0x9f]
  {
    hide *;
    PiecesJoin();
    DigestOfLetters();
    var overrun;
    overrun, digest := HashChunks([PART_0, [], PART_1 + PART_2 + PART_3]);
  }

  /** One byte, then the most that an int can count: both are allowed, but not one after the other. */
  lemma OneByteFirst(first: seq<Byte>, second: seq<Byte>)
    requires |first| == 1 && |second| == 0x7FFF_FFFF
    ensures SomeOverrun([first, second]) && !SomeOverrun([second, first])
  {
    assert [first, second][..1] == [first] && [second, first][..1] == [second] && [second, first][..0] == [];
    assert [first][..0] == [] && [second][..0] == [];
    assert Concat([first]) == first && Concat([second]) == second;
    assert OverrunAt([first, second], 1);
  }
}
