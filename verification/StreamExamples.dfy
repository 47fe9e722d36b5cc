/** Some items, the file they are saved to, and what is read from it. */
module StreamExamples {
  import opened BitStrings
  import opened ByteStreams
  import opened StreamRoundTrip
  import Out = BinaryOutputs
  import In = BinaryInputs

  /** The first field has a bit more than its width. */
  const FIELDS := [Field(14, 3), Field(1, 2), Field(257, 9)]

  /** The word 01020304 in hexadecimal digits, bit fields, and the strings ab, c, and d up to a null. */
  const ITEMS := [Word(16_909_060), Fields(FIELDS), EvenText([97, 98]), LongText([99]), Text([100, 0, 101])]

  const SAVED: seq<Byte> := [4, 3, 2, 1, 46, 32, 97, 98, 0, 0, 2, 0, 0, 0, 99, 0, 100, 0]
  const SAVED_SWAPPED: seq<Byte> := [1, 2, 3, 4, 46, 32, 97, 98, 0, 0, 0, 0, 0, 2, 99, 0, 100, 0]

  const LOADED :=
    [Word(16_909_060), Fields([Field(6, 3), Field(1, 2), Field(257, 9)]), EvenText([97, 98]), LongText([99]),
     Text([100])]

  /** The bits of the fields, each from its lowest. */
  const PACKED := [false, true, true, true, false, true, false, false, false, false, false, false, false, true]

  lemma NextBit(value: nat, n: nat)
    requires n > 0
    ensures Bits(value, n) == [value % 2 == 1] + Bits(value / 2, n - 1)
  {
  }

  lemma LongField()
    ensures Bits(257, 9) == [true, false, false, false, false, false, false, false, true]
  {
    hide Bits;
    NextBit(257, 9);
    NextBit(128, 8);
    NextBit(64, 7);
    NextBit(32, 6);
    NextBit(16, 5);
    NextBit(8, 4);
    NextBit(4, 3);
    NextBit(2, 2);
    NextBit(1, 1);
  }

  lemma FieldsAreBits()
    ensures FieldBits(FIELDS) == PACKED
  {
    LongField();
    assert Bits(14, 3) == [false, true, true] && Bits(1, 2) == [true, false];
    hide Bits;
    FieldBitsAppend(FIELDS, 0);
    FieldBitsAppend(FIELDS, 1);
    FieldBitsAppend(FIELDS, 2);
    assert FIELDS[..3] == FIELDS && FieldBits(FIELDS[..0]) == [];
  }

  /** A byte is determined by its bits. */
  lemma SameByte(a: Byte, b: Byte)
    requires Bits(a, 8) == Bits(b, 8)
    ensures a == b
  {
    hide *;
    PowersOfTwo();
    ValueOfBits(a, 8);
    ValueOfBits(b, 8);
  }

  lemma BitsOfBytes()
    ensures Bits(46, 8) == [false, true, true, true, false, true, false, false]
    ensures Bits(32, 8) == [false, false, false, false, false, true, false, false]
  {
    hide Bits;
    NextBit(46, 8);
    NextBit(23, 7);
    NextBit(11, 6);
    NextBit(5, 5);
    NextBit(2, 4);
    NextBit(1, 3);
    NextBit(0, 2);
    NextBit(0, 1);
    NextBit(32, 8);
    NextBit(16, 7);
    NextBit(8, 6);
    NextBit(4, 5);
  }

  lemma PackedSlices()
    ensures var bits := PACKED + Zeros(2);
      |bits| == 16 && bits[0..8] == Bits(46, 8) && bits[8..16] == Bits(32, 8)
  {
    BitsOfBytes();
    hide Bits;
    assert Zeros(2) == [false, false];
  }

  lemma PackedByte(bytes: seq<Byte>, bits: seq<bool>, i: nat, b: Byte)
    requires i < |bytes| && BytesBits(bytes) == bits && bits[8 * i..8 * i + 8] == Bits(b, 8)
    ensures bytes[i] == b
  {
    hide *;
    ByteBits(bytes, i);
    SameByte(bytes[i], b);
  }

  lemma PackedBytes(bytes: seq<Byte>)
    requires Out.PackedUp(PACKED, bytes)
    ensures bytes == [46, 32]
  {
    hide Bits;
    hide BytesBits;
    hide Zeros;
    PackedSlices();
    var bits := PACKED + Zeros(2);
    PackedByte(bytes, bits, 0, 46);
    PackedByte(bytes, bits, 1, 32);
  }

  lemma Strings()
    ensures CString([97, 98]) == [97, 98] && CString([99]) == [99] && CString([100, 0, 101]) == [100]
  {
    CStringIs([97, 98], []);
    CStringIs([99], []);
    CStringIs([100], [101]);
    hide CString;
    assert [100, 0, 101] == [100] + [0] + [101];
  }

  lemma ItemsAreProper()
    ensures forall i :: 0 <= i < |ITEMS| ==> Proper(ITEMS[i])
    ensures Readable(ITEMS)
  {
    assert ITEMS[0].Word? && ITEMS[2].EvenText? && ITEMS[3].LongText? && ITEMS[4].Text?;
  }

  lemma RequestsAre()
    ensures forall i :: 0 <= i < |ITEMS| ==> Request(ITEMS[i]) <= 4
  {
    Strings();
    hide CString;
  }

  lemma {:induction false} LargestIsBounded(items: seq<Item>, bound: nat)
    requires forall i :: 0 <= i < |items| ==> Request(items[i]) <= bound
    ensures LargestRequest(items) <= bound
  {
    hide Request;
    if items != [] {
      LargestIsBounded(items[1..], bound);
    }
  }

  lemma WordsAre()
    ensures WordBytes(16_909_060, false) == [4, 3, 2, 1] && WordBytes(16_909_060, true) == [1, 2, 3, 4]
    ensures WordBytes(2, false) == [2, 0, 0, 0] && WordBytes(2, true) == [0, 0, 0, 2]
  {
  }

  lemma PartsAre(parts: seq<seq<Byte>>, swapBytes: bool)
    requires AllEncode(ITEMS, parts, swapBytes)
    ensures |parts| == 5
    ensures parts[0] == if swapBytes then [1, 2, 3, 4] else [4, 3, 2, 1]
    ensures parts[1] == [46, 32] && parts[2] == [97, 98, 0, 0]
    ensures parts[3] == if swapBytes then [0, 0, 0, 2, 99, 0] else [2, 0, 0, 0, 99, 0]
    ensures parts[4] == [100, 0]
  {
    Strings();
    WordsAre();
    FieldsAreBits();
    hide WordBytes;
    hide CString;
    hide FieldBits;
    hide Out.PackedUp;
    assert Encodes(ITEMS[0], parts[0], swapBytes) && Encodes(ITEMS[1], parts[1], swapBytes);
    assert Encodes(ITEMS[2], parts[2], swapBytes) && Encodes(ITEMS[3], parts[3], swapBytes);
    assert Encodes(ITEMS[4], parts[4], swapBytes);
    PackedBytes(parts[1]);
  }

  lemma JoinedParts(a: seq<Byte>, b: seq<Byte>, c: seq<Byte>, d: seq<Byte>, e: seq<Byte>)
    ensures Joined([a, b, c, d, e]) == a + b + c + d + e
  {
    JoinedAppend([], a);
    JoinedAppend([a], b);
    JoinedAppend([a, b], c);
    JoinedAppend([a, b, c], d);
    JoinedAppend([a, b, c, d], e);
    assert Joined([]) == [] && [] + [a] == [a];
    hide Joined;
    assert [a] + [b] == [a, b] && [a, b] + [c] == [a, b, c] && [a, b, c] + [d] == [a, b, c, d];
    assert [a, b, c, d] + [e] == [a, b, c, d, e];
  }

  lemma FileIs(parts: seq<seq<Byte>>, swapBytes: bool)
    requires AllEncode(ITEMS, parts, swapBytes)
    ensures Joined(parts) == if swapBytes then SAVED_SWAPPED else SAVED
  {
    hide Joined;
    hide AllEncode;
    PartsAre(parts, swapBytes);
    JoinedParts(parts[0], parts[1], parts[2], parts[3], parts[4]);
    assert parts == [parts[0], parts[1], parts[2], parts[3], parts[4]];
  }

  lemma ReadIs(read: seq<Item>)
    requires ReadBack(ITEMS, read)
    ensures read == LOADED
  {
    Strings();
    hide CString;
    assert Pow2(3) == 8 && Pow2(2) == 4 && Pow2(9) == 512 by {
      assert Pow2(6) == 64;
    }
    hide Pow2;
    assert Received(ITEMS[1]) == Fields([ReceivedField(FIELDS[0]), ReceivedField(FIELDS[1]), ReceivedField(FIELDS[2])]);
  }

  method SaveItems(name: string, swapBytes: bool, memory: nat -> bool, window: nat)
    returns (file: seq<Byte>, read: seq<Item>)
    requires name != Out.MEMORY && window >= 18 && forall k :: memory(k)
    ensures file == if swapBytes then SAVED_SWAPPED else SAVED
    ensures read == LOADED
  {
    ItemsAreProper();
    RequestsAre();
    LargestIsBounded(ITEMS, 4);
    hide *;
    var wrote, outcome;
    ghost var parts;
    wrote, file, outcome, read, parts := SaveAndLoadFile(name, ITEMS, swapBytes, memory, window);
    FileIs(parts, swapBytes);
    ReadIs(read);
  }
}
