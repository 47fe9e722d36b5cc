/** A run-length file and the image in it. */
module TgaExamples {
  import opened Results
  import opened ByteStreams
  import opened TgaFormat
  import opened TgaCodec
  import opened TgaPlaces
  import opened TgaRunLength32

  /** Three pixels by two, with an identification of one byte. The first stored row is one run, the second two raw
      pixels and a run of one. */
  const RUNS: seq<Byte> := HEAD + PACKETS + FOOT

  const HEAD: seq<Byte> := [1, 0, 10, 0, 0, 0, 0, 0, 0, 0, 0, 0, 3, 0, 2, 0, 24, 0, 77]
  const PACKETS: seq<Byte> := [130, 1, 2, 3, 1, 4, 5, 6, 7, 8, 9, 128, 10, 11, 12]
  const FOOT: seq<Byte> := [84, 82, 85, 69, 86, 73, 83, 73, 79, 78, 45, 88, 70, 73, 76, 69, 32, 0]

  const PIXELS: seq<Byte> := [6, 5, 4, 9, 8, 7, 12, 11, 10, 3, 2, 1, 3, 2, 1, 3, 2, 1]

  lemma HeadIs()
    ensures RUNS[0] == 1 && RUNS[2] == 10 && RUNS[12] == 3 && RUNS[13] == 0 && RUNS[14] == 2 && RUNS[15] == 0
    ensures RUNS[16] == 24 && |RUNS| == 52
  {
  }

  lemma FootIs()
    ensures |RUNS| == 52 && RUNS[34..50] == TAG[..16]
  {
  }

  lemma RunsOpen()
    ensures Open(RUNS, 0) == Ok(Opening(10, 3, 2, 3, 19))
  {
    HeadIs();
    FootIs();
    TagIsString();
    hide CString;
    hide RUNS;
    assert Word16(3, 0) == 3 && Word16(2, 0) == 2;
  }

  lemma ThreeTimes(p: seq<Byte>)
    ensures Repeat(p, 3) == p + p + p && Repeat(p, 1) == p
  {
    assert Repeat(p, 1) == [] + p;
  }

  lemma BytesAre()
    ensures RUNS[19] == 130 && RUNS[20] == 1 && RUNS[21] == 2 && RUNS[22] == 3 && RUNS[23] == 1 && RUNS[24] == 4
    ensures RUNS[25] == 5 && RUNS[26] == 6 && RUNS[27] == 7 && RUNS[28] == 8 && RUNS[29] == 9 && RUNS[30] == 128
    ensures RUNS[31] == 10 && RUNS[32] == 11 && RUNS[33] == 12 && |RUNS| == 52
  {
  }

  lemma PacketsAre()
    ensures Packet(RUNS, 19) == Ok(([1, 2, 3, 1, 2, 3, 1, 2, 3], 23))
    ensures Packet(RUNS, 23) == Ok(([4, 5, 6, 7, 8, 9], 30)) && Packet(RUNS, 30) == Ok(([10, 11, 12], 34))
  {
    ThreeTimes([1, 2, 3]);
    ThreeTimes([10, 11, 12]);
    BytesAre();
    hide Repeat;
    hide RUNS;
    assert RUNS[20..23] == [1, 2, 3] && RUNS[24..30] == [4, 5, 6, 7, 8, 9] && RUNS[31..34] == [10, 11, 12];
    assert RUNS[19 + 1..19 + 4] == RUNS[20..23] && RUNS[23 + 1..23 + 1 + 6] == RUNS[24..30];
    assert RUNS[30 + 1..30 + 4] == RUNS[31..34];
    assert [1, 2, 3] + [1, 2, 3] + [1, 2, 3] == [1, 2, 3, 1, 2, 3, 1, 2, 3];
  }

  lemma RowIs(s: nat, n: nat, pixels: seq<Byte>, next: nat, rest: seq<Byte>, end: nat)
    requires Packet(RUNS, s) == Ok((pixels, next)) && 0 < |pixels| <= n
    requires ExpandRow(RUNS, next, n - |pixels|) == Ok((rest, end))
    ensures ExpandRow(RUNS, s, n) == Ok((pixels + rest, end))
    ensures rest == [] ==> pixels + rest == pixels
  {
    hide Packet;
    hide RUNS;
  }

  lemma RowsAre()
    ensures ExpandRows(RUNS, 19, 9, 2)
         == Ok(([1, 2, 3, 1, 2, 3, 1, 2, 3] + [4, 5, 6, 7, 8, 9, 10, 11, 12], 34))
  {
    PacketsAre();
    hide Packet;
    hide RUNS;
    assert ExpandRow(RUNS, 23, 0) == Ok(([], 23)) && ExpandRow(RUNS, 34, 0) == Ok(([], 34));
    RowIs(19, 9, [1, 2, 3, 1, 2, 3, 1, 2, 3], 23, [], 23);
    RowIs(30, 3, [10, 11, 12], 34, [], 34);
    RowIs(23, 9, [4, 5, 6, 7, 8, 9], 30, [10, 11, 12], 34);
    hide ExpandRow;
    assert [4, 5, 6, 7, 8, 9] + [10, 11, 12] == [4, 5, 6, 7, 8, 9, 10, 11, 12];
    assert [] + [1, 2, 3, 1, 2, 3, 1, 2, 3] == [1, 2, 3, 1, 2, 3, 1, 2, 3];
    assert ExpandRows(RUNS, 19, 9, 0) == Ok(([], 19));
    NextExpansion(RUNS, 19, 9, 0, [], 19, [1, 2, 3, 1, 2, 3, 1, 2, 3], 23);
    NextExpansion(RUNS, 19, 9, 1, [1, 2, 3, 1, 2, 3, 1, 2, 3], 23, [4, 5, 6, 7, 8, 9, 10, 11, 12], 34);
  }

  lemma TwoRows(low: seq<Byte>, high: seq<Byte>)
    requires |low| == |high| == 9
    ensures DecodeRows(low + high, 9, 3) == Swizzle(high, 3) + Swizzle(low, 3)
  {
    hide Swizzle;
    assert DecodeRows([], 9, 3) == [] && [] + low == low && Whole(9, 3);
    NextRow([], low, 9, 3, 0);
    hide DecodeRows;
    NextRow(low, high, 9, 3, 1);
    assert Swizzle(low, 3) + [] == Swizzle(low, 3);
  }

  lemma PixelsAre()
    ensures DecodeRows([1, 2, 3, 1, 2, 3, 1, 2, 3] + [4, 5, 6, 7, 8, 9, 10, 11, 12], 9, 3) == PIXELS
  {
    hide Swizzle;
    hide DecodeRows;
    ThreePixels([1, 2, 3], [1, 2, 3], [1, 2, 3]);
    ThreePixels([4, 5, 6], [7, 8, 9], [10, 11, 12]);
    var low, high := [1, 2, 3] + [1, 2, 3] + [1, 2, 3], [4, 5, 6] + [7, 8, 9] + [10, 11, 12];
    TwoRows(low, high);
    assert low == [1, 2, 3, 1, 2, 3, 1, 2, 3] && high == [4, 5, 6, 7, 8, 9, 10, 11, 12];
  }

  lemma ThreePixels(p: seq<Byte>, q: seq<Byte>, r: seq<Byte>)
    requires |p| == |q| == |r| == 3
    ensures Swizzle(p + q + r, 3) == [p[2], p[1], p[0], q[2], q[1], q[0], r[2], r[1], r[0]]
  {
    SwizzleAppend([], p, 3);
    SwizzleAppend(p, q, 3);
    SwizzleAppend(p + q, r, 3);
    assert [] + p == p && Swizzle([], 3) == [];
    hide Swizzle;
  }

  lemma RunsDecode()
    ensures Decode(RUNS, 0) == Ok(Image(3, 2, 3, PIXELS)) && !Misplaced(Open(RUNS, 0).value)
  {
    RunsOpen();
    RowsAre();
    PixelsAre();
    hide Open;
    hide ExpandRows;
    hide DecodeRows;
    hide RUNS;
    hide PIXELS;
  }

  lemma BlackPixel()
    ensures Proper(Image(1, 1, 1, [0]))
  {
  }

  /** The rows from the last up, red and blue exchanged. */
  method DecodeRuns() returns (failed: bool, width: int, height: int, channels: int, bytes: seq<Byte>)
    ensures !failed && width == 3 && height == 2 && channels == 3 && bytes == PIXELS
  {
    hide Decode;
    hide Open;
    hide RUNS;
    hide PIXELS;
    hide ExpandRows;
    hide AllFrom;
    hide PutRows;
    hide HeaderSays;
    RunsOpen();
    RunsDecode();
    var before := Image(1, 1, 1, [0]);
    BlackPixel();
    var image := new GImage(before);
    ghost var memory;
    failed, memory := image.DecodeTGA(RUNS, 0);
    width, height, channels, bytes := image.width, image.height, image.channels, image.byte[..];
  }
}
