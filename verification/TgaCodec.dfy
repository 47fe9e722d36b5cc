/** The encoder and the decoder that move along the pixels of an image in place. The stream they write to or read
    from is a byte sequence here; BinaryOutput and BinaryInput are proved to be one. */
module TgaCodec {
  import opened Results
  import opened ByteStreams
  import opened TgaFormat
  import opened TgaPlaces
  import opened TgaRunLength32

  // ---------- where pixels lie ----------

  lemma PixelIndex(w: nat, c: nat, x: nat, y: nat)
    ensures c * (y * w + x) == y * (w * c) + x * c
    ensures (x + y * w) * c == y * (w * c) + x * c
  {
    assert (y * w) * c == y * (w * c);
    assert (y * w + x) * c == (y * w) * c + x * c;
  }

  /** After x pixels of row y, done bytes of the row. */
  predicate InRow(w: nat, c: nat, h: nat, x: nat, y: nat, base: nat, done: nat) {
    (c == 3 || c == 4) && x <= w && y < h && base == y * (w * c) && done == x * c
  }

  /** Row y of an image lies at these n bytes. */
  predicate RowAt(w: int, c: int, h: int, y: int, base: nat, n: nat) {
    (c == 3 || c == 4) && 0 < w && 0 <= y < h && n == w * c && base == y * n
  }

  lemma RowStarts(w: nat, c: nat, h: nat, y: nat, base: nat, n: nat)
    requires RowAt(w, c, h, y, base, n)
    ensures InRow(w, c, h, 0, y, base, 0)
  {
  }

  lemma NextPixel(w: nat, c: nat, h: nat, x: nat, y: nat, base: nat, done: nat)
    requires InRow(w, c, h, x, y, base, done) && x < w
    ensures (x + y * w) * c == base + done && c * (y * w + x) == base + done
    ensures forall n: nat :: RowAt(w, c, h, y, base, n) ==> done + c <= n
    ensures InRow(w, c, h, x + 1, y, base, done + c)
  {
    PixelIndex(w, c, x, y);
    RowFits(c, x, w);
    RowFits(w * c, y, h);
    Multiple(x, c);
  }

  lemma RowEnds(w: nat, c: nat, h: nat, y: nat, base: nat, n: nat, done: nat)
    requires InRow(w, c, h, w, y, base, done) && RowAt(w, c, h, y, base, n)
    ensures done == n
  {
  }

  /** The row so far, with red and blue exchanged. */
  predicate IsPart(part: seq<Byte>, data: seq<Byte>, start: nat, done: nat, c: int) {
    && (c == 3 || c == 4) && start + done <= |data| && Whole(done, c)
    && |part| == done && part == Swizzle(data[start..start + done], c)
  }

  lemma NoPart(data: seq<Byte>, start: nat, c: int)
    requires (c == 3 || c == 4) && start <= |data|
    ensures IsPart([], data, start, 0, c)
  {
  }

  lemma NextPart(part: seq<Byte>, data: seq<Byte>, start: nat, done: nat, c: int)
    requires IsPart(part, data, start, done, c) && start + done + c <= |data|
    ensures IsPart(part + SwapPixel(data[start + done..start + done + c]), data, start, done + c, c)
  {
    hide Swizzle;
    PixelStep(data, start, done, c);
  }

  lemma AllParts(part: seq<Byte>, data: seq<Byte>, start: nat, n: nat, c: int)
    requires IsPart(part, data, start, n, c)
    ensures |part| == n && part == Swizzle(data[start..start + n], c)
  {
  }

  /** One more image row in front is stored last. */
  lemma {:induction false} PreviousRow(row: seq<Byte>, b: seq<Byte>, n: nat, c: int, k: nat)
    requires (c == 3 || c == 4) && n > 0 && |row| == n && WholeRows(b, n, k)
    ensures EncodeRows(row + b, n, c) == EncodeRows(b, n, c) + Swizzle(row, c)
    decreases k
  {
    hide Swizzle;
    if k == 0 {
      assert b == [] && row + b == row && row[|row| - n..] == row && row[..|row| - n] == [];
      assert EncodeRows([], n, c) == [];
    } else {
      assert |b| == (k - 1) * n + n;
      var top, last := b[..|b| - n], b[|b| - n..];
      PreviousRow(row, top, n, c, k - 1);
      assert (row + b)[|row + b| - n..] == last && (row + b)[..|row + b| - n] == row + top;
    }
  }

  lemma {:induction false} SwizzleGrey(s: seq<Byte>)
    ensures Swizzle(Grey(s), 3) == Grey(s) && WholePixels(Grey(s), 3)
  {
    if s != [] {
      var n := |s| - 1;
      SwizzleGrey(s[..n]);
      SwizzleAppend(Grey(s[..n]), [s[n], s[n], s[n]], 3);
    }
  }

  lemma {:induction false} GreyConcat(a: seq<Byte>, b: seq<Byte>)
    ensures Grey(a + b) == Grey(a) + Grey(b)
    decreases |b|
  {
    if b == [] {
      assert a + b == a;
    } else {
      var n := |b| - 1;
      GreyConcat(a, b[..n]);
      assert (a + b)[..|a| + n] == a + b[..n];
    }
  }

  /** One more pixel of a row. */
  lemma PixelStep(bytes: seq<Byte>, base: nat, done: nat, c: int)
    requires (c == 3 || c == 4) && Whole(done, c) && base + done + c <= |bytes|
    ensures Swizzle(bytes[base..base + (done + c)], c)
         == Swizzle(bytes[base..base + done], c) + SwapPixel(bytes[base + done..base + done + c])
  {
    SwizzleAppend(bytes[base..base + done], bytes[base + done..base + done + c], c);
    assert bytes[base..base + (done + c)] == bytes[base..base + done] + bytes[base + done..base + done + c];
  }

  /** One more image row, from the bottom up. */
  lemma RowStep(bytes: seq<Byte>, n: nat, c: int, y: nat, h: nat)
    requires (c == 3 || c == 4) && n > 0 && y < h && |bytes| == h * n
    ensures 0 <= y * n && y * n + n == (y + 1) * n <= |bytes|
    ensures EncodeRows(bytes[y * n..], n, c)
         == EncodeRows(bytes[(y + 1) * n..], n, c) + Swizzle(bytes[y * n..y * n + n], c)
  {
    RowFits(n, y, h);
    var pixels, rest := bytes[y * n..y * n + n], bytes[(y + 1) * n..];
    assert bytes[y * n..] == pixels + rest;
    PreviousRow(pixels, rest, n, c, h - y - 1);
  }

  lemma NoRows(bytes: seq<Byte>, n: nat, c: int, h: nat)
    requires (c == 3 || c == 4) && |bytes| == h * n
    ensures h * n <= |bytes| && EncodeRows(bytes[h * n..], n, c) == []
  {
    assert bytes[h * n..] == [];
  }

  lemma GreyParts(bytes: seq<Byte>, a: nat, b: nat)
    requires a <= b <= |bytes|
    ensures Grey(bytes) == Grey(bytes[..a]) + Grey(bytes[a..b]) + Grey(bytes[b..])
  {
    hide *;
    GreyConcat(bytes[..a], bytes[a..b]);
    GreyConcat(bytes[..b], bytes[b..]);
    SlicesJoin(bytes, a, b);
  }

  lemma SlicesJoin(s: seq<Byte>, a: nat, b: nat)
    requires a <= b <= |s|
    ensures s[..a] + s[a..b] == s[..b] && s[..b] + s[b..] == s
  {
  }

  /** Rows of a grey image, tripled, are rows of the tripled image. */
  lemma GreySlice(bytes: seq<Byte>, a: nat, b: nat)
    requires a <= b <= |bytes|
    ensures Grey(bytes)[3 * a..3 * b] == Grey(bytes[a..b])
    ensures Swizzle(Grey(bytes[a..b]), 3) == Grey(bytes[a..b])
  {
    hide *;
    SwizzleGrey(bytes[a..b]);
    GreyParts(bytes, a, b);
  }

  /** The bytes a have been written at an offset. */
  ghost predicate Patched(now: seq<Byte>, before: seq<Byte>, base: nat, a: seq<Byte>) {
    base + |a| <= |before| && now == before[..base] + a + before[base + |a|..]
  }

  lemma NotPatched(before: seq<Byte>, base: nat)
    requires base <= |before|
    ensures Patched(before, before, base, [])
  {
  }

  /** Writing behind what has been written already. */
  lemma PatchedTwice(before: seq<Byte>, base: nat, a: seq<Byte>, b: seq<Byte>, sofar: seq<Byte>, after: seq<Byte>)
    requires Patched(sofar, before, base, a) && Patched(after, sofar, base + |a|, b)
    ensures Patched(after, before, base, a + b)
  {
  }

  /** The image rows from row y on have been encoded. */
  ghost predicate GreyRowsFrom(bytes: seq<Byte>, w: nat, h: nat, y: nat, out: seq<Byte>) {
    && w > 0 && |bytes| == h * w && y <= h && 0 <= y * (w * 3) <= |Grey(bytes)|
    && out == EncodeRows(Grey(bytes)[y * (w * 3)..], w * 3, 3)
  }

  lemma GreyStarts(bytes: seq<Byte>, w: nat, h: nat)
    requires w > 0 && |bytes| == h * w
    ensures GreyRowsFrom(bytes, w, h, h, [])
  {
    Regroup(h, w, 3);
    NoRows(Grey(bytes), w * 3, 3, h);
  }

  lemma GreyStep(bytes: seq<Byte>, w: nat, h: nat, y: nat, out: seq<Byte>)
    requires y < h && GreyRowsFrom(bytes, w, h, y + 1, out)
    ensures 0 <= y * w && y * w + w <= |bytes| && GreyRowsFrom(bytes, w, h, y, out + Grey(bytes[y * w..y * w + w]))
  {
    hide EncodeRows;
    hide Grey;
    var n, stored, a, b := w * 3, Grey(bytes), y * w, y * w + w;
    RowFits(w, y, h);
    Regroup(h, w, 3);
    RowStep(stored, n, 3, y, h);
    GreySlice(bytes, a, b);
    Regroup(y, w, 3);
    assert 3 * a == y * n && 3 * b == y * n + n;
  }

  lemma GreyEnds(bytes: seq<Byte>, w: nat, h: nat, out: seq<Byte>)
    requires GreyRowsFrom(bytes, w, h, 0, out)
    ensures out == EncodeRows(Grey(bytes), w * 3, 3)
  {
    assert Grey(bytes)[0..] == Grey(bytes);
  }

  class GImage {
    var width: int
    var height: int
    var channels: int
    var byte: array<Byte>

    ghost function Value(): Image
      reads this, byte
    {
      Image(width, height, channels, byte[..])
    }

    constructor (image: Image)
      requires Proper(image)
      ensures Value() == image && fresh(byte)
    {
      width, height, channels := image.width, image.height, image.channels;
      byte := new Byte[|image.bytes|](i requires 0 <= i < |image.bytes| => image.bytes[i]);
    }

    /** One row in BGR or BGRA order. */
    method EncodeRow(y: int, ghost base: nat, ghost n: nat) returns (row: seq<Byte>)
      requires RowAt(width, channels, height, y, base, n) && (channels == 3 || channels == 4)
      requires 0 < width && 0 <= y < height && base + n <= byte.Length
      ensures row == Swizzle(byte[base..base + n], channels)
    {
      hide *;
      row := [];
      ghost var c, done: nat, bytes := channels, 0, byte[..];
      RowStarts(width, c, height, y, base, n);
      NoPart(bytes, base, c);
      for x := 0 to width
        invariant 0 <= done && InRow(width, c, height, x, y, base, done) && IsPart(row, bytes, base, done, c)
      {
        NextPixel(width, c, height, x, y, base, done);
        NextPart(row, bytes, base, done, c);
        var pixel := PixelAt(channels * (y * width + x));
        row := row + pixel;
        done := done + c;
      }
      RowEnds(width, c, height, y, base, n, done);
      AllParts(row, bytes, base, done, c);
      assert bytes[base..base + done] == byte[base..base + done];
    }

    /** The pixel at an offset, blue first. */
    method PixelAt(p: int) returns (pixel: seq<Byte>)
      requires (channels == 3 || channels == 4) && 0 <= p && p + channels <= byte.Length
      ensures pixel == SwapPixel(byte[..][p..p + channels])
    {
      pixel := [byte[p + 2], byte[p + 1], byte[p]];
      if channels == 4 {
        pixel := pixel + [byte[p + 3]];
      }
    }

    /** One row of a single-channel image, forced to RGB. */
    method EncodeGreyRow(y: int) returns (row: seq<Byte>)
      requires Proper(Value()) && channels == 1 && 0 <= y < height
      ensures 0 <= y * width && y * width + width <= byte.Length && row == Grey(byte[y * width..y * width + width])
    {
      RowFits(width, y, height);
      row := [];
      ghost var base := y * width;
      for x := 0 to width
        invariant row == Grey(byte[base..base + x])
      {
        var p := byte[y * width + x];
        assert byte[base..base + x + 1][..x] == byte[base..base + x];
        row := row + [p, p, p];
      }
    }

    /** Encodes the image at the end of a stream; the stream decides what the skipped bytes hold. */
    method EncodeTGA(skipped: seq<Byte>) returns (out: seq<Byte>)
      requires Proper(Value()) && |skipped| == 5
      ensures out == Encode(Value(), skipped)
      ensures IsFileOf(out, Value(), skipped)
    {
      ghost var image := Value();
      EncodedFile(image, skipped);
      // No identification, no palette, data type 2
      out := [0, 0, 2] + skipped;
      // Placed at the origin
      out := out + [0, 0, 0, 0];
      out := out + Word16Bytes(width) + Word16Bytes(height);
      // How the pixels are stored
      out := out + [if channels == 1 then 8 * 3 else 8 * channels, if channels < 4 then 0 else 8];
      assert out == Header(image, skipped);
      var rows := EncodePixels();
      out := out + rows + (TAG + [0]);
    }

    /** The pixels, last image row first. */
    method EncodePixels() returns (out: seq<Byte>)
      requires Proper(Value())
      ensures var c := StoredChannels(channels);
        out == EncodeRows(StoredBytes(Value()), width * c, c)
    {
      if channels == 1 {
        out := EncodeGreyPixels();
      } else {
        out := EncodeColorPixels();
      }
    }

    method EncodeGreyPixels() returns (out: seq<Byte>)
      requires Proper(Value()) && channels == 1
      ensures out == EncodeRows(Grey(byte[..]), width * 3, 3)
    {
      out := [];
      ghost var w, h, bytes := width, height, byte[..];
      GreyStarts(bytes, w, h);
      for y := height downto 0
        invariant GreyRowsFrom(bytes, w, h, y, out)
      {
        GreyStep(bytes, w, h, y, out);
        var row := EncodeGreyRow(y);
        assert bytes[y * w..y * w + w] == byte[y * w..y * w + w];
        hide *;
        out := out + row;
      }
      GreyEnds(bytes, w, h, out);
    }

    method EncodeColorPixels() returns (out: seq<Byte>)
      requires Proper(Value()) && channels != 1
      ensures out == EncodeRows(byte[..], width * channels, channels)
    {
      out := [];
      ghost var n, c, bytes := width * channels, channels, byte[..];
      NoRows(bytes, n, c, height);
      hide EncodeRows;
      hide Swizzle;
      for y := height downto 0
        invariant 0 <= y * n <= |bytes| && out == EncodeRows(bytes[y * n..], n, c)
      {
        RowStep(bytes, n, c, y, height);
        var row := EncodeRow(y, y * n, n);
        assert bytes[y * n..y * n + n] == byte[y * n..y * n + n];
        out := out + row;
      }
      assert bytes[0 * n..] == bytes;
    }

    // ---------- decoding ----------

    /** Reads a pixel, blue first, to an offset. */
    method ReadPixel(data: seq<Byte>, s: int, p: int)
      requires (channels == 3 || channels == 4) && 0 <= p && p + channels <= byte.Length && 0 <= s
               && s + channels <= |data|
      modifies byte
      ensures Patched(byte[..], old(byte[..]), p, SwapPixel(data[s..s + channels]))
    {
      ghost var before, pixel := byte[..], SwapPixel(data[s..s + channels]);
      byte[p + 2] := data[s];
      byte[p + 1] := data[s + 1];
      byte[p] := data[s + 2];
      if channels == 4 {
        byte[p + 3] := data[s + 3];
      }
      assert forall i :: 0 <= i < channels ==> byte[p + i] == pixel[i];
      assert byte[..] == before[..p] + pixel + before[p + channels..];
    }

    /** Reads row y of an uncompressed file. */
    method DecodeRow(data: seq<Byte>, start: nat, y: int, ghost base: nat, ghost n: nat)
      requires RowAt(width, channels, height, y, base, n) && (channels == 3 || channels == 4)
      requires 0 < width && 0 <= y < height && base + n <= byte.Length && start + n <= |data|
      modifies byte
      ensures |Swizzle(data[start..start + n], channels)| == n
      ensures Patched(byte[..], old(byte[..]), base, Swizzle(data[start..start + n], channels))
    {
      hide *;
      ghost var c, done: nat, before, part := channels, 0, byte[..], [];
      var s: nat := start;
      RowStarts(width, c, height, y, base, n);
      NoPart(data, start, c);
      NotPatched(before, base);
      for x := 0 to width
        invariant 0 <= done && InRow(width, c, height, x, y, base, done) && IsPart(part, data, start, done, c)
        invariant |part| == done && s == start + done && Patched(byte[..], before, base, part)
      {
        NextPixel(width, c, height, x, y, base, done);
        NextPart(part, data, start, done, c);
        ghost var sofar, pixel := byte[..], SwapPixel(data[s..s + c]);
        ReadPixel(data, s, (x + y * width) * channels);
        assert Patched(byte[..], sofar, base + |part|, pixel);
        PatchedTwice(before, base, part, pixel, sofar, byte[..]);
        part := part + pixel;
        s := s + channels;
        done := done + c;
      }
      RowEnds(width, c, height, y, base, n, done);
      AllParts(part, data, start, done, c);
    }

    /** Writes the same pixel count times. */
    method FillRun(offset: nat, value: seq<Byte>, count: nat)
      requires |value| == 3 && offset + 3 * count <= byte.Length
      modifies byte
      ensures Patched(byte[..], old(byte[..]), offset, Repeat(value, count))
    {
      ghost var before := byte[..];
      hide *;
      RepeatMore(value, 0);
      NotPatched(before, offset);
      var byteOffset: nat := offset;
      for i := 0 to count
        invariant byteOffset == offset + 3 * i && Patched(byte[..], before, offset, Repeat(value, i))
      {
        RepeatMore(value, i);
        ghost var sofar := byte[..];
        WriteTriple(byteOffset, value);
        PatchedTwice(before, offset, Repeat(value, i), value, sofar, byte[..]);
        byteOffset := byteOffset + 3;
      }
    }

    method WriteTriple(offset: nat, value: seq<Byte>)
      requires |value| == 3 && offset + 3 <= byte.Length
      modifies byte
      ensures Patched(byte[..], old(byte[..]), offset, value)
    {
      ghost var before := byte[..];
      for b := 0 to 3
        invariant forall i :: 0 <= i < byte.Length ==>
                    byte[i] == if offset <= i < offset + b then value[i - offset] else before[i]
      {
        byte[offset + b] := value[b];
      }
      assert byte[..] == before[..offset] + value + before[offset + 3..];
    }

    /** Reads count pixels of a raw packet. */
    method ReadRaw(data: seq<Byte>, start: nat, offset: nat, count: nat)
      requires channels == 3 && offset + 3 * count <= byte.Length && start + 3 * count <= |data|
      modifies byte
      ensures Patched(byte[..], old(byte[..]), offset, Swizzle(data[start..start + 3 * count], 3))
    {
      hide *;
      ghost var before, part := byte[..], [];
      NotPatched(before, offset);
      NoPart(data, start, 3);
      var byteOffset: nat, s: nat := offset, start;
      for i := 0 to count
        invariant byteOffset == offset + 3 * i && s == start + 3 * i && |part| == 3 * i
        invariant Patched(byte[..], before, offset, part) && IsPart(part, data, start, 3 * i, 3)
      {
        NextPart(part, data, start, 3 * i, 3);
        ghost var sofar, pixel := byte[..], SwapPixel(data[s..s + 3]);
        ReadPixel(data, s, byteOffset);
        assert Patched(byte[..], sofar, offset + |part|, pixel);
        PatchedTwice(before, offset, part, pixel, sofar, byte[..]);
        part := part + pixel;
        byteOffset, s := byteOffset + channels, s + 3;
      }
      AllParts(part, data, start, 3 * count, 3);
    }

    /** Reads one packet to an offset in a row of which room bytes are left. */
    method ReadPacket(data: seq<Byte>, s: nat, offset: nat, room: nat)
      returns (error: bool, next: nat, size: nat, ghost raw: seq<Byte>)
      requires channels == 3 && offset + room <= byte.Length
      modifies byte
      ensures error <==> Packet(data, s).Failure? || |Packet(data, s).value.0| > room
      ensures !error ==> Packet(data, s) == Ok((raw, next)) && Patched(byte[..], old(byte[..]), offset, Swizzle(raw, 3))
                         && size == |raw| && |raw| <= room && |raw| >= 3 && Whole(|raw|, 3)
                         && |Swizzle(raw, 3)| == |raw|
    {
      error, next, size, raw := true, s, 0, [];
      if s >= |data| {
        return;
      }
      var repetitionCount := data[s];
      var numValues: nat := repetitionCount % 128 + 1;
      if repetitionCount >= 128 {
        if s + 4 > |data| || 3 * numValues > room {
          return;
        }
        var value := [data[s + 3], data[s + 2], data[s + 1]];
        raw := Repeat(data[s + 1..s + 4], numValues);
        RepeatSwapped(data[s + 1..s + 4], numValues);
        assert value == SwapPixel(data[s + 1..s + 4]);
        FillRun(offset, value, numValues);
        error, next, size := false, s + 4, 3 * numValues;
      } else {
        if s + 1 + 3 * numValues > |data| || 3 * numValues > room {
          return;
        }
        raw := data[s + 1..s + 1 + 3 * numValues];
        SwizzleLength(raw, 3);
        ReadRaw(data, s + 1, offset, numValues);
        error, next, size := false, s + 1 + 3 * numValues, 3 * numValues;
      }
    }

    /** Reads row y of a run-length file; by the format no packet goes on in the next row. */
    method DecodeRunLengthRow(data: seq<Byte>, start: nat, ghost y: int, base: nat, n: nat)
      returns (error: bool, end: nat, ghost row: seq<Byte>)
      requires channels == 3 && Whole(n, 3) && base + n <= byte.Length
      modifies byte
      ensures error <==> ExpandRow(data, start, n).Failure?
      ensures !error ==> ExpandRow(data, start, n) == Ok((row, end)) && |Swizzle(row, 3)| == n
                         && Patched(byte[..], old(byte[..]), base, Swizzle(row, 3))
    {
      hide *;
      ghost var before, part := byte[..], [];
      NotPatched(before, base);
      var done: nat := 0;
      error, end, row := false, start, [];
      NothingExpanded(data, start, n);
      while done < n
        invariant !error && done <= n && |part| == done
        invariant Expanded(data, start, n, row, end, done, part) && Patched(byte[..], before, base, part)
        decreases n - done
      {
        ghost var raw, sofar, at := [], byte[..], end;
        var size;
        error, end, size, raw := ReadPacket(data, end, base + done, n - done);
        if error {
          PacketFails(data, start, n, row, at, done, part);
          return;
        }
        PacketFits(data, start, n, row, at, done, part, raw, end);
        PatchedTwice(before, base, part, Swizzle(raw, 3), sofar, byte[..]);
        row, part := row + raw, part + Swizzle(raw, 3);
        done := done + size;
      }
      RowExpanded(data, start, n, row, end, part);
    }

    /** Reads all rows, the last image row first. */
    method DecodeUncompressed(data: seq<Byte>, start: nat, ghost n: nat)
      requires SizedFor(width, channels, height, n, byte.Length) && (channels == 3 || channels == 4)
      requires 0 < width && 0 <= height && start + byte.Length <= |data|
      modifies byte
      ensures byte[..] == DecodeRows(data[start..start + byte.Length], n, channels)
    {
      hide *;
      var s: nat := start;
      ghost var c, size := channels, byte.Length;
      NoRowsYet(width, c, height, n, byte[..]);
      assert data[start..s] == [];
      for y := height downto 0
        invariant start <= s <= |data| && RowsRead(width, c, height, y, n, data[start..s], byte[..])
      {
        ghost var before := byte[..];
        NextRowToRead(width, c, height, y, n, data[start..s], before);
        DecodeRow(data, s, y, RowBase(y, n), n);
        RowIsRead(width, c, height, y, n, data[start..s], before, byte[..], data[s..s + n]);
        assert data[start..s] + data[s..s + n] == data[start..s + n];
        s := s + width * channels;
      }
      AllRowsRead(width, c, height, n, data[start..s], byte[..]);
    }

    /** Reads all rows of packets, the last image row first. */
    method DecodeRunLength(data: seq<Byte>, start: nat, n: nat) returns (error: bool)
      requires SizedFor(width, channels, height, n, byte.Length) && channels == 3 && 0 < width && 0 <= height
      modifies byte
      ensures error <==> ExpandRows(data, start, n, height).Failure?
      ensures !error ==> byte[..] == DecodeRows(ExpandRows(data, start, n, height).value.0, n, 3)
    {
      ghost var h := height;
      hide *;
      NoRowsExpanded(data, start, n);
      var s: nat := start;
      ghost var d: seq<Byte> := [];
      error := false;
      NoRowsYet(width, 3, height, n, byte[..]);
      for y := height downto 0
        invariant !error && ExpandRows(data, start, n, h - y) == Ok((d, s))
        invariant RowsRead(width, 3, height, y, n, d, byte[..])
      {
        ghost var before, row, at := byte[..], [], s;
        NextRowToRead(width, 3, height, y, n, d, before);
        error, s, row := DecodeRunLengthRow(data, s, y, RowBase(y, n), n);
        if error {
          ExpansionFails(data, start, n, h - y - 1, h, d, at);
          return;
        }
        NextExpansion(data, start, n, h - y - 1, d, at, row, s);
        RowIsRead(width, 3, height, y, n, d, before, byte[..], row);
        d := d + row;
      }
      AllRowsRead(width, 3, height, n, d, byte[..]);
    }

    /** Three bytes of the file, blue first, to an offset. */
    method ReadBGR(data: seq<Byte>, s: int, p: int)
      requires 0 <= p && p + 3 <= byte.Length && 0 <= s && s + 3 <= |data|
      modifies byte
      ensures byte[..] == Put(old(byte[..]), p, SwapPixel(data[s..s + 3]))
    {
      ghost var before, pixel := byte[..], SwapPixel(data[s..s + 3]);
      byte[p], byte[p + 1], byte[p + 2] := data[s + 2], data[s + 1], data[s];
      assert forall i :: 0 <= i < 3 ==> byte[p + i] == pixel[i];
      assert byte[..] == before[..p] + pixel + before[p + 3..];
    }

    /** The loops over a run, which leave out the alpha of the pixel. */
    method FillRun32(offset: nat, value: seq<Byte>, count: nat)
      requires |value| == 3 && offset + 3 * count <= byte.Length
      modifies byte
      ensures byte[..] == PutRun(old(byte[..]), offset, value, count)
    {
      hide *;
      ghost var before := byte[..];
      var byteOffset: nat := offset;
      NoRun(before, offset, value);
      for i := 0 to count
        invariant byteOffset == offset + 3 * i && byte[..] == PutRun(before, offset, value, i)
      {
        ghost var sofar := byte[..];
        WriteTriple(byteOffset, value);
        PatchedIsPut(byte[..], sofar, byteOffset, value);
        RunStep(before, offset, value, i);
        byteOffset := byteOffset + 3;
      }
    }

    /** The loop over a raw packet, three bytes of the file for every four of the image. */
    method ReadRaw32(data: seq<Byte>, start: nat, offset: nat, count: nat)
      requires offset + 4 * count <= byte.Length && start + 3 * count <= |data|
      modifies byte
      ensures byte[..] == PutRaw(old(byte[..]), offset, data, start, count)
    {
      ghost var before := byte[..];
      var byteOffset: nat, s: nat := offset, start;
      NoRaw(before, offset, data, start);
      hide *;
      for i := 0 to count
        invariant byteOffset == offset + 4 * i && s == start + 3 * i
                  && byte[..] == PutRaw(before, offset, data, start, i)
      {
        ReadBGR(data, s, byteOffset);
        RawStep(before, offset, data, start, i);
        byteOffset, s := byteOffset + 4, s + 3;
      }
    }

    /** Row y of a 32-bit run-length file. */
    method DecodeRow32(data: seq<Byte>, start: nat, y: nat) returns (error: bool, end: nat)
      requires 0 <= y < height && 0 <= width && byte.Length == Size(height, width)
      modifies byte
      ensures RowStart(y, width) + 4 * width <= byte.Length
      ensures var r := PutRow(old(byte[..]), RowStart(y, width), 0, width, data, start);
        (error <==> r.Failure?) && (!error ==> r == Ok((byte[..], end)))
    {
      hide *;
      ghost var before, at, w: nat := byte[..], RowStart(y, width), width;
      RowHasRoom(y, width, height);
      error, end := false, start;
      var x: nat := 0;
      while x < width
        invariant x <= width && !error
        invariant PutRow(before, at, 0, w, data, start) == PutRow(byte[..], at, x, w, data, end)
        decreases width - x
      {
        RowStep32(byte[..], at, x, w, data, end);
        var n;
        error, end, n := ReadPacket32(data, end, RowStart(y, width) + 3 * x, width - x);
        if error {
          return;
        }
        x := x + n;
      }
      RowStep32(byte[..], at, x, w, data, end);
    }

    /** A packet of at most room pixels. */
    method ReadPacket32(data: seq<Byte>, s: nat, offset: nat, room: nat) returns (error: bool, next: nat, n: nat)
      requires offset + 4 * room <= byte.Length
      modifies byte
      ensures var r := PutPacket(old(byte[..]), offset, room, data, s);
        (error <==> r.Failure?) && (!error ==> r == Ok((byte[..], next, n)))
    {
      error, next, n := true, s, 0;
      if s >= |data| {
        return;
      }
      var repetitionCount := data[s];
      var numValues: nat := repetitionCount % 128 + 1;
      if numValues > room {
        return;
      }
      if repetitionCount >= 128 {
        if s + 5 > |data| {
          return;
        }
        var value := [data[s + 3], data[s + 2], data[s + 1]];
        assert value == SwapPixel(data[s + 1..s + 4]);
        FillRun32(offset, value, numValues);
        error, next, n := false, s + 5, numValues;
      } else {
        if s + 1 + 3 * numValues > |data| {
          return;
        }
        ReadRaw32(data, s + 1, offset, numValues);
        error, next, n := false, s + 1 + 3 * numValues, numValues;
      }
    }

    /** All rows of a 32-bit run-length file, the last image row first. */
    method DecodeRunLength32(data: seq<Byte>, start: nat) returns (error: bool)
      requires 0 <= width && 0 <= height && byte.Length == Size(height, width)
      modifies byte
      ensures var r := PutRows(old(byte[..]), height, width, data, start);
        (error <==> r.Failure?) && (!error ==> r.value.0 == byte[..])
    {
      hide *;
      ghost var before, h: nat, w: nat := byte[..], height, width;
      error := false;
      var s: nat := start;
      for y := height downto 0
        invariant !error && Size(y, w) <= byte.Length
        invariant PutRows(before, h, w, data, start) == PutRows(byte[..], y, w, data, s)
      {
        RowHasRoom(y, w, h);
        RowHasRoom(y, w, y + 1);
        RowsStep32(byte[..], y + 1, w, data, s);
        error, s := DecodeRow32(data, s, y);
        if error {
          return;
        }
      }
      RowsStep32(byte[..], 0, w, data, s);
    }

    /** Decodes the file at position p of a stream into this image. The memory is what the allocated bytes hold at
        first; it only matters for 32-bit run-length files. */
    method DecodeTGA(data: seq<Byte>, p: nat) returns (failed: bool, ghost memory: seq<Byte>)
      modifies this
      ensures Open(data, p).Failure? ==> failed
      ensures Open(data, p).Ok? && !Misplaced(Open(data, p).value) ==> (failed <==> Decode(data, p).Failure?)
      ensures Open(data, p).Ok? && !Misplaced(Open(data, p).value) && !failed ==> Value() == Decode(data, p).value
      ensures Open(data, p).Ok? && Misplaced(Open(data, p).value) ==>
                var o := Open(data, p).value;
                && |memory| == Size(o.height, o.width)
                && (failed <==> PutRows(memory, o.height, o.width, data, o.start).Failure?)
                && (!failed ==>
                      Value() == Image(o.width, o.height, 4, PutRows(memory, o.height, o.width, data, o.start).value.0))
      ensures !failed ==> HeaderSays(data, p, width, height, channels)
      ensures !failed && data[p + 2] == 2 ==> AllFrom(Value(), data, p + 18 + data[p] as nat)
      ensures !failed && data[p + 2] == 10 && channels == 3 ==>
                var packets := ExpandRows(data, p + 18 + data[p] as nat, width * 3, height);
                packets.Ok? && AllFrom(Value(), packets.value.0, 0)
    {
      failed, memory := true, [];
      hide Decode;
      hide PutRows;
      if |data| < 18 || p + 18 > |data| {
        return;
      }
      var tag := CString(data[|data| - 18..|data| - 2]);
      if tag != TAG[..16] {
        return;
      }
      var idLength, imageType := data[p], data[p + 2];
      if imageType != 2 && imageType != 10 {
        return;
      }
      var w, h, colorDepth := Word16(data[p + 12], data[p + 13]), Word16(data[p + 14], data[p + 15]), data[p + 16];
      if colorDepth != 24 && colorDepth != 32 {
        return;
      }
      if w < 0 || h < 0 || p + 18 + idLength > |data| {
        return;
      }
      width, height, channels := w, h, if colorDepth == 32 then 4 else 3;
      assert Open(data, p) == Ok(Opening(imageType, w, h, channels, p + 18 + idLength));
      hide Open;
      hide AllFrom;
      OpenSays(data, p);
      OpenedDecodes(data, p);
      failed, memory := DecodePixels(data, p + 18 + idLength, imageType);
      if !failed && imageType == 2 {
        DecodedFile(data, p);
      } else if !failed && channels == 3 {
        DecodedPackets(data, p);
      }
    }

    method DecodePixels(data: seq<Byte>, start: nat, imageType: Byte) returns (failed: bool, ghost memory: seq<Byte>)
      requires start <= |data| && 0 <= width && 0 <= height && (channels == 3 || channels == 4)
      requires imageType == 2 || imageType == 10
      modifies this`byte
      ensures fresh(byte) && |memory| == height * (width * channels)
      ensures !(imageType == 10 && channels == 4) ==>
                var d := Pixels(data, start, imageType, width, height, channels);
                && (failed <==> d.Failure?)
                && (!failed ==> byte[..] == DecodeRows(d.value, width * channels, channels))
      ensures imageType == 10 && channels == 4 ==>
                var r := PutRows(memory, height, width, data, start);
                (failed <==> r.Failure?) && (!failed ==> byte[..] == r.value.0)
    {
      hide ExpandRows;
      hide DecodeRows;
      hide PutRows;
      var n: nat := width * channels;
      var size: nat := height * n;
      byte := new Byte[size];
      memory := byte[..];
      failed := false;
      if imageType == 10 && channels == 4 {
        failed := DecodeRunLength32(data, start);
        return;
      }
      if width == 0 {
        NoColumns(data, start, height);
        NoBytes(height, n, channels, byte[..]);
        return;
      }
      if imageType == 2 {
        if start + size > |data| {
          return true, memory;
        }
        DecodeUncompressed(data, start, n);
      } else {
        failed := DecodeRunLength(data, start, n);
      }
    }
  }

  lemma OpenedDecodes(data: seq<Byte>, p: nat)
    requires Open(data, p).Ok?
    ensures var o := Open(data, p).value;
      var d := Pixels(data, o.start, o.imageType, o.width, o.height, o.channels);
      if d.Failure? then Decode(data, p).Failure?
      else Decode(data, p) ==
           Ok(Image(o.width, o.height, o.channels, DecodeRows(d.value, o.width * o.channels, o.channels)))
  {
    hide Open;
    hide Pixels;
    hide DecodeRows;
  }

  lemma PatchedIsPut(now: seq<Byte>, before: seq<Byte>, at: nat, v: seq<Byte>)
    requires Patched(now, before, at, v)
    ensures at + |v| <= |before| && now == Put(before, at, v)
  {
  }

  lemma NoRun(b: seq<Byte>, at: nat, v: seq<Byte>)
    requires |v| == 3 && at <= |b|
    ensures PutRun(b, at, v, 0) == b
  {
  }

  lemma NoRaw(b: seq<Byte>, at: nat, data: seq<Byte>, s: nat)
    requires at <= |b| && s <= |data|
    ensures PutRaw(b, at, data, s, 0) == b
  {
  }

  lemma RunStep(b: seq<Byte>, at: nat, v: seq<Byte>, n: nat)
    requires |v| == 3 && at + 3 * (n + 1) <= |b|
    ensures PutRun(b, at, v, n + 1) == Put(PutRun(b, at, v, n), at + 3 * n, v)
  {
  }

  lemma RawStep(b: seq<Byte>, at: nat, data: seq<Byte>, s: nat, n: nat)
    requires at + 4 * (n + 1) <= |b| && s + 3 * (n + 1) <= |data|
    ensures PutRaw(b, at, data, s, n + 1)
         == Put(PutRaw(b, at, data, s, n), at + 4 * n, SwapPixel(data[s + 3 * n..s + 3 * (n + 1)]))
  {
  }

  lemma RowsStep32(b: seq<Byte>, h: nat, w: nat, data: seq<Byte>, s: nat)
    requires Size(h, w) <= |b|
    ensures h == 0 ==> PutRows(b, h, w, data, s) == Ok((b, s))
    ensures h > 0 ==> RowStart(h - 1, w) + 4 * w <= |b| && Size(h - 1, w) <= |b|
    ensures h > 0 ==>
              var r := PutRow(b, RowStart(h - 1, w), 0, w, data, s);
              if r.Failure? then PutRows(b, h, w, data, s).Failure?
              else PutRows(b, h, w, data, s) == PutRows(r.value.0, h - 1, w, data, r.value.1)
  {
    hide PutRow;
    hide RowStart;
    if h > 0 {
      RowHasRoom(h - 1, w, h);
    }
  }

  lemma NoBytes(h: nat, n: nat, c: int, bytes: seq<Byte>)
    requires n == 0 && |bytes| == h * n && (c == 3 || c == 4)
    ensures h * n == 0 && bytes == [] && forall d: seq<Byte> :: DecodeRows(d, n, c) == []
  {
  }

  /** An image of h rows of n bytes. */
  predicate SizedFor(w: int, c: int, h: int, n: nat, length: int) {
    (c == 3 || c == 4) && w > 0 && h >= 0 && n == w * c && length == h * n
  }

  function RowBase(y: nat, n: nat): nat {
    y * n
  }

  /** The stored rows d have been read to the image rows from y on. */
  ghost predicate RowsRead(w: int, c: int, h: int, y: int, n: nat, d: seq<Byte>, bytes: seq<Byte>) {
    && SizedFor(w, c, h, n, |bytes|) && 0 <= y <= h && |d| == (h - y) * n && 0 <= y * n <= |bytes|
    && bytes[y * n..] == DecodeRows(d, n, c)
  }

  lemma NoRowsYet(w: int, c: int, h: int, n: nat, bytes: seq<Byte>)
    requires SizedFor(w, c, h, n, |bytes|)
    ensures RowsRead(w, c, h, h, n, [], bytes)
  {
    assert bytes[h * n..] == [];
  }

  lemma NextRowToRead(w: int, c: int, h: int, y: nat, n: nat, d: seq<Byte>, bytes: seq<Byte>)
    requires RowsRead(w, c, h, y + 1, n, d, bytes) && y < h
    ensures RowAt(w, c, h, y, RowBase(y, n), n) && RowBase(y, n) + n <= |bytes| && |d| + n <= |bytes|
    ensures n == w * c && Whole(n, c)
  {
    RowFits(n, y, h);
    Multiple(w, c);
    assert (h - (y + 1)) * n + (y + 1) * n == h * n;
  }

  lemma RowIsRead(w: int, c: int, h: int, y: nat, n: nat, d: seq<Byte>, before: seq<Byte>, after: seq<Byte>,
                  row: seq<Byte>)
    requires RowsRead(w, c, h, y + 1, n, d, before) && y < h && |row| == n
    requires |Swizzle(row, c)| == n && Patched(after, before, RowBase(y, n), Swizzle(row, c))
    ensures RowsRead(w, c, h, y, n, d + row, after)
  {
    RowFits(n, y, h);
    Multiple(w, c);
    NextRow(d, row, n, c, h - (y + 1));
    hide Swizzle;
    hide DecodeRows;
    assert (h - y) * n == (h - (y + 1)) * n + n;
    assert after[y * n..] == Swizzle(row, c) + before[(y + 1) * n..];
  }

  lemma AllRowsRead(w: int, c: int, h: int, n: nat, d: seq<Byte>, bytes: seq<Byte>)
    requires RowsRead(w, c, h, 0, n, d, bytes)
    ensures bytes == DecodeRows(d, n, c) && |d| == |bytes|
  {
    assert bytes[0 * n..] == bytes;
  }

  lemma NoRowsExpanded(data: seq<Byte>, start: nat, n: nat)
    ensures ExpandRows(data, start, n, 0) == Ok(([], start))
  {
  }

  lemma {:induction false} ExpansionFails(data: seq<Byte>, start: nat, n: nat, k: nat, h: nat, d: seq<Byte>, s: nat)
    requires ExpandRows(data, start, n, k) == Ok((d, s)) && ExpandRow(data, s, n).Failure? && k < h
    ensures ExpandRows(data, start, n, h).Failure?
    decreases h
  {
    hide ExpandRow;
    if h > k + 1 {
      ExpansionFails(data, start, n, k, h - 1, d, s);
    }
  }

  lemma {:induction false} NoColumns(data: seq<Byte>, start: nat, h: nat)
    ensures ExpandRows(data, start, 0, h) == Ok(([], start))
  {
    if h > 0 {
      NoColumns(data, start, h - 1);
      var rows: seq<Byte> := [];
      assert rows + rows == rows && ExpandRow(data, start, 0) == Ok((rows, start));
    }
  }

  lemma RepeatMore(p: seq<Byte>, n: nat)
    requires |p| == 3
    ensures |Repeat(p, n)| == 3 * n && Repeat(p, n + 1) == Repeat(p, n) + p && Repeat(p, 0) == []
  {
  }

  lemma {:induction false} RepeatSwapped(p: seq<Byte>, n: nat)
    requires |p| == 3
    ensures Swizzle(Repeat(p, n), 3) == Repeat(SwapPixel(p), n) && WholePixels(Repeat(p, n), 3)
            && |Repeat(p, n)| == 3 * n
  {
    hide SwapPixel;
    if n > 0 {
      RepeatSwapped(p, n - 1);
      SwizzleAppend(Repeat(p, n - 1), p, 3);
    }
  }

  /** The packets before position s stand for the first done bytes of the row, which swizzled are the part written. */
  ghost predicate Expanded(data: seq<Byte>, start: nat, n: nat, row: seq<Byte>, s: nat, done: nat, part: seq<Byte>) {
    && done <= n && |row| == done && Whole(done, 3) && part == Swizzle(row, 3)
    && ExpandRow(data, start, n) == Prepend(row, ExpandRow(data, s, n - done))
  }

  lemma NothingExpanded(data: seq<Byte>, start: nat, n: nat)
    ensures Expanded(data, start, n, [], start, 0, [])
  {
    var r := ExpandRow(data, start, n);
    assert r.Ok? ==> [] + r.value.0 == r.value.0;
  }

  lemma PacketFails(data: seq<Byte>, start: nat, n: nat, row: seq<Byte>, s: nat, done: nat, part: seq<Byte>)
    requires Expanded(data, start, n, row, s, done, part) && done < n
    requires Packet(data, s).Failure? || |Packet(data, s).value.0| > n - done
    ensures ExpandRow(data, start, n).Failure?
  {
    hide Packet;
  }

  lemma {:induction false} SwizzleConcat(a: seq<Byte>, b: seq<Byte>)
    requires WholePixels(a, 3)
    ensures Swizzle(a + b, 3) == Swizzle(a, 3) + Swizzle(b, 3)
    decreases |a|
  {
    hide SwapPixel;
    if a == [] {
      assert a + b == b;
    } else {
      SwizzleConcat(a[3..], b);
      assert (a + b)[..3] == a[..3] && (a + b)[3..] == a[3..] + b;
    }
  }

  lemma PacketFits(data: seq<Byte>, start: nat, n: nat, row: seq<Byte>, s: nat, done: nat, part: seq<Byte>,
                   raw: seq<Byte>, next: nat)
    requires Expanded(data, start, n, row, s, done, part) && done < n
    requires Packet(data, s) == Ok((raw, next)) && 3 <= |raw| <= n - done && Whole(|raw|, 3)
    ensures Expanded(data, start, n, row + raw, next, done + |raw|, part + Swizzle(raw, 3))
  {
    hide ExpandRow;
    hide Packet;
    hide Prepend;
    hide Swizzle;
    ExpandStep(data, s, n - done, raw, next);
    PrependTwice(row, raw, ExpandRow(data, next, n - done - |raw|));
    SwizzleConcat(row, raw);
    assert n - (done + |raw|) == n - done - |raw|;
  }

  lemma PrependTwice(a: seq<Byte>, b: seq<Byte>, r: Decoded<(seq<Byte>, nat)>)
    ensures Prepend(a, Prepend(b, r)) == Prepend(a + b, r)
  {
    assert r.Ok? ==> a + (b + r.value.0) == a + b + r.value.0;
  }

  lemma RowExpanded(data: seq<Byte>, start: nat, n: nat, row: seq<Byte>, end: nat, part: seq<Byte>)
    requires Expanded(data, start, n, row, end, n, part)
    ensures ExpandRow(data, start, n) == Ok((row, end)) && part == Swizzle(row, 3) && |Swizzle(row, 3)| == n
  {
    SwizzleLength(row, 3);
    assert row + [] == row;
  }
}
