/** Byte by byte, where the pixels of an image lie in a file. */
module TgaPlaces {
  import opened Results
  import opened ByteStreams
  import opened TgaFormat

  /** Byte k of pixel x in image row y is read from the row as far from the other end, red and blue exchanged. */
  predicate ComesFrom(image: Image, data: seq<Byte>, start: int, x: int, y: int, k: int) {
    var c, h := image.channels, image.height;
    var n := image.width * c;
    var a, b := y * n + x * c + k, start + (h - 1 - y) * n + x * c + if k == 3 then 3 else 2 - k;
    0 <= a < |image.bytes| && 0 <= b < |data| && image.bytes[a] == data[b]
  }

  /** Every byte of the image is found in the stored pixels that start at a position. */
  ghost predicate AllFrom(image: Image, data: seq<Byte>, start: int) {
    && |image.bytes| == image.height * (image.width * image.channels)
    && forall x, y, k :: 0 <= x < image.width && 0 <= y < image.height && 0 <= k < image.channels ==>
         ComesFrom(image, data, start, x, y, k)
  }

  /** What the first bytes of a file say. */
  predicate HeaderSays(data: seq<Byte>, p: nat, width: int, height: int, channels: int) {
    && p + 18 <= |data|
    && width as int == data[p + 12] as int + 256 * (data[p + 13] as int)
    && height as int == data[p + 14] as int + 256 * (data[p + 15] as int)
    && 8 * channels == data[p + 16] as int
  }

  lemma OpenSays(data: seq<Byte>, p: nat)
    requires Open(data, p).Ok?
    ensures var o := Open(data, p).value;
      && HeaderSays(data, p, o.width, o.height, o.channels)
      && o.imageType == data[p + 2] && o.start == p + 18 + data[p] as nat
  {
    hide CString;
  }

  // ---------- pixels within rows ----------

  lemma PixelByte(s: seq<Byte>, c: int, k: nat)
    requires (c == 3 || c == 4) && c <= |s| && k < c
    ensures SwapPixel(s[..c])[k] == s[if k == 3 then 3 else 2 - k]
  {
  }

  lemma FirstPixel(s: seq<Byte>, c: int)
    requires (c == 3 || c == 4) && c <= |s|
    ensures Swizzle(s, c) == SwapPixel(s[..c]) + Swizzle(s[c..], c) && |SwapPixel(s[..c])| == c
  {
  }

  lemma WholeBefore(i: nat, c: int)
    requires (c == 3 || c == 4) && Whole(i, c)
    ensures i == 0 || (i >= c && Whole(i - c, c))
  {
  }

  /** Byte k of the pixel that starts at byte i. */
  lemma {:induction false} SwizzleAt(s: seq<Byte>, c: int, i: nat, k: nat)
    requires (c == 3 || c == 4) && Whole(i, c) && i + c <= |s| && k < c
    ensures i + k < |Swizzle(s, c)| && Swizzle(s, c)[i + k] == s[i + if k == 3 then 3 else 2 - k]
    decreases i
  {
    hide *;
    FirstPixel(s, c);
    WholeBefore(i, c);
    if i == 0 {
      PixelByte(s, c, k);
    } else {
      SwizzleAt(s[c..], c, i - c, k);
    }
  }

  // ---------- rows ----------

  /** Row y of h rows of n bytes starts at byte a, and as far from the other end at byte b. */
  predicate Mirrored(size: nat, n: nat, h: nat, y: nat, a: nat, b: nat) {
    n > 0 && y < h && size == h * n && a == y * n && b == (h - 1 - y) * n
  }

  lemma MirroredFits(size: nat, n: nat, h: nat, y: nat, a: nat, b: nat)
    requires Mirrored(size, n, h, y, a, b)
    ensures a + n + b == size && n > 0 && y < h
    ensures y == h - 1 ==> b == 0
    ensures y < h - 1 ==> b >= n && Mirrored(size - n, n, h - 1, y, a, b - n)
    ensures y > 0 ==> a >= n && Mirrored(size - n, n, h - 1, y - 1, a - n, b)
    ensures y == 0 ==> a == 0
  {
    assert (h - 1 - y) * n + y * n + n == h * n;
    assert (h - 1) * n == h * n - n;
    if y < h - 1 {
      assert (h - 2 - y) * n == b - n;
      NotLess(h - 1 - y, n);
    }
    if y > 0 {
      assert (y - 1) * n == a - n;
      NotLess(y, n);
    }
  }

  lemma NotLess(k: nat, n: nat)
    requires k > 0
    ensures k * n >= n
  {
  }

  /** The n bytes from a position on. */
  function Slice(s: seq<Byte>, a: nat, n: nat): seq<Byte> {
    if a + n <= |s| then s[a..a + n] else []
  }

  lemma RowsCounted(d: seq<Byte>, n: nat, c: int, h: nat, y: nat, a: nat, b: nat)
    requires (c == 3 || c == 4) && Whole(n, c) && Mirrored(|d|, n, h, y, a, b)
    ensures |DecodeRows(d, n, c)| == |d|
  {
    hide DecodeRows;
    RowsLength(d, n, c, h);
  }

  lemma SliceOfFirst(first: seq<Byte>, rest: seq<Byte>, a: nat, n: nat)
    requires a + n <= |first|
    ensures Slice(first + rest, a, n) == Slice(first, a, n)
  {
  }

  lemma SliceOfRest(first: seq<Byte>, rest: seq<Byte>, b: nat, n: nat)
    requires |first| <= b && b - |first| + n <= |rest|
    ensures Slice(first + rest, b, n) == Slice(rest, b - |first|, n)
  {
  }

  lemma DecodedLast(d: seq<Byte>, n: nat, c: int, a: nat)
    requires (c == 3 || c == 4) && 0 < n <= |d| && Whole(n, c) && a + n == |d| == |DecodeRows(d, n, c)|
    ensures Slice(DecodeRows(d, n, c), a, n) == Swizzle(Slice(d, 0, n), c)
  {
    LowestRow(d, n, c);
    hide DecodeRows;
    hide Swizzle;
  }

  lemma DecodedUpper(d: seq<Byte>, n: nat, c: int, a: nat, b: nat)
    requires (c == 3 || c == 4) && 0 < n <= |d| && Whole(n, c) && a + n <= |DecodeRows(d[n..], n, c)|
    requires n <= b && b + n <= |d|
    ensures Slice(DecodeRows(d, n, c), a, n) == Slice(DecodeRows(d[n..], n, c), a, n)
    ensures Slice(d[n..], b - n, n) == Slice(d, b, n)
  {
    hide *;
    LowestRow(d, n, c);
    SliceOfFirst(DecodeRows(d[n..], n, c), Swizzle(d[..n], c), a, n);
    SliceOfRest(d[..n], d[n..], b, n);
    assert d[..n] + d[n..] == d;
  }

  lemma {:induction false} DecodedRow(d: seq<Byte>, n: nat, c: int, h: nat, y: nat, a: nat, b: nat)
    requires (c == 3 || c == 4) && Whole(n, c) && Mirrored(|d|, n, h, y, a, b)
    ensures a + n + b == |d| == |DecodeRows(d, n, c)|
    ensures Slice(DecodeRows(d, n, c), a, n) == Swizzle(Slice(d, b, n), c)
    decreases h
  {
    hide *;
    MirroredFits(|d|, n, h, y, a, b);
    RowsCounted(d, n, c, h, y, a, b);
    if y == h - 1 {
      DecodedLast(d, n, c, a);
    } else {
      DecodedRow(d[n..], n, c, h - 1, y, a, b - n);
      DecodedUpper(d, n, c, a, b);
    }
  }

  lemma EncodedFirst(s: seq<Byte>, n: nat, c: int, a: nat)
    requires (c == 3 || c == 4) && 0 < n <= |s| && Whole(n, c) && a + n == |s|
    ensures n <= |EncodeRows(s, n, c)| && Slice(EncodeRows(s, n, c), 0, n) == Swizzle(Slice(s, a, n), c)
  {
    FirstStored(s, n, c);
    hide EncodeRows;
    hide Swizzle;
    assert s[a..a + n] == s[|s| - n..];
  }

  lemma EncodedFurther(s: seq<Byte>, n: nat, c: int, a: nat, b: nat)
    requires (c == 3 || c == 4) && 0 < n <= |s| && Whole(n, c) && a + n <= |s| - n
    requires n <= b <= |EncodeRows(s[..|s| - n], n, c)|
    ensures b + n <= |EncodeRows(s, n, c)|
    ensures Slice(EncodeRows(s, n, c), b, n) == Slice(EncodeRows(s[..|s| - n], n, c), b - n, n)
    ensures Slice(s[..|s| - n], a, n) == Slice(s, a, n)
  {
    hide *;
    FirstStored(s, n, c);
    var m := |s| - n;
    var first, rest := Swizzle(s[m..], c), EncodeRows(s[..m], n, c);
    SliceOfRest(first, rest, b, n);
    SliceOfFirst(s[..m], s[m..], a, n);
    assert s[..m] + s[m..] == s;
  }

  lemma {:induction false} EncodedRow(s: seq<Byte>, n: nat, c: int, h: nat, y: nat, a: nat, b: nat)
    requires (c == 3 || c == 4) && Whole(n, c) && Mirrored(|s|, n, h, y, a, b)
    ensures a + n + b == |s| && b + n <= |EncodeRows(s, n, c)|
    ensures Slice(EncodeRows(s, n, c), b, n) == Swizzle(Slice(s, a, n), c)
    decreases h
  {
    hide *;
    MirroredFits(|s|, n, h, y, a, b);
    if y == h - 1 {
      EncodedFirst(s, n, c, a);
    } else {
      EncodedRow(s[..|s| - n], n, c, h - 1, y, a, b - n);
      EncodedFurther(s, n, c, a, b);
    }
  }

  // ---------- every byte of an image ----------

  lemma MirroredRows(h: nat, y: nat, n: nat)
    requires y < h && n > 0
    ensures 0 <= y * n && 0 <= (h - 1 - y) * n && Mirrored(h * n, n, h, y, y * n, (h - 1 - y) * n)
  {
    RowAtLeast(h, y, n);
  }

  /** Byte i + k of a slice that has been decoded or encoded. */
  lemma SlicedByte(s: seq<Byte>, t: seq<Byte>, a: nat, b: nat, n: nat, c: int, i: nat, k: nat)
    requires (c == 3 || c == 4) && k < c && Whole(i, c) && i + c <= n && a + n <= |s| && b + n <= |t|
    requires Slice(s, a, n) == Swizzle(Slice(t, b, n), c)
    ensures s[a + (i + k)] == t[b + (i + if k == 3 then 3 else 2 - k)]
  {
    SwizzleAt(t[b..b + n], c, i, k);
    hide Swizzle;
    hide Whole;
    assert s[a..a + n][i + k] == s[a + (i + k)];
  }

  lemma FoundAt(image: Image, d: seq<Byte>, data: seq<Byte>, start: nat, x: nat, y: nat, k: nat, a: nat, b: nat, i: nat)
    requires var n := image.width * image.channels;
      && a == y * n && b == (image.height - 1 - y) * n && i == x * image.channels && k < 4
      && a + (i + k) < |image.bytes| && b + (i + if k == 3 then 3 else 2 - k) < |d|
      && image.bytes[a + (i + k)] == d[b + (i + if k == 3 then 3 else 2 - k)]
    requires start + |d| <= |data| && d == data[start..start + |d|]
    ensures ComesFrom(image, data, start, x, y, k)
  {
  }

  /** Byte k of pixel x of an image row. */
  lemma DecodedByte(image: Image, d: seq<Byte>, data: seq<Byte>, start: nat, x: nat, y: nat, k: nat)
    requires (image.channels == 3 || image.channels == 4) && x < image.width && y < image.height && k < image.channels
    requires |d| == image.height * (image.width * image.channels)
    requires image.bytes == DecodeRows(d, image.width * image.channels, image.channels)
    requires start + |d| <= |data| && d == data[start..start + |d|]
    ensures ComesFrom(image, data, start, x, y, k)
  {
    hide *;
    var c, h := image.channels, image.height;
    var n, i := image.width * c, x * c;
    RowFits(c, x, image.width);
    Multiple(image.width, c);
    Multiple(x, c);
    MirroredRows(h, y, n);
    var a, b := y * n, (h - 1 - y) * n;
    DecodedRow(d, n, c, h, y, a, b);
    SlicedByte(image.bytes, d, a, b, n, c, i, k);
    FoundAt(image, d, data, start, x, y, k, a, b, i);
  }

  lemma RowAtLeast(h: nat, y: nat, n: nat)
    requires y < h
    ensures 0 <= y * n && 0 <= (h - 1 - y) * n
  {
  }

  /** The stored pixels, wherever they come from. */
  lemma DecodedBytes(image: Image, d: seq<Byte>, data: seq<Byte>, start: nat)
    requires (image.channels == 3 || image.channels == 4) && 0 <= image.width && 0 <= image.height
    requires |d| == image.height * (image.width * image.channels) == |image.bytes|
    requires image.bytes == DecodeRows(d, image.width * image.channels, image.channels)
    requires start + |d| <= |data| && d == data[start..start + |d|]
    ensures AllFrom(image, data, start)
  {
    hide DecodeRows;
    hide ComesFrom;
    forall x, y, k | 0 <= x < image.width && 0 <= y < image.height && 0 <= k < image.channels
      ensures ComesFrom(image, data, start, x, y, k)
    {
      DecodedByte(image, d, data, start, x, y, k);
    }
  }

  /** Byte k of a stored pixel is the byte of the image as far from the other end, or its only channel. */
  predicate GoesTo(image: Image, file: seq<Byte>, start: int, c: int, x: int, y: int, k: int) {
    var h, n := image.height, image.width * c;
    var a := if image.channels == 1 then y * image.width + x else y * n + x * c + if k == 3 then 3 else 2 - k;
    var b := start + (h - 1 - y) * n + x * c + k;
    0 <= a < |image.bytes| && 0 <= b < |file| && image.bytes[a] == file[b]
  }

  ghost predicate AllGoTo(image: Image, file: seq<Byte>, start: int, c: int) {
    forall x, y, k :: 0 <= x < image.width && 0 <= y < image.height && 0 <= k < c ==>
      GoesTo(image, file, start, c, x, y, k)
  }

  lemma {:induction false} GreyAt(s: seq<Byte>, i: nat, k: nat)
    requires i < |s| && k < 3
    ensures Grey(s)[3 * i + k] == s[i]
    decreases |s|
  {
    if i < |s| - 1 {
      GreyAt(s[..|s| - 1], i, k);
    }
  }

  lemma StoredByte(image: Image, c: int, x: nat, y: nat, k: nat)
    requires Proper(image) && c == StoredChannels(image.channels) && x < image.width && y < image.height && k < c
    ensures var a := if image.channels == 1 then y * image.width + x else y * (image.width * c) + x * c + k;
      var i := y * (image.width * c) + x * c + k;
      0 <= a < |image.bytes| && 0 <= i < |StoredBytes(image)| && StoredBytes(image)[i] == image.bytes[a]
  {
    hide Grey;
    var w, h := image.width, image.height;
    RowFits(c, x, w);
    RowAtLeast(h, y, w * c);
    RowFits(w * c, y, h);
    StoredSize(image);
    if image.channels == 1 {
      RowFits(w, y, h);
      GreyAt(image.bytes, y * w + x, k);
      Regroup(y, w, 3);
    }
  }

  lemma LandsAt(image: Image, c: int, rows: seq<Byte>, file: seq<Byte>, start: nat, x: nat, y: nat, k: nat, a: nat,
                b: nat)
    requires var i := y * (image.width * c) + x * c + if k == 3 then 3 else 2 - k;
      a == if image.channels == 1 then y * image.width + x else i
    requires b == (image.height - 1 - y) * (image.width * c) + x * c + k
    requires a < |image.bytes| && b < |rows| && image.bytes[a] == rows[b]
    requires start + |rows| <= |file| && rows == file[start..start + |rows|]
    ensures GoesTo(image, file, start, c, x, y, k)
  {
  }

  /** What the stored rows hold. */
  lemma EncodedByte(image: Image, c: int, rows: seq<Byte>, file: seq<Byte>, start: nat, x: nat, y: nat, k: nat)
    requires Proper(image) && c == StoredChannels(image.channels) && x < image.width && y < image.height && k < c
    requires rows == EncodeRows(StoredBytes(image), image.width * c, c)
    requires start + |rows| <= |file| && rows == file[start..start + |rows|]
    ensures GoesTo(image, file, start, c, x, y, k)
  {
    hide *;
    ChannelsStored(image);
    var h, n, i, j := image.height, image.width * c, x * c, if k == 3 then 3 else 2 - k;
    var stored := StoredBytes(image);
    StoredSize(image);
    RowFits(c, x, image.width);
    Multiple(image.width, c);
    Multiple(x, c);
    MirroredRows(h, y, n);
    var a, b := y * n, (h - 1 - y) * n;
    EncodedRow(stored, n, c, h, y, a, b);
    SlicedByte(rows, stored, b, a, n, c, i, k);
    StoredByte(image, c, x, y, j);
    var from := if image.channels == 1 then y * image.width + x else y * (image.width * c) + x * c + j;
    LandsAt(image, c, rows, file, start, x, y, k, from, b + i + k);
  }

  /** The file of an image, byte by byte: the header, the pixels, and TRUEVISION-XFILE with a blank and a null. */
  ghost predicate IsFileOf(file: seq<Byte>, image: Image, skipped: seq<Byte>) {
    var w, h, c := image.width, image.height, if image.channels == 4 then 4 else 3;
    && 0 <= w < 65_536 && 0 <= h < 65_536 && |file| == 18 + h * (w * c) + 18
    && file[..18] == [0, 0, 2] + skipped + [0, 0, 0, 0] + [w % 256, w / 256, h % 256, h / 256]
                     + (if image.channels == 4 then [32, 8] else [24, 0])
    && AllGoTo(image, file, 18, c)
    && file[|file| - 18..] == [84, 82, 85, 69, 86, 73, 83, 73, 79, 78, 45, 88, 70, 73, 76, 69, 32, 0]
  }

  lemma EncodedSize(image: Image)
    requires Proper(image)
    ensures var c := StoredChannels(image.channels);
      |EncodeRows(StoredBytes(image), image.width * c, c)| == image.height * (image.width * c) == |StoredBytes(image)|
  {
    hide EncodeRows;
    hide StoredBytes;
    var c := StoredChannels(image.channels);
    StoredSize(image);
    Multiple(image.width, c);
    RowFits(c, 0, image.width);
    RowsRoundTrip(StoredBytes(image), image.width * c, c, image.height);
  }

  lemma HeaderIs(image: Image, skipped: seq<Byte>)
    requires Proper(image) && |skipped| == 5
    ensures var w, h := image.width, image.height;
      Header(image, skipped) == [0, 0, 2] + skipped + [0, 0, 0, 0] + [w % 256, w / 256, h % 256, h / 256]
                                + (if image.channels == 4 then [32, 8] else [24, 0])
  {
    assert Word16Bytes(image.width) == [image.width % 256, image.width / 256];
    assert Word16Bytes(image.height) == [image.height % 256, image.height / 256];
  }

  lemma EncodedFile(image: Image, skipped: seq<Byte>)
    requires Proper(image) && |skipped| == 5
    ensures IsFileOf(Encode(image, skipped), image, skipped)
  {
    hide EncodeRows;
    hide StoredBytes;
    hide Header;
    hide GoesTo;
    var c := StoredChannels(image.channels);
    var rows, file := EncodeRows(StoredBytes(image), image.width * c, c), Encode(image, skipped);
    EncodedSize(image);
    HeaderIs(image, skipped);
    EncodeIs(image, skipped);
    assert file[..18] == Header(image, skipped) && file[18..18 + |rows|] == rows;
    assert file[18 + |rows|..] == TAG + [0];
    forall x, y, k | 0 <= x < image.width && 0 <= y < image.height && 0 <= k < c
      ensures GoesTo(image, file, 18, c, x, y, k)
    {
      EncodedByte(image, c, rows, file, 18, x, y, k);
    }
  }

  lemma PixelsDecoded(data: seq<Byte>, p: nat)
    requires Open(data, p).Ok? && Open(data, p).value.imageType == 2 && Decode(data, p).Ok?
    ensures var o := Open(data, p).value;
      var size := o.height * (o.width * o.channels);
      && size >= 0 && o.start + size <= |data|
      && Decode(data, p).value
           == Image(o.width, o.height, o.channels,
                    DecodeRows(data[o.start..o.start + size], o.width * o.channels, o.channels))
  {
    hide Open;
    hide DecodeRows;
    hide ExpandRows;
  }

  /** What the decoder makes of an uncompressed file, byte by byte. */
  lemma DecodedFile(data: seq<Byte>, p: nat)
    requires p + 18 <= |data| && data[p + 2] == 2 && Decode(data, p).Ok?
    ensures var image := Decode(data, p).value;
      HeaderSays(data, p, image.width, image.height, image.channels) && AllFrom(image, data, p + 18 + data[p] as nat)
  {
    hide *;
    DecodeOpens(data, p);
    OpenSays(data, p);
    PixelsDecoded(data, p);
    var o := Open(data, p).value;
    RowPlaces(o.width, o.height, o.channels, data, o.start);
  }

  lemma RowPlaces(w: nat, h: nat, c: nat, data: seq<Byte>, start: nat)
    requires (c == 3 || c == 4) && start + h * (w * c) <= |data| && h * (w * c) >= 0
    ensures AllFrom(Image(w, h, c, DecodeRows(data[start..start + h * (w * c)], w * c, c)), data, start)
  {
    hide DecodeRows;
    hide AllFrom;
    var size := h * (w * c);
    var d := data[start..start + size];
    DecodedLength(w, h, c, d);
    DecodedBytes(Image(w, h, c, DecodeRows(d, w * c, c)), d, data, start);
  }

  lemma DecodedLength(w: nat, h: nat, c: nat, d: seq<Byte>)
    requires (c == 3 || c == 4) && |d| == h * (w * c)
    ensures |DecodeRows(d, w * c, c)| == |d|
  {
    hide DecodeRows;
    if w > 0 {
      Multiple(w, c);
      RowFits(c, 0, w);
      RowsLength(d, w * c, c, h);
    } else {
      NoPixels(h, c, d);
    }
  }

  lemma NoPixels(h: nat, c: int, d: seq<Byte>)
    requires c == 3 || c == 4
    ensures h * (0 * c) == 0 && DecodeRows(d, 0, c) == []
  {
  }

  lemma PacketsDecoded(data: seq<Byte>, p: nat)
    requires Open(data, p).Ok? && Open(data, p).value.imageType == 10 && Open(data, p).value.channels == 3
    requires Decode(data, p).Ok?
    ensures var o := Open(data, p).value;
      var r := ExpandRows(data, o.start, o.width * 3, o.height);
      && r.Ok? && Decode(data, p).value == Image(o.width, o.height, 3, DecodeRows(r.value.0, o.width * 3, 3))
  {
    hide Open;
    hide DecodeRows;
    hide ExpandRows;
  }

  /** What it makes of a run-length file of 24 bits, byte by byte: the expanded packets take the place of the file. */
  lemma DecodedPackets(data: seq<Byte>, p: nat)
    requires p + 18 <= |data| && data[p + 2] == 10 && data[p + 16] == 24 && Decode(data, p).Ok?
    ensures var image, start := Decode(data, p).value, p + 18 + data[p] as nat;
      && HeaderSays(data, p, image.width, image.height, image.channels)
      && ExpandRows(data, start, image.width * 3, image.height).Ok?
      && AllFrom(image, ExpandRows(data, start, image.width * 3, image.height).value.0, 0)
  {
    hide *;
    DecodeOpens(data, p);
    OpenSays(data, p);
    var o := Open(data, p).value;
    SaysThree(data, p, o.width, o.height, o.channels);
    PacketsDecoded(data, p);
    ExpandedLength(data, o.start, o.width * 3, o.height);
    PacketPlaces(o.width, o.height, ExpandRows(data, o.start, o.width * 3, o.height).value.0);
  }

  lemma DecodeOpens(data: seq<Byte>, p: nat)
    requires Decode(data, p).Ok?
    ensures Open(data, p).Ok?
  {
    hide Open;
    hide Pixels;
    hide DecodeRows;
  }

  lemma SaysThree(data: seq<Byte>, p: nat, width: int, height: int, channels: int)
    requires HeaderSays(data, p, width, height, channels) && data[p + 16] == 24
    ensures channels == 3
  {
  }

  lemma PacketPlaces(w: nat, h: nat, d: seq<Byte>)
    requires |d| == h * (w * 3)
    ensures AllFrom(Image(w, h, 3, DecodeRows(d, w * 3, 3)), d, 0)
  {
    hide DecodeRows;
    hide AllFrom;
    assert d[0..0 + |d|] == d;
    DecodedLength(w, h, 3, d);
    DecodedBytes(Image(w, h, 3, DecodeRows(d, w * 3, 3)), d, d, 0);
  }

  lemma {:induction false} ExpandedLength(data: seq<Byte>, s: nat, n: nat, k: nat)
    requires ExpandRows(data, s, n, k).Ok?
    ensures |ExpandRows(data, s, n, k).value.0| == k * n
    decreases k
  {
    hide ExpandRow;
    if k > 0 {
      ExpandedLength(data, s, n, k - 1);
      assert k * n == (k - 1) * n + n;
    }
  }
}
