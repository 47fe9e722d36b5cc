/** The Truevision TGA layout: what the bytes of a file say of an image. */
module TgaFormat {
  import opened Results
  import opened ByteStreams

  datatype Image = Image(width: int, height: int, channels: int, bytes: seq<Byte>)

  datatype Error = NotATga | BadType | BadDepth | BadSize | PastEnd | PacketWraps

  type Decoded<T> = Result<T, Error>

  /** TRUEVISION-XFILE and a blank. */
  const TAG: seq<Byte> := [84, 82, 85, 69, 86, 73, 83, 73, 79, 78, 45, 88, 70, 73, 76, 69, 32]

  // ---------- pixels and rows ----------

  /** A pixel with red and blue exchanged. */
  function SwapPixel(p: seq<Byte>): (q: seq<Byte>)
    requires |p| == 3 || |p| == 4
    ensures |q| == |p|
  {
    [p[2], p[1], p[0]] + p[3..]
  }

  /** Whole pixels of c channels with red and blue exchanged. */
  function Swizzle(s: seq<Byte>, c: int): (t: seq<Byte>)
    requires c == 3 || c == 4
    ensures |t| <= |s|
  {
    if |s| < c then [] else SwapPixel(s[..c]) + Swizzle(s[c..], c)
  }

  /** The image rows for stored rows of n bytes: the first stored row is the last of the image. */
  function DecodeRows(d: seq<Byte>, n: nat, c: int): seq<Byte>
    requires c == 3 || c == 4
  {
    if n == 0 || |d| < n then [] else DecodeRows(d[n..], n, c) + Swizzle(d[..n], c)
  }

  /** The stored rows for image rows of n bytes: the last image row comes first. */
  function EncodeRows(b: seq<Byte>, n: nat, c: int): seq<Byte>
    requires c == 3 || c == 4
  {
    if n == 0 || |b| < n then [] else Swizzle(b[|b| - n..], c) + EncodeRows(b[..|b| - n], n, c)
  }

  /** A number of bytes that makes up whole pixels. */
  predicate Whole(n: int, c: int) {
    if c == 4 then n % 4 == 0 else n % 3 == 0
  }

  predicate WholePixels(s: seq<Byte>, c: int) {
    Whole(|s|, c)
  }

  lemma {:induction false} SwizzleLength(s: seq<Byte>, c: int)
    requires (c == 3 || c == 4) && WholePixels(s, c)
    ensures |Swizzle(s, c)| == |s|
  {
    if |s| >= c {
      SwizzleLength(s[c..], c);
    }
  }

  lemma {:induction false} SwizzleTwice(s: seq<Byte>, c: int)
    requires (c == 3 || c == 4) && WholePixels(s, c)
    ensures Swizzle(Swizzle(s, c), c) == s
  {
    if |s| >= c {
      var p, rest := s[..c], Swizzle(s[c..], c);
      SwizzleTwice(s[c..], c);
      var t := SwapPixel(p) + rest;
      assert t[..c] == SwapPixel(p) && t[c..] == rest;
      assert SwapPixel(SwapPixel(p)) == p;
    }
  }

  lemma {:induction false} SwizzleAppend(s: seq<Byte>, p: seq<Byte>, c: int)
    requires (c == 3 || c == 4) && WholePixels(s, c) && |p| == c
    ensures Swizzle(s + p, c) == Swizzle(s, c) + SwapPixel(p)
  {
    if |s| < c {
      assert s == [] && s + p == p && p[..c] == p;
      assert Swizzle(p[c..], c) == [];
    } else {
      var first, rest := s[..c], s[c..];
      assert (s + p)[..c] == first && (s + p)[c..] == rest + p;
      assert Swizzle(s + p, c) == SwapPixel(first) + Swizzle(rest + p, c);
      assert Swizzle(s, c) == SwapPixel(first) + Swizzle(rest, c);
      hide *;
      SwizzleAppend(rest, p, c);
    }
  }

  /** A number of whole rows. */
  predicate WholeRows(s: seq<Byte>, n: nat, k: nat) {
    |s| == k * n
  }

  lemma LowestRow(d: seq<Byte>, n: nat, c: int)
    requires (c == 3 || c == 4) && 0 < n <= |d| && Whole(n, c)
    ensures DecodeRows(d, n, c) == DecodeRows(d[n..], n, c) + Swizzle(d[..n], c) && |Swizzle(d[..n], c)| == n
  {
    SwizzleLength(d[..n], c);
    hide Swizzle;
  }

  lemma FirstStored(s: seq<Byte>, n: nat, c: int)
    requires (c == 3 || c == 4) && 0 < n <= |s| && Whole(n, c)
    ensures EncodeRows(s, n, c) == Swizzle(s[|s| - n..], c) + EncodeRows(s[..|s| - n], n, c)
    ensures |Swizzle(s[|s| - n..], c)| == n
  {
    SwizzleLength(s[|s| - n..], c);
    hide Swizzle;
  }

  lemma OneRowLess(size: nat, n: nat, k: nat)
    requires n > 0 && k > 0 && size == k * n
    ensures size >= n && size - n == (k - 1) * n
  {
    assert k * n == (k - 1) * n + n;
    assert (k - 1) * n >= 0;
  }

  lemma WholeRowsLess(s: seq<Byte>, n: nat, k: nat)
    requires n > 0 && k > 0 && WholeRows(s, n, k)
    ensures |s| >= n && WholeRows(s[..|s| - n], n, k - 1)
  {
    OneRowLess(|s|, n, k);
  }

  lemma NoRowStored(s: seq<Byte>, n: nat, c: int)
    requires (c == 3 || c == 4) && n > 0 && WholeRows(s, n, 0)
    ensures s == [] && EncodeRows(s, n, c) == [] && DecodeRows([], n, c) == []
  {
  }

  /** What has been stored as rows is read back. */
  lemma {:induction false} RowsRoundTrip(b: seq<Byte>, n: nat, c: int, k: nat)
    requires (c == 3 || c == 4) && n > 0 && Whole(n, c) && WholeRows(b, n, k)
    ensures DecodeRows(EncodeRows(b, n, c), n, c) == b && |EncodeRows(b, n, c)| == |b|
    decreases k
  {
    hide *;
    if k == 0 {
      NoRowStored(b, n, c);
    } else {
      WholeRowsLess(b, n, k);
      var m := |b| - n;
      var top, last := b[..m], b[m..];
      assert top + last == b;
      RowsRoundTrip(top, n, c, k - 1);
      IsWhole(last, n, c);
      SwizzleTwice(last, c);
      FirstStored(b, n, c);
      var first, rest := Swizzle(last, c), EncodeRows(top, n, c);
      var e := first + rest;
      assert e[..n] == first && e[n..] == rest;
      LowestRow(e, n, c);
    }
  }

  lemma IsWhole(s: seq<Byte>, n: nat, c: int)
    requires |s| == n && Whole(n, c)
    ensures WholePixels(s, c)
  {
  }

  /** One more stored row comes in front of the image rows so far. */
  lemma {:induction false} NextRow(d: seq<Byte>, row: seq<Byte>, n: nat, c: int, k: nat)
    requires (c == 3 || c == 4) && n > 0 && Whole(n, c) && WholeRows(d, n, k) && |row| == n
    ensures DecodeRows(d + row, n, c) == Swizzle(row, c) + DecodeRows(d, n, c)
    decreases k
  {
    hide Swizzle;
    if k == 0 {
      assert d == [] && d + row == row && row[..n] == row && row[n..] == [];
      assert DecodeRows(row[n..], n, c) == [];
    } else {
      assert |d| == (k - 1) * n + n;
      NextRow(d[n..], row, n, c, k - 1);
      assert (d + row)[..n] == d[..n] && (d + row)[n..] == d[n..] + row;
    }
  }

  lemma {:induction false} RowsLength(d: seq<Byte>, n: nat, c: int, k: nat)
    requires (c == 3 || c == 4) && n > 0 && Whole(n, c) && WholeRows(d, n, k)
    ensures |DecodeRows(d, n, c)| == |d|
    decreases k
  {
    hide Swizzle;
    if k > 0 {
      assert |d| == (k - 1) * n + n;
      RowsLength(d[n..], n, c, k - 1);
      SwizzleLength(d[..n], c);
    }
  }

  // ---------- run-length packets (data type 10, 24 bits) ----------

  /** n copies of a pixel. */
  function Repeat(p: seq<Byte>, n: nat): (s: seq<Byte>)
    ensures |s| == n * |p|
  {
    if n == 0 then [] else Repeat(p, n - 1) + p
  }

  /** The packet at position s: the pixels it stands for, and where it ends. */
  function Packet(data: seq<Byte>, s: nat): Decoded<(seq<Byte>, nat)> {
    if s >= |data| then Failure(PastEnd)
    else
      var n: nat := data[s] % 128 + 1;
      if data[s] >= 128 then
        if s + 4 > |data| then Failure(PastEnd) else Ok((Repeat(data[s + 1..s + 4], n), s + 4))
      else if s + 1 + 3 * n > |data| then Failure(PastEnd)
      else Ok((data[s + 1..s + 1 + 3 * n], s + 1 + 3 * n))
  }

  /** The packets of one row, of which n bytes are still to come. */
  function ExpandRow(data: seq<Byte>, s: nat, n: nat): (row: Decoded<(seq<Byte>, nat)>)
    ensures row.Ok? ==> |row.value.0| == n
    decreases n
  {
    if n == 0 then Ok(([], s))
    else
      match Packet(data, s)
      case Failure(e) => Failure(e)
      case Ok((pixels, next)) =>
        if |pixels| > n then Failure(PacketWraps)
        else if pixels == [] then Failure(PacketWraps)
        else
          match ExpandRow(data, next, n - |pixels|)
          case Failure(e) => Failure(e)
          case Ok((row, end)) => Ok((pixels + row, end))
  }

  /** All rows as they would be stored without packets. */
  function ExpandRows(data: seq<Byte>, s: nat, n: nat, k: nat): Decoded<(seq<Byte>, nat)>
    decreases k
  {
    if k == 0 then Ok(([], s))
    else
      match ExpandRows(data, s, n, k - 1)
      case Failure(e) => Failure(e)
      case Ok((rows, next)) =>
        match ExpandRow(data, next, n)
        case Failure(e) => Failure(e)
        case Ok((row, end)) => Ok((rows + row, end))
  }

  function Prepend(raw: seq<Byte>, rest: Decoded<(seq<Byte>, nat)>): Decoded<(seq<Byte>, nat)> {
    match rest
    case Failure(e) => Failure(e)
    case Ok((row, end)) => Ok((raw + row, end))
  }

  lemma ExpandStep(data: seq<Byte>, s: nat, m: nat, raw: seq<Byte>, next: nat)
    requires Packet(data, s) == Ok((raw, next)) && 3 <= |raw| <= m
    ensures ExpandRow(data, s, m) == Prepend(raw, ExpandRow(data, next, m - |raw|))
  {
    hide Packet;
  }

  lemma NextExpansion(data: seq<Byte>, start: nat, n: nat, k: nat, d: seq<Byte>, s: nat, row: seq<Byte>, next: nat)
    requires ExpandRows(data, start, n, k) == Ok((d, s)) && ExpandRow(data, s, n) == Ok((row, next))
    ensures ExpandRows(data, start, n, k + 1) == Ok((d + row, next)) && |row| == n
  {
    hide ExpandRow;
  }

  // ---------- files ----------

  function Word16(lo: Byte, hi: Byte): int {
    var w := (lo as int) + 256 * (hi as int);
    if w < 0x8000 then w else w - 0x1_0000
  }

  /** What the header says, and where the pixels start. */
  datatype Opening = Opening(imageType: Byte, width: nat, height: nat, channels: nat, start: nat)

  function Open(data: seq<Byte>, p: nat): (o: Decoded<Opening>)
    ensures o.Ok? ==>
              (o.value.channels == 3 || o.value.channels == 4) && (o.value.imageType == 2 || o.value.imageType == 10)
    ensures o.Ok? ==> o.value.start <= |data|
  {
    if |data| < 18 || p + 18 > |data| then Failure(PastEnd)
    else if CString(data[|data| - 18..|data| - 2]) != TAG[..16] then Failure(NotATga)
    else
      var imageType, depth := data[p + 2], data[p + 16];
      var width, height := Word16(data[p + 12], data[p + 13]), Word16(data[p + 14], data[p + 15]);
      if imageType != 2 && imageType != 10 then Failure(BadType)
      else if depth != 24 && depth != 32 then Failure(BadDepth)
      else if width < 0 || height < 0 then Failure(BadSize)
      else if p + 18 + data[p] as nat > |data| then Failure(PastEnd)
      else Ok(Opening(imageType, width, height, if depth == 32 then 4 else 3, p + 18 + data[p] as nat))
  }

  /** The files whose pixels the decoder misplaces. */
  predicate Misplaced(o: Opening) {
    o.imageType == 10 && o.channels == 4
  }

  /** What a file says, starting at position p, unless it is a 32-bit run-length file. */
  function Decode(data: seq<Byte>, p: nat): Decoded<Image> {
    match Open(data, p)
    case Failure(e) => Failure(e)
    case Ok(o) =>
      match Pixels(data, o.start, o.imageType, o.width, o.height, o.channels)
      case Failure(e) => Failure(e)
      case Ok(d) => Ok(Image(o.width, o.height, o.channels, DecodeRows(d, o.width * o.channels, o.channels)))
  }

  /** The stored pixels from position s on. */
  function Pixels(data: seq<Byte>, s: nat, imageType: Byte, width: nat, height: nat, channels: nat): Decoded<seq<Byte>>
  {
    if imageType == 2 then
      var size := height * (width * channels);
      if s + size > |data| then Failure(PastEnd) else Ok(data[s..s + size])
    else
      match ExpandRows(data, s, width * channels, height)
      case Failure(e) => Failure(e)
      case Ok((d, _)) => Ok(d)
  }

  function Word16Bytes(u: nat): seq<Byte> {
    [u % 256, u / 256 % 256]
  }

  /** Each byte three times. */
  function Grey(s: seq<Byte>): (t: seq<Byte>)
    ensures |t| == 3 * |s|
  {
    if s == [] then [] else Grey(s[..|s| - 1]) + [s[|s| - 1], s[|s| - 1], s[|s| - 1]]
  }

  /** The channels of the stored pixels: single-channel images are forced to RGB. */
  function StoredChannels(channels: int): int {
    if channels == 4 then 4 else 3
  }

  function StoredBytes(image: Image): seq<Byte> {
    if image.channels == 1 then Grey(image.bytes) else image.bytes
  }

  /** Images with as many bytes as they should have, of a size that fits the header's signed words. */
  predicate Proper(image: Image) {
    && 0 < image.width <= 0x7FFF && 0 < image.height <= 0x7FFF && image.channels in {1, 3, 4}
    && |image.bytes| == image.height * (image.width * image.channels)
  }

  function Header(image: Image, skipped: seq<Byte>): (h: seq<Byte>)
    requires Proper(image) && |skipped| == 5
    ensures |h| == 18
  {
    [0, 0, 2] + skipped + [0, 0, 0, 0] + Word16Bytes(image.width) + Word16Bytes(image.height)
    + [8 * StoredChannels(image.channels), if image.channels < 4 then 0 else 8]
  }

  /** The file for an image; what the five skipped bytes hold is up to the stream. */
  function Encode(image: Image, skipped: seq<Byte>): seq<Byte>
    requires Proper(image) && |skipped| == 5
  {
    var c := StoredChannels(image.channels);
    Header(image, skipped) + EncodeRows(StoredBytes(image), image.width * c, c) + (TAG + [0])
  }

  lemma Word16RoundTrip(u: nat)
    requires u <= 0x7FFF
    ensures Word16(Word16Bytes(u)[0], Word16Bytes(u)[1]) == u
  {
  }

  lemma StoredSize(image: Image)
    requires Proper(image)
    ensures |StoredBytes(image)| == image.height * (image.width * StoredChannels(image.channels))
  {
    if image.channels == 1 {
      assert 3 * (image.height * image.width)
               == image.height * (image.width * 3) by { Regroup(image.height, image.width, 3); }
    }
  }

  lemma Regroup(a: int, b: int, c: int)
    ensures c * (a * b) == a * (b * c)
  {
  }

  lemma Multiple(w: nat, c: nat)
    requires c == 3 || c == 4
    ensures Whole(w * c, c)
  {
    if c == 3 {
    } else {
    }
  }

  lemma AtMost(a: nat, b: nat, n: nat)
    requires a <= b
    ensures a * n <= b * n
  {
  }

  /** Row y lies within h rows, and pixel x within a row of w pixels. */
  lemma RowFits(n: nat, y: nat, h: nat)
    requires y < h
    ensures 0 <= y * n && y * n + n <= h * n && (y + 1) * n == y * n + n
  {
    assert (y + 1) * n == y * n + n;
    AtMost(y + 1, h, n);
  }

  /** The decoder finds the tag and the fields of the header where the encoder put them. */
  lemma HeaderIsFound(image: Image, skipped: seq<Byte>, before: seq<Byte>, rows: seq<Byte>)
    requires Proper(image) && |skipped| == 5
    ensures var data, p := before + (Header(image, skipped) + rows + (TAG + [0])), |before|;
      && p + 18 <= |data| - 18 && data[p] == 0 && data[p + 2] == 2 && data[p + 16] == 8 * StoredChannels(image.channels)
      && Word16(data[p + 12], data[p + 13]) == image.width && Word16(data[p + 14], data[p + 15]) == image.height
      && p + 18 + |rows| + 18 == |data| && data[p + 18..p + 18 + |rows|] == rows
      && CString(data[|data| - 18..|data| - 2]) == TAG[..16]
  {
    var h := Header(image, skipped);
    var data, p := before + (h + rows + (TAG + [0])), |before|;
    Word16RoundTrip(image.width);
    Word16RoundTrip(image.height);
    assert forall i :: 0 <= i < 18 ==> data[p + i] == h[i];
    assert h[12..14] == Word16Bytes(image.width) && h[14..16] == Word16Bytes(image.height);
    assert data[|data| - 18..|data| - 2] == TAG[..16];
    TagIsString();
  }

  lemma TagIsString()
    ensures CString(TAG[..16]) == TAG[..16]
  {
    CStringIs(TAG[..16], []);
  }

  /** Every proper image is read back from its file; single-channel ones with three equal channels. */
  lemma RoundTrip(image: Image, skipped: seq<Byte>, before: seq<Byte>)
    requires Proper(image) && |skipped| == 5
    ensures Decode(before + Encode(image, skipped), |before|)
         == Ok(image.(channels := StoredChannels(image.channels), bytes := StoredBytes(image)))
  {
    hide *;
    var c := StoredChannels(image.channels);
    ChannelsStored(image);
    var n := image.width * c;
    var stored := StoredBytes(image);
    var rows := EncodeRows(stored, n, c);
    var data := before + Encode(image, skipped);
    StoredSize(image);
    Multiple(image.width, c);
    RowsCount(stored, n, image.height);
    RowsRoundTrip(stored, n, c, image.height);
    HeaderIsFound(image, skipped, before, rows);
    EncodeIs(image, skipped);
    DecodeFound(data, |before|, image.width, image.height, c, rows);
    assert image.(channels := c, bytes := stored) == Image(image.width, image.height, c, stored);
  }

  lemma ChannelsStored(image: Image)
    requires Proper(image)
    ensures StoredChannels(image.channels) in {3, 4} && 0 < image.width <= 0x7FFF && 0 < image.height <= 0x7FFF
    ensures image.width * StoredChannels(image.channels) > 0
  {
  }

  lemma RowsCount(s: seq<Byte>, n: nat, k: nat)
    requires |s| == k * n
    ensures WholeRows(s, n, k)
  {
  }

  lemma EncodeIs(image: Image, skipped: seq<Byte>)
    requires Proper(image) && |skipped| == 5
    ensures var c := StoredChannels(image.channels);
      Encode(image, skipped)
        == Header(image, skipped) + EncodeRows(StoredBytes(image), image.width * c, c) + (TAG + [0])
  {
  }

  lemma DecodeFound(data: seq<Byte>, p: nat, width: nat, height: nat, c: int, rows: seq<Byte>)
    requires (c == 3 || c == 4) && |rows| == height * (width * c)
    requires p + 18 + |rows| + 18 <= |data| && data[p] == 0 && data[p + 2] == 2 && data[p + 16] == 8 * c
    requires Word16(data[p + 12], data[p + 13]) == width && Word16(data[p + 14], data[p + 15]) == height
    requires data[p + 18..p + 18 + |rows|] == rows && CString(data[|data| - 18..|data| - 2]) == TAG[..16]
    ensures Decode(data, p) == Ok(Image(width, height, c, DecodeRows(rows, width * c, c)))
  {
    hide DecodeRows;
    hide CString;
    hide Word16;
    hide ExpandRows;
  }
}
