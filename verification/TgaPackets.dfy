/** Run-length files as lists of packets: they read like the uncompressed files that hold what the packets stand for. */
module TgaPackets {
  import opened Results
  import opened ByteStreams
  import opened TgaFormat

  /** A pixel repeated, or up to 128 different ones. */
  datatype RunLengthPacket = Run(pixel: seq<Byte>, count: nat) | Raw(pixels: seq<Byte>)

  predicate ProperPacket(p: RunLengthPacket) {
    match p
    case Run(pixel, count) => |pixel| == 3 && 1 <= count <= 128
    case Raw(pixels) => 3 <= |pixels| <= 3 * 128 && Whole(|pixels|, 3)
  }

  /** The pixels a packet stands for. */
  function PixelsOf(p: RunLengthPacket): seq<Byte> {
    match p
    case Run(pixel, count) => Repeat(pixel, count)
    case Raw(pixels) => pixels
  }

  /** How a packet is stored: a count, with the high bit set for a run, and its pixels. */
  function BytesOf(p: RunLengthPacket): seq<Byte>
    requires ProperPacket(p)
  {
    match p
    case Run(pixel, count) => [128 + (count - 1)] + pixel
    case Raw(pixels) => [|pixels| / 3 - 1] + pixels
  }

  predicate ProperPackets(row: seq<RunLengthPacket>) {
    forall i :: 0 <= i < |row| ==> ProperPacket(row[i])
  }

  function RowExpansion(row: seq<RunLengthPacket>): seq<Byte> {
    if row == [] then [] else PixelsOf(row[0]) + RowExpansion(row[1..])
  }

  function RowBytes(row: seq<RunLengthPacket>): seq<Byte>
    requires ProperPackets(row)
  {
    if row == [] then [] else BytesOf(row[0]) + RowBytes(row[1..])
  }

  /** The packets make up exactly a row of n bytes. */
  predicate FillsRow(row: seq<RunLengthPacket>, n: nat) {
    ProperPackets(row) && |RowExpansion(row)| == n
  }

  predicate FillsRows(rows: seq<seq<RunLengthPacket>>, n: nat) {
    forall i :: 0 <= i < |rows| ==> FillsRow(rows[i], n)
  }

  function Expansion(rows: seq<seq<RunLengthPacket>>): seq<Byte> {
    if rows == [] then [] else Expansion(rows[..|rows| - 1]) + RowExpansion(rows[|rows| - 1])
  }

  function PacketBytes(rows: seq<seq<RunLengthPacket>>, n: nat): seq<Byte>
    requires FillsRows(rows, n)
  {
    if rows == [] then [] else PacketBytes(rows[..|rows| - 1], n) + RowBytes(rows[|rows| - 1])
  }

  // ---------- packets are read as what they stand for ----------

  lemma PacketIsRead(before: seq<Byte>, p: RunLengthPacket, after: seq<Byte>)
    requires ProperPacket(p)
    ensures Packet(before + BytesOf(p) + after, |before|) == Ok((PixelsOf(p), |before| + |BytesOf(p)|))
    ensures |PixelsOf(p)| >= 3
  {
    var data, s, bytes := before + BytesOf(p) + after, |before|, BytesOf(p);
    assert data[s..s + |bytes|] == bytes && data[s] == bytes[0];
    assert data[s + 1..s + |bytes|] == bytes[1..];
  }

  lemma {:induction false} RowIsExpanded(before: seq<Byte>, row: seq<RunLengthPacket>, after: seq<Byte>)
    requires ProperPackets(row)
    ensures ExpandsTo(before, row, after)
    decreases |row|
  {
    hide *;
    if row == [] {
      NothingToExpand(before, after);
    } else {
      FirstPacket(row);
      RowIsExpanded(before + BytesOf(row[0]), row[1..], after);
      RowContinues(before, row, after);
    }
  }

  /** The packets of a row are read as what they stand for, wherever they lie. */
  predicate ExpandsTo(before: seq<Byte>, row: seq<RunLengthPacket>, after: seq<Byte>)
    requires ProperPackets(row)
  {
    ExpandRow(before + RowBytes(row) + after, |before|, |RowExpansion(row)|)
    == Ok((RowExpansion(row), |before| + |RowBytes(row)|))
  }

  lemma RowContinues(before: seq<Byte>, row: seq<RunLengthPacket>, after: seq<Byte>)
    requires ProperPackets(row) && row != []
    requires ProperPacket(row[0]) && ProperPackets(row[1..]) && ExpandsTo(before + BytesOf(row[0]), row[1..], after)
    ensures ExpandsTo(before, row, after)
  {
    hide ExpandRow;
    hide Packet;
    hide BytesOf;
    hide PixelsOf;
    hide RowBytes;
    hide RowExpansion;
    hide ProperPacket;
    hide ProperPackets;
    FirstPacket(row);
    var p, rest := row[0], row[1..];
    var bytes, more, s := BytesOf(p), RowBytes(rest), |before|;
    PacketIsRead(before, p, more + after);
    FourParts(before, bytes, more, after);
    ExpandStep(before + RowBytes(row) + after, s, |RowExpansion(row)|, PixelsOf(p), s + |bytes|);
  }

  lemma NothingToExpand(before: seq<Byte>, after: seq<Byte>)
    ensures ProperPackets([]) && ExpandsTo(before, [], after)
  {
    assert before + [] + after == before + after;
  }

  lemma FirstPacket(row: seq<RunLengthPacket>)
    requires ProperPackets(row) && row != []
    ensures ProperPacket(row[0]) && ProperPackets(row[1..])
    ensures RowExpansion(row) == PixelsOf(row[0]) + RowExpansion(row[1..])
    ensures RowBytes(row) == BytesOf(row[0]) + RowBytes(row[1..])
  {
  }

  lemma FourParts(a: seq<Byte>, b: seq<Byte>, c: seq<Byte>, d: seq<Byte>)
    ensures a + (b + c) + d == a + b + (c + d) == a + b + c + d
  {
  }

  /** So are the packets of all rows. */
  predicate AllExpandTo(before: seq<Byte>, rows: seq<seq<RunLengthPacket>>, n: nat, after: seq<Byte>)
    requires FillsRows(rows, n)
  {
    ExpandRows(before + PacketBytes(rows, n) + after, |before|, n, |rows|)
    == Ok((Expansion(rows), |before| + |PacketBytes(rows, n)|))
  }

  lemma {:induction false} RowsAreExpanded(before: seq<Byte>, rows: seq<seq<RunLengthPacket>>, n: nat, after: seq<Byte>)
    requires FillsRows(rows, n)
    ensures AllExpandTo(before, rows, n, after)
    decreases |rows|
  {
    hide *;
    if rows == [] {
      NoRowsToExpand(before, n, after);
    } else {
      LastRow(rows, n);
      var k := |rows| - 1;
      RowsAreExpanded(before, rows[..k], n, RowBytes(rows[k]) + after);
      RowsContinue(before, rows, n, after);
    }
  }

  lemma RowsContinue(before: seq<Byte>, rows: seq<seq<RunLengthPacket>>, n: nat, after: seq<Byte>)
    requires FillsRows(rows, n) && rows != [] && ProperPackets(rows[|rows| - 1]) && FillsRows(rows[..|rows| - 1], n)
    requires AllExpandTo(before, rows[..|rows| - 1], n, RowBytes(rows[|rows| - 1]) + after)
    ensures AllExpandTo(before, rows, n, after)
  {
    hide ExpandRow;
    hide ExpandRows;
    hide RowBytes;
    hide RowExpansion;
    hide Expansion;
    hide PacketBytes;
    hide FillsRows;
    hide ProperPackets;
    LastRow(rows, n);
    var k := |rows| - 1;
    var most, row := PacketBytes(rows[..k], n), RowBytes(rows[k]);
    RowIsExpanded(before + most, rows[k], after);
    FourParts(before, most, row, after);
    NextExpansion(before + PacketBytes(rows, n) + after, |before|, n, k, Expansion(rows[..k]), |before + most|,
                  RowExpansion(rows[k]), |before + most| + |row|);
  }

  lemma NoRowsToExpand(before: seq<Byte>, n: nat, after: seq<Byte>)
    ensures FillsRows([], n) && AllExpandTo(before, [], n, after)
  {
    assert before + [] + after == before + after;
  }

  lemma LastRow(rows: seq<seq<RunLengthPacket>>, n: nat)
    requires FillsRows(rows, n) && rows != []
    ensures var k := |rows| - 1;
      && FillsRows(rows[..k], n) && ProperPackets(rows[k]) && |RowExpansion(rows[k])| == n
      && Expansion(rows) == Expansion(rows[..k]) + RowExpansion(rows[k])
      && PacketBytes(rows, n) == PacketBytes(rows[..k], n) + RowBytes(rows[k])
  {
  }

  // ---------- nothing else is read ----------

  lemma PacketFound(data: seq<Byte>, s: nat) returns (p: RunLengthPacket)
    requires Packet(data, s).Ok?
    ensures ProperPacket(p) && Packet(data, s).value.0 == PixelsOf(p)
    ensures s + |BytesOf(p)| == Packet(data, s).value.1 <= |data| && data[s..s + |BytesOf(p)|] == BytesOf(p)
  {
    if data[s] >= 128 {
      p := RunFound(data, s);
    } else {
      p := RawFound(data, s);
    }
  }

  lemma RunFound(data: seq<Byte>, s: nat) returns (p: RunLengthPacket)
    requires Packet(data, s).Ok? && data[s] >= 128
    ensures ProperPacket(p) && Packet(data, s).value.0 == PixelsOf(p)
    ensures s + |BytesOf(p)| == Packet(data, s).value.1 <= |data| && data[s..s + |BytesOf(p)|] == BytesOf(p)
  {
    hide Repeat;
    p := Run(data[s + 1..s + 4], data[s] % 128 + 1);
    HeadAndTail(data, s, 3);
  }

  lemma RawFound(data: seq<Byte>, s: nat) returns (p: RunLengthPacket)
    requires Packet(data, s).Ok? && data[s] < 128
    ensures ProperPacket(p) && Packet(data, s).value.0 == PixelsOf(p)
    ensures s + |BytesOf(p)| == Packet(data, s).value.1 <= |data| && data[s..s + |BytesOf(p)|] == BytesOf(p)
  {
    hide Repeat;
    var n: nat := data[s] % 128 + 1;
    p := Raw(data[s + 1..s + 1 + 3 * n]);
    HeadAndTail(data, s, 3 * n);
  }

  lemma HeadAndTail(data: seq<Byte>, s: nat, n: nat)
    requires s + 1 + n <= |data|
    ensures data[s..s + 1 + n] == [data[s]] + data[s + 1..s + 1 + n]
  {
  }

  lemma Joined(data: seq<Byte>, s: nat, m: nat, e: nat, a: seq<Byte>, b: seq<Byte>)
    requires s <= m <= e <= |data| && data[s..m] == a && data[m..e] == b
    ensures data[s..e] == a + b && |a| == m - s && |b| == e - m
  {
  }

  lemma {:induction false} RowFound(data: seq<Byte>, s: nat, n: nat) returns (row: seq<RunLengthPacket>)
    requires ExpandRow(data, s, n).Ok? && s <= |data|
    ensures RowEnds(data, s, n, row)
    decreases n
  {
    hide *;
    if n == 0 {
      row := [];
      NoPacketFound(data, s);
    } else {
      FirstExpansion(data, s, n);
      var p := PacketFound(data, s);
      var (pixels, next) := Packet(data, s).value;
      var rest := RowFound(data, next, n - |pixels|);
      row := [p] + rest;
      OnePacketFound(data, s, n, p, rest);
    }
  }

  /** The packets fill n bytes and end where the expansion ends. */
  predicate RowEnds(data: seq<Byte>, s: nat, n: nat, row: seq<RunLengthPacket>)
    requires ExpandRow(data, s, n).Ok?
  {
    && FillsRow(row, n) && RowExpansion(row) == ExpandRow(data, s, n).value.0
    && s + |RowBytes(row)| == ExpandRow(data, s, n).value.1 <= |data| && data[s..s + |RowBytes(row)|] == RowBytes(row)
  }

  lemma NoPacketFound(data: seq<Byte>, s: nat)
    requires s <= |data|
    ensures ExpandRow(data, s, 0).Ok? && RowEnds(data, s, 0, [])
  {
  }

  lemma FirstExpansion(data: seq<Byte>, s: nat, n: nat)
    requires ExpandRow(data, s, n).Ok? && n > 0
    ensures Packet(data, s).Ok? && 0 < |Packet(data, s).value.0| <= n && Packet(data, s).value.1 <= |data|
    ensures ExpandRow(data, Packet(data, s).value.1, n - |Packet(data, s).value.0|).Ok?
  {
  }

  lemma OnePacketFound(data: seq<Byte>, s: nat, n: nat, p: RunLengthPacket, rest: seq<RunLengthPacket>)
    requires n > 0 && ExpandRow(data, s, n).Ok? && Packet(data, s).Ok? && ProperPacket(p)
    requires Packet(data, s).value.0 == PixelsOf(p) && 0 < |PixelsOf(p)| <= n
    requires s + |BytesOf(p)| == Packet(data, s).value.1 <= |data| && data[s..s + |BytesOf(p)|] == BytesOf(p)
    requires ExpandRow(data, Packet(data, s).value.1, n - |PixelsOf(p)|).Ok?
    requires RowEnds(data, Packet(data, s).value.1, n - |PixelsOf(p)|, rest)
    ensures RowEnds(data, s, n, [p] + rest)
  {
    hide Packet;
    hide PixelsOf;
    hide BytesOf;
    hide ProperPacket;
    var row, next := [p] + rest, Packet(data, s).value.1;
    assert row[1..] == rest;
    Joined(data, s, next, next + |RowBytes(rest)|, BytesOf(p), RowBytes(rest));
  }

  lemma {:induction false} RowsFound(data: seq<Byte>, s: nat, n: nat, k: nat) returns (rows: seq<seq<RunLengthPacket>>)
    requires ExpandRows(data, s, n, k).Ok? && s <= |data|
    ensures RowsEnd(data, s, n, k, rows)
    decreases k
  {
    hide *;
    if k == 0 {
      rows := [];
      NoneFound(data, s, n);
    } else {
      LastExpansion(data, s, n, k);
      var most := RowsFound(data, s, n, k - 1);
      var next := ExpandRows(data, s, n, k - 1).value.1;
      EndInData(data, s, n, k - 1, most);
      var row := RowFound(data, next, n);
      RowEndIs(data, next, n, row);
      rows := most + [row];
      OneMoreFound(data, s, n, k, most, row);
    }
  }

  /** The packets fill k rows and end where the expansion ends. */
  predicate RowsEnd(data: seq<Byte>, s: nat, n: nat, k: nat, rows: seq<seq<RunLengthPacket>>)
    requires ExpandRows(data, s, n, k).Ok?
  {
    && |rows| == k && FillsRows(rows, n) && Expansion(rows) == ExpandRows(data, s, n, k).value.0
    && s + |PacketBytes(rows, n)| == ExpandRows(data, s, n, k).value.1 <= |data|
    && data[s..s + |PacketBytes(rows, n)|] == PacketBytes(rows, n)
  }

  lemma NoneFound(data: seq<Byte>, s: nat, n: nat)
    requires s <= |data|
    ensures ExpandRows(data, s, n, 0).Ok? && RowsEnd(data, s, n, 0, [])
  {
  }

  lemma LastExpansion(data: seq<Byte>, s: nat, n: nat, k: nat)
    requires ExpandRows(data, s, n, k).Ok? && k > 0
    ensures var most := ExpandRows(data, s, n, k - 1);
      most.Ok? && ExpandRow(data, most.value.1, n).Ok?
  {
    hide ExpandRow;
  }

  lemma EndInData(data: seq<Byte>, s: nat, n: nat, k: nat, rows: seq<seq<RunLengthPacket>>)
    requires ExpandRows(data, s, n, k).Ok? && RowsEnd(data, s, n, k, rows)
    ensures ExpandRows(data, s, n, k).value.1 <= |data|
  {
  }

  lemma RowEndIs(data: seq<Byte>, s: nat, n: nat, row: seq<RunLengthPacket>)
    requires ExpandRow(data, s, n).Ok? && RowEnds(data, s, n, row)
    ensures FillsRow(row, n) && RowExpansion(row) == ExpandRow(data, s, n).value.0
    ensures s + |RowBytes(row)| == ExpandRow(data, s, n).value.1 <= |data|
            && data[s..s + |RowBytes(row)|] == RowBytes(row)
  {
    hide ExpandRow;
    hide RowExpansion;
    hide RowBytes;
  }

  lemma OneMoreFound(data: seq<Byte>, s: nat, n: nat, k: nat, most: seq<seq<RunLengthPacket>>,
                     row: seq<RunLengthPacket>)
    requires k > 0 && ExpandRows(data, s, n, k).Ok? && ExpandRows(data, s, n, k - 1).Ok?
             && RowsEnd(data, s, n, k - 1, most)
    requires var next := ExpandRows(data, s, n, k - 1).value.1;
      && ExpandRow(data, next, n).Ok? && FillsRow(row, n) && RowExpansion(row) == ExpandRow(data, next, n).value.0
      && next + |RowBytes(row)| == ExpandRow(data, next, n).value.1 <= |data|
      && data[next..next + |RowBytes(row)|] == RowBytes(row)
    ensures RowsEnd(data, s, n, k, most + [row])
  {
    hide ExpandRow;
    hide RowBytes;
    hide RowExpansion;
    hide ProperPackets;
    var rows := most + [row];
    assert rows[..k - 1] == most && rows[k - 1] == row;
    var next := ExpandRows(data, s, n, k - 1).value.1;
    Joined(data, s, next, next + |RowBytes(row)|, PacketBytes(most, n), RowBytes(row));
  }

  predicate StartsWith(data: seq<Byte>, s: nat, part: seq<Byte>) {
    s + |part| <= |data| && data[s..s + |part|] == part
  }

  /** The pixel data of a run-length file is accepted exactly when it starts with packets that fill the rows, and then
      it is what they stand for. */
  lemma ExpansionExactly(data: seq<Byte>, s: nat, n: nat, k: nat, raw: seq<Byte>)
    requires s <= |data|
    ensures Expands(data, s, n, k, raw) <==> exists rows :: IsStored(rows, n, k, data, s, raw)
  {
    hide *;
    if Expands(data, s, n, k, raw) {
      var rows := StoredRows(data, s, n, k, raw);
      assert IsStored(rows, n, k, data, s, raw);
    }
    forall rows | IsStored(rows, n, k, data, s, raw)
      ensures Expands(data, s, n, k, raw)
    {
      StoredExpands(rows, n, k, data, s, raw);
    }
  }

  predicate Expands(data: seq<Byte>, s: nat, n: nat, k: nat, raw: seq<Byte>) {
    ExpandRows(data, s, n, k).Ok? && ExpandRows(data, s, n, k).value.0 == raw
  }

  /** The packets fill k rows, lie at position s of the data and stand for the pixels. */
  predicate IsStored(rows: seq<seq<RunLengthPacket>>, n: nat, k: nat, data: seq<Byte>, s: nat, raw: seq<Byte>) {
    |rows| == k && FillsRows(rows, n) && StartsWith(data, s, PacketBytes(rows, n)) && Expansion(rows) == raw
  }

  lemma StoredRows(data: seq<Byte>, s: nat, n: nat, k: nat, raw: seq<Byte>) returns (rows: seq<seq<RunLengthPacket>>)
    requires s <= |data| && Expands(data, s, n, k, raw)
    ensures IsStored(rows, n, k, data, s, raw)
  {
    hide ExpandRows;
    hide FillsRows;
    hide PacketBytes;
    hide Expansion;
    rows := RowsFound(data, s, n, k);
    assert RowsEnd(data, s, n, k, rows);
  }

  lemma StoredExpands(rows: seq<seq<RunLengthPacket>>, n: nat, k: nat, data: seq<Byte>, s: nat, raw: seq<Byte>)
    requires s <= |data| && IsStored(rows, n, k, data, s, raw)
    ensures Expands(data, s, n, k, raw)
  {
    hide ExpandRows;
    hide FillsRows;
    hide PacketBytes;
    hide Expansion;
    var bytes := PacketBytes(rows, n);
    RowsAreExpanded(data[..s], rows, n, data[s + |bytes|..]);
    assert data == data[..s] + bytes + data[s + |bytes|..];
  }

  // ---------- files ----------

  /** A 24-bit file of the given data type; fields the decoder ignores hold anything. */
  datatype Fields = Fields(id: seq<Byte>, colorMap: seq<Byte>, origin: seq<Byte>, descriptor: Byte, before: seq<Byte>,
                           after: seq<Byte>)

  predicate ProperFields(f: Fields) {
    |f.id| < 256 && |f.colorMap| == 6 && |f.origin| == 4
  }

  function File(f: Fields, imageType: Byte, width: nat, height: nat, stored: seq<Byte>): seq<Byte>
    requires ProperFields(f)
  {
    f.before + FileHeader(f, imageType, width, height) + f.id + stored + f.after + (TAG + [0])
  }

  function FileHeader(f: Fields, imageType: Byte, width: nat, height: nat): (h: seq<Byte>)
    requires ProperFields(f)
    ensures |h| == 18
  {
    [|f.id|, f.colorMap[0], imageType] + f.colorMap[1..] + f.origin + Word16Bytes(width) + Word16Bytes(height)
      + [24, f.descriptor]
  }

  function ImageOf(pixels: Decoded<seq<Byte>>, width: nat, height: nat): Decoded<Image> {
    match pixels
    case Failure(e) => Failure(e)
    case Ok(d) => Ok(Image(width, height, 3, DecodeRows(d, width * 3, 3)))
  }

  lemma FileIsDecoded(f: Fields, imageType: Byte, width: nat, height: nat, stored: seq<Byte>)
    requires ProperFields(f) && width <= 0x7FFF && height <= 0x7FFF && (imageType == 2 || imageType == 10)
    ensures var data, p := File(f, imageType, width, height, stored), |f.before|;
      var s := p + 18 + |f.id|;
      && data == (f.before + FileHeader(f, imageType, width, height) + f.id) + stored + (f.after + (TAG + [0]))
      && s + |stored| <= |data|
      && Decode(data, p) == ImageOf(Pixels(data, s, imageType, width, height, 3), width, height)
  {
    var h := FileHeader(f, imageType, width, height);
    var data, p := File(f, imageType, width, height, stored), |f.before|;
    assert data == f.before + h + f.id + stored + f.after + (TAG + [0]);
    Bracketed(f.before + h + f.id, stored, f.after, TAG + [0]);
    HeaderAt(f, imageType, width, height, f.id + stored + f.after);
    assert data == f.before + h + (f.id + stored + f.after) + (TAG + [0]);
    hide File;
    hide FileHeader;
    FileOpens(data, p, |f.id|, imageType, width, height);
    hide *;
  }

  lemma Bracketed(a: seq<Byte>, b: seq<Byte>, c: seq<Byte>, d: seq<Byte>)
    ensures a + b + c + d == a + b + (c + d)
  {
  }

  /** The decoder finds the tag and the fields of the header. */
  lemma HeaderAt(f: Fields, imageType: Byte, width: nat, height: nat, body: seq<Byte>)
    requires ProperFields(f) && width <= 0x7FFF && height <= 0x7FFF
    ensures var data, p := f.before + FileHeader(f, imageType, width, height) + body + (TAG + [0]), |f.before|;
      && p + 18 + |body| + 18 == |data| && data[p] == |f.id| && data[p + 2] == imageType && data[p + 16] == 24
      && Word16(data[p + 12], data[p + 13]) == width && Word16(data[p + 14], data[p + 15]) == height
      && CString(data[|data| - 18..|data| - 2]) == TAG[..16]
  {
    var h := FileHeader(f, imageType, width, height);
    var data, p := f.before + h + body + (TAG + [0]), |f.before|;
    Word16RoundTrip(width);
    Word16RoundTrip(height);
    TagIsString();
    hide CString;
    hide Word16;
    assert forall i :: 0 <= i < 18 ==> data[p + i] == h[i];
    assert h[12..14] == Word16Bytes(width) && h[14..16] == Word16Bytes(height);
    assert data[|data| - 18..|data| - 2] == TAG[..16];
  }

  lemma FileOpens(data: seq<Byte>, p: nat, idLength: nat, imageType: Byte, width: nat, height: nat)
    requires p + 18 + idLength + 18 <= |data| && data[p] == idLength && data[p + 2] == imageType && data[p + 16] == 24
    requires Word16(data[p + 12], data[p + 13]) == width && Word16(data[p + 14], data[p + 15]) == height
    requires CString(data[|data| - 18..|data| - 2]) == TAG[..16] && (imageType == 2 || imageType == 10)
    ensures Decode(data, p) == ImageOf(Pixels(data, p + 18 + idLength, imageType, width, height, 3), width, height)
  {
    hide CString;
    hide Word16;
    hide Pixels;
    hide DecodeRows;
    assert Open(data, p) == Ok(Opening(imageType, width, height, 3, p + 18 + idLength));
  }

  /** A run-length file whose packets never wrap a row decodes to the same image as the uncompressed file of what the
      packets stand for. */
  lemma RunLengthIsExpansion(f: Fields, width: nat, height: nat, rows: seq<seq<RunLengthPacket>>)
    requires ProperFields(f) && width <= 0x7FFF && height <= 0x7FFF && |rows| == height && FillsRows(rows, width * 3)
    ensures Decode(File(f, 10, width, height, PacketBytes(rows, width * 3)), |f.before|)
         == Decode(File(f, 2, width, height, Expansion(rows)), |f.before|)
         == ImageOf(Ok(Expansion(rows)), width, height)
  {
    hide *;
    var n, packets, raw := width * 3, PacketBytes(rows, width * 3), Expansion(rows);
    var front, back := f.before + FileHeader(f, 10, width, height) + f.id, f.after + (TAG + [0]);
    var front2 := f.before + FileHeader(f, 2, width, height) + f.id;
    FileIsDecoded(f, 10, width, height, packets);
    FileIsDecoded(f, 2, width, height, raw);
    RowsAreExpanded(front, rows, n, back);
    ExpansionSize(rows, n);
    PixelsOfPackets(front, rows, back, width, height);
    PixelsOfRaw(front2, raw, back, width, height);
  }

  lemma PixelsOfPackets(front: seq<Byte>, rows: seq<seq<RunLengthPacket>>, back: seq<Byte>, width: nat, height: nat)
    requires FillsRows(rows, width * 3) && |rows| == height && AllExpandTo(front, rows, width * 3, back)
    ensures Pixels(front + PacketBytes(rows, width * 3) + back, |front|, 10, width, height, 3) == Ok(Expansion(rows))
  {
    hide ExpandRows;
    hide PacketBytes;
  }

  lemma PixelsOfRaw(front: seq<Byte>, raw: seq<Byte>, back: seq<Byte>, width: nat, height: nat)
    requires |raw| == height * (width * 3)
    ensures Pixels(front + raw + back, |front|, 2, width, height, 3) == Ok(raw)
  {
    var data := front + raw + back;
    assert data[|front|..|front| + |raw|] == raw;
  }

  lemma {:induction false} ExpansionSize(rows: seq<seq<RunLengthPacket>>, n: nat)
    requires FillsRows(rows, n)
    ensures |Expansion(rows)| == |rows| * n
    decreases |rows|
  {
    if rows != [] {
      ExpansionSize(rows[..|rows| - 1], n);
      assert |rows| * n == (|rows| - 1) * n + n;
    }
  }
}
