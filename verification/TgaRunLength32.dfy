/** What the run-length loops make of 32-bit files: they place pixels three bytes apart, and raw packets three bytes
    long. */
module TgaRunLength32 {
  import opened Results
  import opened ByteStreams
  import opened TgaFormat

  /** The bytes v written at an offset. */
  function Put(b: seq<Byte>, at: nat, v: seq<Byte>): (r: seq<Byte>)
    requires at + |v| <= |b|
    ensures |r| == |b|
  {
    b[..at] + v + b[at + |v|..]
  }

  /** A run: n times the three colours, without alpha. */
  function PutRun(b: seq<Byte>, at: nat, v: seq<Byte>, n: nat): (r: seq<Byte>)
    requires |v| == 3 && at + 3 * n <= |b|
    ensures |r| == |b|
  {
    if n == 0 then b else Put(PutRun(b, at, v, n - 1), at + 3 * (n - 1), v)
  }

  /** A raw packet: n times three bytes of the file, placed four bytes apart. */
  function PutRaw(b: seq<Byte>, at: nat, data: seq<Byte>, s: nat, n: nat): (r: seq<Byte>)
    requires at + 4 * n <= |b| && s + 3 * n <= |data|
    ensures |r| == |b|
  {
    if n == 0 then b
    else Put(PutRaw(b, at, data, s, n - 1), at + 4 * (n - 1), SwapPixel(data[s + 3 * (n - 1)..s + 3 * n]))
  }

  /** The bytes after the packet at position s, where the next one starts, and how many pixels it had. */
  function PutPacket(b: seq<Byte>, at: nat, room: nat, data: seq<Byte>, s: nat): (r: Decoded<(seq<Byte>, nat, nat)>)
    requires at + 4 * room <= |b|
    ensures r.Ok? ==> |r.value.0| == |b| && 0 < r.value.2 <= room
  {
    if s >= |data| then Failure(PastEnd)
    else
      var n: nat := data[s] % 128 + 1;
      if n > room then Failure(PacketWraps)
      else if data[s] >= 128 then
        if s + 5 > |data| then Failure(PastEnd) else Ok((PutRun(b, at, SwapPixel(data[s + 1..s + 4]), n), s + 5, n))
      else if s + 1 + 3 * n > |data| then Failure(PastEnd)
      else Ok((PutRaw(b, at, data, s + 1, n), s + 1 + 3 * n, n))
  }

  /** Pixels x to w of a row whose first is placed at an offset. */
  function PutRow(b: seq<Byte>, at: nat, x: nat, w: nat, data: seq<Byte>, s: nat): (r: Decoded<(seq<Byte>, nat)>)
    requires x <= w && at + 4 * w <= |b|
    ensures r.Ok? ==> |r.value.0| == |b|
    decreases w - x
  {
    if x == w then Ok((b, s))
    else
      match PutPacket(b, at + 3 * x, w - x, data, s)
      case Failure(e) => Failure(e)
      case Ok((b', next, n)) => PutRow(b', at, x + n, w, data, next)
  }

  /** Where the row in front of which there are y rows is placed; it leaves room for four bytes a pixel. */
  function RowStart(y: nat, w: nat): (at: nat)
  {
    y * w * 3
  }

  /** The size of an image of h rows of w pixels. */
  function Size(h: nat, w: nat): nat {
    h * (w * 4)
  }

  lemma RowHasRoom(y: nat, w: nat, h: nat)
    requires y < h
    ensures RowStart(y, w) + 4 * w <= Size(h, w) && Size(y, w) + 4 * w <= Size(h, w)
  {
    var n, k := w * 4, h - y - 1;
    AddRows(y, k, n);
    ThreeOfFour(y, w);
  }

  lemma AddRows(y: nat, k: nat, n: nat)
    ensures (y + 1 + k) * n == y * n + n + k * n && k * n >= 0
  {
  }

  lemma ThreeOfFour(y: nat, w: nat)
    ensures 0 <= y * w * 3 <= y * (w * 4)
  {
    assert y * (w * 4) == y * w * 4 && y * w >= 0;
  }

  /** The first h rows, the last of them first. */
  function PutRows(b: seq<Byte>, h: nat, w: nat, data: seq<Byte>, s: nat): (r: Decoded<(seq<Byte>, nat)>)
    requires Size(h, w) <= |b|
    ensures r.Ok? ==> |r.value.0| == |b|
    decreases h
  {
    if h == 0 then Ok((b, s))
    else
      RowHasRoom(h - 1, w, h);
      match PutRow(b, RowStart(h - 1, w), 0, w, data, s)
      case Failure(e) => Failure(e)
      case Ok((b', next)) => PutRows(b', h - 1, w, data, next)
  }

  // ---------- what is never written ----------

  /** Nothing from a position on has changed. */
  ghost predicate SameFrom(b: seq<Byte>, b': seq<Byte>, p: nat) {
    |b| == |b'| && p <= |b| && b[p..] == b'[p..]
  }

  lemma PutBefore(b: seq<Byte>, at: nat, v: seq<Byte>, p: nat)
    requires at + |v| <= p <= |b|
    ensures SameFrom(b, Put(b, at, v), p)
  {
    assert forall i :: p <= i < |b| ==> Put(b, at, v)[i] == b[i];
  }

  lemma {:induction false} RunBefore(b: seq<Byte>, at: nat, v: seq<Byte>, n: nat, p: nat)
    requires |v| == 3 && at + 3 * n <= p <= |b|
    ensures SameFrom(b, PutRun(b, at, v, n), p)
  {
    hide Put;
    if n > 0 {
      RunBefore(b, at, v, n - 1, p);
      PutBefore(PutRun(b, at, v, n - 1), at + 3 * (n - 1), v, p);
    }
  }

  lemma {:induction false} RawBefore(b: seq<Byte>, at: nat, data: seq<Byte>, s: nat, n: nat, p: nat)
    requires at + 4 * n <= |b| && s + 3 * n <= |data| && p <= |b| && (n > 0 ==> at + 4 * n <= p + 1)
    ensures SameFrom(b, PutRaw(b, at, data, s, n), p)
  {
    hide Put;
    hide SwapPixel;
    if n > 0 {
      RawBefore(b, at, data, s, n - 1, p);
      PutBefore(PutRaw(b, at, data, s, n - 1), at + 4 * (n - 1), SwapPixel(data[s + 3 * (n - 1)..s + 3 * n]), p);
    }
  }

  lemma PacketBefore(b: seq<Byte>, at: nat, room: nat, data: seq<Byte>, s: nat, p: nat)
    requires at + 4 * room <= |b| && at + 4 * room <= p + 1 && p <= |b| && PutPacket(b, at, room, data, s).Ok?
    ensures SameFrom(b, PutPacket(b, at, room, data, s).value.0, p)
  {
    var n: nat := data[s] % 128 + 1;
    if data[s] >= 128 {
      RunBefore(b, at, SwapPixel(data[s + 1..s + 4]), n, p);
    } else {
      RawBefore(b, at, data, s + 1, n, p);
    }
  }

  lemma {:induction false} RowBefore(b: seq<Byte>, at: nat, x: nat, w: nat, data: seq<Byte>, s: nat, p: nat)
    requires x <= w && at + 4 * w <= |b| && at + 4 * w <= p + 1 && p <= |b| && PutRow(b, at, x, w, data, s).Ok?
    ensures SameFrom(b, PutRow(b, at, x, w, data, s).value.0, p)
    decreases w - x
  {
    hide PutPacket;
    if x < w {
      PacketBefore(b, at + 3 * x, w - x, data, s, p);
      var (b', next, n) := PutPacket(b, at + 3 * x, w - x, data, s).value;
      RowBefore(b', at, x + n, w, data, next, p);
    }
  }

  lemma {:induction false} RowsBefore(b: seq<Byte>, h: nat, w: nat, data: seq<Byte>, s: nat, p: nat)
    requires Size(h, w) <= |b| && Size(h, w) <= p + 1 && p <= |b| && PutRows(b, h, w, data, s).Ok?
    ensures SameFrom(b, PutRows(b, h, w, data, s).value.0, p)
    decreases h
  {
    hide PutRow;
    hide RowStart;
    if h > 0 {
      RowHasRoom(h - 1, w, h);
      RowBefore(b, RowStart(h - 1, w), 0, w, data, s, p);
      var (b', next) := PutRow(b, RowStart(h - 1, w), 0, w, data, s).value;
      RowsBefore(b', h - 1, w, data, next, p);
    }
  }

  /** However a 32-bit run-length file goes on, the alpha byte of the last pixel keeps what the memory held before. */
  lemma LastByteIsKept(b: seq<Byte>, h: nat, w: nat, data: seq<Byte>, s: nat)
    requires |b| == Size(h, w) && |b| > 0 && PutRows(b, h, w, data, s).Ok?
    ensures PutRows(b, h, w, data, s).value.0[|b| - 1] == b[|b| - 1]
  {
    RowsBefore(b, h, w, data, s, |b| - 1);
    var b' := PutRows(b, h, w, data, s).value.0;
    assert b[|b| - 1..][0] == b'[|b| - 1..][0];
  }

  // ---------- which files are accepted does not depend on the memory ----------

  lemma PacketAccepted(b: seq<Byte>, c: seq<Byte>, at: nat, room: nat, data: seq<Byte>, s: nat)
    requires at + 4 * room <= |b| && |b| == |c|
    ensures var r, q := PutPacket(b, at, room, data, s), PutPacket(c, at, room, data, s);
      (r.Ok? <==> q.Ok?) && (r.Ok? ==> r.value.1 == q.value.1 && r.value.2 == q.value.2)
  {
    hide PutRun;
    hide PutRaw;
    hide SwapPixel;
  }

  lemma RowStep32(b: seq<Byte>, at: nat, x: nat, w: nat, data: seq<Byte>, s: nat)
    requires x <= w && at + 4 * w <= |b|
    ensures x == w ==> PutRow(b, at, x, w, data, s) == Ok((b, s))
    ensures x < w ==>
              var r := PutPacket(b, at + 3 * x, w - x, data, s);
              if r.Failure? then PutRow(b, at, x, w, data, s).Failure?
              else PutRow(b, at, x, w, data, s) == PutRow(r.value.0, at, x + r.value.2, w, data, r.value.1)
  {
    hide PutPacket;
  }

  lemma {:induction false} RowAccepted(b: seq<Byte>, c: seq<Byte>, at: nat, x: nat, w: nat, data: seq<Byte>, s: nat)
    requires x <= w && at + 4 * w <= |b| && |b| == |c|
    ensures PutRow(b, at, x, w, data, s).Ok? <==> PutRow(c, at, x, w, data, s).Ok?
    ensures PutRow(b, at, x, w, data, s).Ok? ==>
              PutRow(b, at, x, w, data, s).value.1 == PutRow(c, at, x, w, data, s).value.1
    decreases w - x
  {
    hide PutRow;
    hide PutPacket;
    RowStep32(b, at, x, w, data, s);
    RowStep32(c, at, x, w, data, s);
    if x < w {
      PacketAccepted(b, c, at + 3 * x, w - x, data, s);
      var r, q := PutPacket(b, at + 3 * x, w - x, data, s), PutPacket(c, at + 3 * x, w - x, data, s);
      if r.Ok? {
        RowAccepted(r.value.0, q.value.0, at, x + r.value.2, w, data, r.value.1);
      }
    }
  }

  lemma {:induction false} RowsAccepted(b: seq<Byte>, c: seq<Byte>, h: nat, w: nat, data: seq<Byte>, s: nat)
    requires Size(h, w) <= |b| && |b| == |c|
    ensures PutRows(b, h, w, data, s).Ok? <==> PutRows(c, h, w, data, s).Ok?
    decreases h
  {
    hide PutRow;
    if h > 0 {
      RowHasRoom(h - 1, w, h);
      RowAccepted(b, c, RowStart(h - 1, w), 0, w, data, s);
      var r, q := PutRow(b, RowStart(h - 1, w), 0, w, data, s), PutRow(c, RowStart(h - 1, w), 0, w, data, s);
      if r.Ok? {
        RowsAccepted(r.value.0, q.value.0, h - 1, w, data, r.value.1);
      }
    }
  }

  ghost predicate SameImage(b: seq<Byte>, c: seq<Byte>, h: nat, w: nat, data: seq<Byte>, s: nat)
    requires |b| == |c| == Size(h, w)
  {
    PutRows(b, h, w, data, s).Ok? && PutRows(c, h, w, data, s).Ok?
    ==> PutRows(b, h, w, data, s).value.0 == PutRows(c, h, w, data, s).value.0
  }

  lemma OtherMemory(h: nat, w: nat, data: seq<Byte>, s: nat, memory: seq<Byte>) returns (other: seq<Byte>)
    requires |memory| == Size(h, w) > 0 && PutRows(memory, h, w, data, s).Ok?
    ensures |other| == |memory| && !SameImage(memory, other, h, w, data, s)
  {
    var n := |memory|;
    var last: int := memory[n - 1];
    other := memory[n - 1 := (last + 1) % 256];
    RowsAccepted(memory, other, h, w, data, s);
    LastByteIsKept(memory, h, w, data, s);
    LastByteIsKept(other, h, w, data, s);
    hide PutRows;
  }

  lemma SameMemory(h: nat, w: nat, data: seq<Byte>, s: nat, b: seq<Byte>, c: seq<Byte>)
    requires |b| == |c| == Size(h, w) == 0
    ensures SameImage(b, c, h, w, data, s)
  {
    hide PutRows;
    assert b == c == [];
  }

  /** Whatever the memory held before. */
  ghost predicate Determined(h: nat, w: nat, data: seq<Byte>, s: nat) {
    forall b, c | |b| == |c| == Size(h, w) :: SameImage(b, c, h, w, data, s)
  }

  /** The pixel data of a 32-bit run-length file that is accepted determines the image if and only if there is no
      pixel. */
  lemma DeterminedExactly(h: nat, w: nat, data: seq<Byte>, s: nat, memory: seq<Byte>)
    requires |memory| == Size(h, w) && PutRows(memory, h, w, data, s).Ok?
    ensures Determined(h, w, data, s) <==> h == 0 || w == 0
  {
    hide PutRows;
    hide SameImage;
    if h == 0 || w == 0 {
      assert Size(h, w) == 0;
      forall b, c | |b| == |c| == Size(h, w)
        ensures SameImage(b, c, h, w, data, s)
      {
        SameMemory(h, w, data, s, b, c);
      }
    } else {
      Positive(h, w * 4);
      var other := OtherMemory(h, w, data, s, memory);
    }
  }

  /** A 32-bit run-length file of one pixel in a raw packet: three of its bytes are read, and the fourth is open. */
  function OnePixelFile(blue: Byte, green: Byte, red: Byte): seq<Byte> {
    [0, 0, 10, 0, 0, 0, 0, 0, 0, 0, 0, 0] + Word16Bytes(1) + Word16Bytes(1) + [32, 8] + [0, blue, green, red] + TAG
      + [0]
  }

  lemma OnePixelOpens(blue: Byte, green: Byte, red: Byte)
    ensures var file := OnePixelFile(blue, green, red);
      && Open(file, 0) == Ok(Opening(10, 1, 1, 4, 18)) && |file| > 22 && file[18] == 0
      && file[19..22] == [blue, green, red]
  {
    var file := OnePixelFile(blue, green, red);
    assert file[|file| - 18..|file| - 2] == TAG[..16];
    TagIsString();
    hide CString;
    assert file[12] == 1 && file[13] == 0 && file[14] == 1 && file[15] == 0 && Word16(1, 0) == 1;
  }

  lemma OnePixelIsPut(data: seq<Byte>, s: nat, memory: seq<Byte>)
    requires s + 4 <= |data| && data[s] == 0 && |memory| == 4
    ensures var r := PutPacket(memory, 0, 1, data, s);
      r.Ok? && r.value.0 == [data[s + 3], data[s + 2], data[s + 1], memory[3]] && r.value.1 == s + 4 && r.value.2 == 1
  {
    var pixel := data[s + 1..s + 4];
    var swapped := SwapPixel(pixel);
    assert swapped == [data[s + 3], data[s + 2], data[s + 1]];
    hide SwapPixel;
    assert PutRaw(memory, 0, data, s + 1, 0) == memory;
    assert memory[..0] == [] && memory[3..] == [memory[3]];
    assert Put(memory, 0, swapped) == swapped + [memory[3]];
  }

  /** The fourth byte is the one the memory held. */
  lemma OnePixelIsAccepted(blue: Byte, green: Byte, red: Byte, memory: seq<Byte>)
    requires |memory| == Size(1, 1)
    ensures var file := OnePixelFile(blue, green, red);
      && Open(file, 0) == Ok(Opening(10, 1, 1, 4, 18)) && Misplaced(Open(file, 0).value)
      && PutRows(memory, 1, 1, file, 18).Ok? && PutRows(memory, 1, 1, file, 18).value.0 == [red, green, blue, memory[3]]
      && !Determined(1, 1, file, 18)
  {
    var file := OnePixelFile(blue, green, red);
    OnePixelOpens(blue, green, red);
    assert file[19..22][0] == file[19] && file[19..22][1] == file[20] && file[19..22][2] == file[21];
    OnePixelIsPut(file, 18, memory);
    hide OnePixelFile;
    hide Open;
    hide PutPacket;
    hide Determined;
    var after := [red, green, blue, memory[3]];
    assert PutPacket(memory, 0, 1, file, 18).value.0 == after;
    assert PutRow(after, 0, 1, 1, file, 22).value.0 == after;
    assert PutRow(memory, RowStart(0, 1), 0, 1, file, 18).value.0 == after;
    assert PutRows(after, 0, 1, file, 22).value.0 == after;
    DeterminedExactly(1, 1, file, 18, memory);
  }

  lemma Positive(a: nat, b: nat)
    requires a > 0 && b > 0
    ensures a * b > 0
  {
  }
}
