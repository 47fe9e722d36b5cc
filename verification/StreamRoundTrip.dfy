/** Whatever sequence of items is written to a stream is read back from it. */
module StreamRoundTrip {
  import opened Integers
  import opened BitStrings
  import opened ByteStreams
  import Out = BinaryOutputs
  import In = BinaryInputs

  datatype Field = Field(value: nat, width: nat)

  /** One call of a writer, or one run of writeBits between beginBits and endBits. */
  datatype Item =
    | Word(u: nat)
    | Text(s: seq<Byte>)
    | EvenText(s: seq<Byte>)
    | LongText(s: seq<Byte>)
    | Fields(fields: seq<Field>)

  predicate Proper(item: Item) {
    match item
    case Word(u) => u < 0x1_0000_0000
    case Text(_) => true
    case EvenText(_) => true
    case LongText(s) => |s| + 1 < 0x1_0000_0000
    case Fields(fields) => forall i :: 0 <= i < |fields| ==> fields[i].width <= 32
  }

  /** What comes back: strings up to their first null, field values modulo 2 to the width. */
  function Received(item: Item): Item {
    match item
    case Word(u) => item
    case Text(s) => Text(CString(s))
    case EvenText(s) => EvenText(CString(s))
    case LongText(s) => LongText(CString(s))
    case Fields(fields) => Fields(seq(|fields|, i requires 0 <= i < |fields| => ReceivedField(fields[i])))
  }

  function ReceivedField(f: Field): Field {
    Field(f.value % Pow2(f.width), f.width)
  }

  function FieldBits(fields: seq<Field>): seq<bool> {
    if fields == [] then []
    else
      var n := |fields| - 1;
      FieldBits(fields[..n]) + Bits(fields[n].value, fields[n].width)
  }

  /** The bytes that stand for an item. */
  ghost predicate Encodes(item: Item, bytes: seq<Byte>, swapBytes: bool)
    requires Proper(item)
  {
    match item
    case Word(u) => bytes == WordBytes(u, swapBytes)
    case Text(s) => bytes == CString(s) + [0]
    case EvenText(s) => bytes == EvenBytes(s)
    case LongText(s) => |CString(s)| + 1 < 0x1_0000_0000 && bytes == String32Bytes(s, swapBytes)
    case Fields(fields) => Out.PackedUp(FieldBits(fields), bytes)
  }

  function Size(item: Item): nat {
    match item
    case Word(_) => 4
    case Text(s) => |CString(s)| + 1
    case EvenText(s) => |CString(s)| + 1 + (|CString(s)| + 1) % 2
    case LongText(s) => 4 + (|CString(s)| + 1)
    case Fields(fields) => (|FieldBits(fields)| + 7) / 8
  }

  lemma EncodedSize(item: Item, bytes: seq<Byte>, swapBytes: bool)
    requires Proper(item) && Encodes(item, bytes, swapBytes)
    ensures |bytes| == Size(item)
  {
    if item.Fields? {
      PackedLength(FieldBits(item.fields), bytes);
    }
  }

  /** The most bytes of an item that are written, or read, at once. */
  function Request(item: Item): nat {
    match item
    case Word(_) => 4
    case Text(s) => |CString(s)| + 1
    case EvenText(s) => |CString(s)| + 1
    case LongText(s) => Max(4, |CString(s)| + 1)
    case Fields(_) => 1
  }

  function LargestRequest(items: seq<Item>): nat {
    if items == [] then 0 else Max(Request(items[0]), LargestRequest(items[1..]))
  }

  lemma {:induction false} LargestRequestIs(items: seq<Item>, i: nat)
    requires i < |items|
    ensures Request(items[i]) <= LargestRequest(items)
  {
    if i > 0 {
      LargestRequestIs(items[1..], i - 1);
    }
  }

  // ---------- writing ----------

  /** Writing at the end of the stream, between items. */
  ghost predicate Appending(out: Out.BinaryOutput)
    reads out
  {
    out.Valid() && out.pos == out.bufferLen && out.beginEndBits == 0
  }

  lemma Appended(out: Out.BinaryOutput, c0: seq<Byte>, bytes: seq<Byte>)
    requires out.Valid() && Overwritten(c0, |c0|, bytes, out.Contents()) && out.Position() == |c0| + |bytes|
    ensures out.Contents() == c0 + bytes && out.pos == out.bufferLen
  {
    OverwrittenAtEnd(c0, bytes, out.Contents());
  }

  method WriteItem(out: Out.BinaryOutput, item: Item, swapBytes: bool)
    returns (outcome: Out.Outcome, ghost bytes: seq<Byte>)
    requires Appending(out) && Proper(item)
    modifies out, out.buffer
    ensures outcome == Out.Done ==>
              Appending(out) && Encodes(item, bytes, swapBytes) && out.Contents() == old(out.Contents()) + bytes
    ensures out.Answered(outcome, true, Request(item))
    ensures out.buffer == old(out.buffer) || fresh(out.buffer)
  {
    ghost var c0 := out.Contents();
    bytes := [];
    match item {
      case Word(u) =>
        outcome := out.WriteUInt32(u, swapBytes);
        bytes := WordBytes(u, swapBytes);
      case Text(s) =>
        outcome := out.WriteString(s);
        bytes := CString(s) + [0];
      case EvenText(s) =>
        outcome := out.WriteStringEven(s);
        bytes := EvenBytes(s);
      case LongText(s) =>
        outcome := out.WriteString32(s, swapBytes);
        bytes := String32Bytes(s, swapBytes);
      case Fields(fields) =>
        outcome, bytes := WriteFields(out, fields);
        return;
    }
    if outcome == Out.Done {
      Appended(out, c0, bytes);
    }
  }

  lemma FieldBitsAppend(fields: seq<Field>, i: nat)
    requires i < |fields|
    ensures FieldBits(fields[..i + 1]) == FieldBits(fields[..i]) + Bits(fields[i].value, fields[i].width)
  {
    assert fields[..i + 1][..i] == fields[..i];
    hide Bits;
  }

  method WriteFields(out: Out.BinaryOutput, fields: seq<Field>) returns (outcome: Out.Outcome, ghost bytes: seq<Byte>)
    requires Appending(out)
    modifies out, out.buffer
    ensures outcome == Out.Done ==>
              Appending(out) && Out.PackedUp(FieldBits(fields), bytes) && out.Contents() == old(out.Contents()) + bytes
    ensures out.Answered(outcome, true, 1)
    ensures out.buffer == old(out.buffer) || fresh(out.buffer)
  {
    ghost var c0, start := out.Contents(), out.Position();
    hide Out.Packed;
    hide Overwritten;
    hide BytesBits;
    hide Bits;
    out.BeginBits();
    bytes := [];
    assert FieldBits(fields[..0]) == [] && start == |c0|;
    hide FieldBits;
    hide Out.PackedUp;
    for i := 0 to |fields|
      invariant out.Packing(c0, start, FieldBits(fields[..i]), bytes)
      invariant out.buffer == old(out.buffer) || fresh(out.buffer)
    {
      outcome, bytes := out.WriteBits(fields[i].value, fields[i].width, c0, start, FieldBits(fields[..i]), bytes);
      if outcome != Out.Done {
        return;
      }
      FieldBitsAppend(fields, i);
    }
    assert fields[..|fields|] == fields;
    outcome, bytes := out.EndBits(c0, start, FieldBits(fields), bytes);
    if outcome == Out.Done {
      if bytes == [] {
        assert c0 + bytes == c0;
      } else {
        Appended(out, c0, bytes);
      }
    }
  }

  // ---------- reading ----------

  /** What a reader has to know of an item: which reader to call, and the widths of bit fields. */
  datatype Shape = WordShape | TextShape | EvenTextShape | LongTextShape | FieldsShape(widths: seq<nat>)

  function ShapeOf(item: Item): Shape {
    match item
    case Word(_) => WordShape
    case Text(_) => TextShape
    case EvenText(_) => EvenTextShape
    case LongText(_) => LongTextShape
    case Fields(fields) => FieldsShape(Widths(fields))
  }

  function Widths(fields: seq<Field>): seq<nat> {
    seq(|fields|, i requires 0 <= i < |fields| => fields[i].width)
  }

  /** At position p between items, wherever the window is. */
  ghost predicate Ready(input: In.BinaryInput, p: int)
    reads input, input.buffer
  {
    input.Valid() && input.Position() == p && input.beginEndBits == 0
  }

  ghost predicate BytesAt(file: seq<Byte>, p: int, bytes: seq<Byte>) {
    0 <= p && p + |bytes| <= |file| && file[p..p + |bytes|] == bytes
  }

  lemma PartAt(file: seq<Byte>, p: int, a: seq<Byte>, b: seq<Byte>)
    requires BytesAt(file, p, a + b)
    ensures BytesAt(file, p, a) && BytesAt(file, p + |a|, b)
  {
    var all := file[p..p + |a + b|];
    assert all[..|a|] == a && all[|a|..] == b;
    assert all[..|a|] == file[p..p + |a|] && all[|a|..] == file[p + |a|..p + |a| + |b|];
  }

  lemma TextAt(file: seq<Byte>, p: int, t: seq<Byte>)
    requires BytesAt(file, p, t + [0]) && 0 !in t
    ensures CString(file[p..]) == t && CString(file[p..p + |t| + 1]) == t
  {
    CStringIs(t, file[p + |t| + 1..]);
    CStringIs(t, []);
    assert t + [0] + [] == t + [0];
    assert file[p..] == t + [0] + file[p + |t| + 1..];
  }

  // ---------- where the window is ----------

  /** The window once an item has been read. */
  function After(item: Item, p: int, w: In.Span, length: nat): In.Span {
    match item
    case Word(_) => In.Loaded(w, p, 4)
    case Text(s) => In.PastString(w, p, |CString(s)| + 1, length)
    case EvenText(s) => In.PastEvenString(w, p, |CString(s)| + 1, length)
    case LongText(s) => In.Loaded(In.Loaded(w, p, 4), p + 4, |CString(s)| + 1)
    case Fields(_) => In.LoadedEach(w, p, Max(Size(item), 1))
  }

  /** The window ends before the null of a string of n bytes at position p, and before the last byte of the file. */
  predicate StringOverruns(n: nat, p: int, w: In.Span, length: nat) {
    p < In.Searched(w, p, length).End() <= p + n && In.Searched(w, p, length).End() < length - 1
  }

  /** Reading the item looks for its null past the window. */
  predicate Overruns(item: Item, p: int, w: In.Span, length: nat) {
    (item.Text? || item.EvenText?) && StringOverruns(|CString(item.s)|, p, w, length)
  }

  /** No string of the items from position p on is searched for its null past the window. */
  predicate Passes(items: seq<Item>, p: int, w: In.Span, length: nat) {
    items == [] ||
    (!Overruns(items[0], p, w, length) && Passes(items[1..], p + Size(items[0]), After(items[0], p, w, length), length))
  }

  lemma {:induction false} LoadedEachReaches(w: In.Span, p: int, k: nat)
    requires w.start <= p
    ensures w.End() <= In.LoadedEach(w, p, k).End() && In.LoadedEach(w, p, k).start <= Max(p, p + k - 1)
  {
    if k > 0 {
      LoadedEachReaches(w, p, k - 1);
    }
  }

  lemma AfterReaches(item: Item, p: int, w: In.Span, length: nat)
    requires w.start <= p
    ensures w.End() <= After(item, p, w, length).End() && After(item, p, w, length).start <= p + Size(item)
  {
    LoadedEachReaches(w, p, Max(Size(item), 1));
  }

  /** A window that reaches the end of the file never ends too early. */
  lemma {:induction false} WholePasses(items: seq<Item>, p: int, w: In.Span, length: nat)
    requires w.start <= p && w.End() >= length
    ensures Passes(items, p, w, length)
  {
    if items != [] {
      AfterReaches(items[0], p, w, length);
      hide After;
      hide Size;
      WholePasses(items[1..], p + Size(items[0]), After(items[0], p, w, length), length);
    }
  }

  /** The window before and after a read that started at position p with w. */
  ghost predicate Windowed(input: In.BinaryInput, outcome: In.Outcome, item: Item, p: int, w: In.Span)
    reads input
  {
    && (outcome == In.Done ==> input.Window() == After(item, p, w, |input.file|) && !Overruns(item, p, w, |input.file|))
    && (outcome == In.OutsideBuffer ==> Overruns(item, p, w, |input.file|))
    && (outcome == In.OutOfMemory ==> w.size < Request(item))
  }

  // ---------- reading items ----------

  method ReadWord(input: In.BinaryInput, swapBytes: bool, ghost p: int, ghost u: nat)
    returns (outcome: In.Outcome, read: nat)
    requires Ready(input, p) && u < 0x1_0000_0000 && BytesAt(input.file, p, WordBytes(u, swapBytes))
    modifies input, input.buffer
    ensures outcome == In.Done ==> Ready(input, p + 4) && read == u
    ensures Windowed(input, outcome, Word(u), p, old(input.Window())) && outcome != In.OutsideBuffer
    ensures input.buffer == old(input.buffer) || fresh(input.buffer)
  {
    WordRoundTrip(u, swapBytes);
    hide WordOf;
    hide WordBytes;
    outcome, read := input.ReadUInt32(swapBytes);
  }

  /** The search for the null of a string fails exactly where the window ends before it. */
  lemma RunsOutExactly(input: In.BinaryInput, p: int, t: seq<Byte>)
    requires Ready(input, p) && 0 !in t && BytesAt(input.file, p, t + [0])
    ensures input.RunsOut() <==> StringOverruns(|t|, p, input.Window(), |input.file|)
  {
    var file, end := input.file, In.Searched(input.Window(), p, |input.file|).End();
    assert |t + [0]| == |t| + 1 && file[p..p + |t| + 1][|t|] == (t + [0])[|t|];
    if p < end < |file| - 1 {
      if end <= p + |t| {
        assert file[p..end] == t[..end - p] by {
          assert file[p..end] == file[p..p + |t| + 1][..end - p];
        }
      } else {
        assert file[p..end][|t|] == 0;
      }
    }
  }

  /** The string at position p is what is up to the next null, and the search for that fails as said above. */
  lemma TextFound(input: In.BinaryInput, p: int, s: seq<Byte>)
    requires Ready(input, p) && BytesAt(input.file, p, CString(s) + [0])
    ensures p + |CString(s)| + 1 <= |input.file| && CString(input.file[p..]) == CString(s)
    ensures input.RunsOut() <==> StringOverruns(|CString(s)|, p, input.Window(), |input.file|)
  {
    TextAt(input.file, p, CString(s));
    RunsOutExactly(input, p, CString(s));
  }

  lemma TextWindow(input: In.BinaryInput, outcome: In.Outcome, s: seq<Byte>, p: int, w: In.Span)
    requires p + |CString(s)| + 1 <= |input.file| && input.ToNull(outcome, w, p, CString(s))
    requires outcome != In.OutOfMemory ==>
               (outcome == In.OutsideBuffer <==> StringOverruns(|CString(s)|, p, w, |input.file|))
    ensures Windowed(input, outcome, Text(s), p, w)
  {
    hide CString;
    hide StringOverruns;
    hide In.PastString;
  }

  method ReadText(input: In.BinaryInput, ghost p: int, ghost s: seq<Byte>)
    returns (outcome: In.Outcome, read: seq<Byte>)
    requires Ready(input, p) && BytesAt(input.file, p, CString(s) + [0])
    modifies input, input.buffer
    ensures outcome == In.Done ==> Ready(input, p + |CString(s)| + 1) && read == CString(s)
    ensures Windowed(input, outcome, Text(s), p, old(input.Window()))
    ensures input.buffer == old(input.buffer) || fresh(input.buffer)
  {
    hide CString;
    hide BytesAt;
    hide Windowed;
    hide StringOverruns;
    hide In.BinaryInput.RunsOut;
    TextFound(input, p, s);
    ghost var w := input.Window();
    outcome, read := input.ReadStringToNull();
    TextWindow(input, outcome, s, p, w);
  }

  lemma EvenWindow(input: In.BinaryInput, outcome: In.Outcome, s: seq<Byte>, p: int, w: In.Span)
    requires p + |CString(s)| + 1 + (|CString(s)| + 1) % 2 <= |input.file|
             && input.ToNullEven(outcome, w, p, CString(s))
    requires outcome != In.OutOfMemory ==>
               (outcome == In.OutsideBuffer <==> StringOverruns(|CString(s)|, p, w, |input.file|))
    ensures Windowed(input, outcome, EvenText(s), p, w)
  {
    hide CString;
    hide StringOverruns;
    hide In.PastEvenString;
  }

  lemma EvenTextParts(file: seq<Byte>, p: int, s: seq<Byte>)
    requires BytesAt(file, p, EvenBytes(s))
    ensures BytesAt(file, p, CString(s) + [0]) && p + |EvenBytes(s)| <= |file|
    ensures |EvenBytes(s)| == |CString(s)| + 1 + (|CString(s)| + 1) % 2
  {
    hide CString;
    PartAt(file, p, CString(s) + [0], if (|CString(s)| + 1) % 2 == 1 then [0] else []);
  }

  method ReadEvenText(input: In.BinaryInput, ghost p: int, ghost s: seq<Byte>)
    returns (outcome: In.Outcome, read: seq<Byte>)
    requires Ready(input, p) && BytesAt(input.file, p, EvenBytes(s))
    modifies input, input.buffer
    ensures outcome == In.Done ==> Ready(input, p + |EvenBytes(s)|) && read == CString(s)
    ensures Windowed(input, outcome, EvenText(s), p, old(input.Window()))
    ensures input.buffer == old(input.buffer) || fresh(input.buffer)
  {
    hide CString;
    hide EvenBytes;
    hide BytesAt;
    hide Windowed;
    hide StringOverruns;
    hide In.BinaryInput.RunsOut;
    EvenTextParts(input.file, p, s);
    TextFound(input, p, s);
    ghost var w := input.Window();
    outcome, read := input.ReadStringEven();
    EvenWindow(input, outcome, s, p, w);
  }

  lemma WordWindow(input: In.BinaryInput, outcome: In.Outcome, s: seq<Byte>, p: int, w: In.Span)
    requires Windowed(input, outcome, Word(|CString(s)| + 1), p, w) && outcome != In.OutsideBuffer
    ensures outcome == In.Done ==> input.Window() == In.Loaded(w, p, 4)
    ensures outcome != In.Done ==> Windowed(input, outcome, LongText(s), p, w)
  {
  }

  lemma StringWindow(input: In.BinaryInput, outcome: In.Outcome, s: seq<Byte>, p: int, w: In.Span)
    requires var n, now := |CString(s)| + 1, In.Loaded(w, p, 4); input.Moved(outcome, now, n, In.Loaded(now, p + 4, n))
    ensures Windowed(input, outcome, LongText(s), p, w) && outcome != In.OutsideBuffer
  {
    hide CString;
  }

  /** Reads a string of n bytes with its null. */
  method ReadCounted(input: In.BinaryInput, n: nat, ghost p: int, ghost s: seq<Byte>)
    returns (outcome: In.Outcome, read: seq<Byte>)
    requires Ready(input, p) && n == |CString(s)| + 1 && BytesAt(input.file, p, CString(s) + [0])
    modifies input, input.buffer
    ensures outcome == In.Done ==> Ready(input, p + n) && read == CString(s)
    ensures input.Moved(outcome, old(input.Window()), n, In.Loaded(old(input.Window()), p, n))
    ensures input.buffer == old(input.buffer) || fresh(input.buffer)
  {
    TextAt(input.file, p, CString(s));
    hide CString;
    hide BytesAt;
    outcome, read := input.ReadString(n);
  }

  lemma FieldsWindow(input: In.BinaryInput, fields: seq<Field>, p: int, w: In.Span)
    requires input.Window() == In.LoadedEach(w, p, Max((|FieldBits(fields)| + 7) / 8, 1))
    ensures Windowed(input, In.Done, Fields(fields), p, w)
  {
    hide FieldBits;
    hide In.LoadedEach;
  }

  lemma LongTextParts(file: seq<Byte>, swapBytes: bool, p: int, s: seq<Byte>)
    requires |CString(s)| + 1 < 0x1_0000_0000 && BytesAt(file, p, String32Bytes(s, swapBytes))
    ensures BytesAt(file, p, WordBytes(|CString(s)| + 1, swapBytes)) && BytesAt(file, p + 4, CString(s) + [0])
    ensures |String32Bytes(s, swapBytes)| == |CString(s)| + 5
  {
    hide CString;
    PartAt(file, p, WordBytes(|CString(s)| + 1, swapBytes), CString(s) + [0]);
  }

  method ReadLongText(input: In.BinaryInput, swapBytes: bool, ghost p: int, ghost s: seq<Byte>)
    returns (outcome: In.Outcome, read: seq<Byte>)
    requires Ready(input, p) && |CString(s)| + 1 < 0x1_0000_0000 && BytesAt(input.file, p, String32Bytes(s, swapBytes))
    modifies input, input.buffer
    ensures outcome == In.Done ==> Ready(input, p + |String32Bytes(s, swapBytes)|) && read == CString(s)
    ensures Windowed(input, outcome, LongText(s), p, old(input.Window())) && outcome != In.OutsideBuffer
    ensures input.buffer == old(input.buffer) || fresh(input.buffer)
  {
    hide *;
    LongTextParts(input.file, swapBytes, p, s);
    ghost var w := input.Window();
    var n;
    outcome, n := ReadWord(input, swapBytes, p, |CString(s)| + 1);
    read := [];
    WordWindow(input, outcome, s, p, w);
    if outcome == In.Done {
      outcome, read := ReadCounted(input, n, p + 4, s);
      StringWindow(input, outcome, s, p, w);
    }
  }

  method ReadItem(input: In.BinaryInput, shape: Shape, swapBytes: bool, ghost p: int, ghost item: Item,
                  ghost bytes: seq<Byte>)
    returns (outcome: In.Outcome, read: Item)
    requires Ready(input, p) && p < |input.file| && BytesAt(input.file, p, bytes)
    requires Proper(item) && shape == ShapeOf(item) && Encodes(item, bytes, swapBytes)
    modifies input, input.buffer
    ensures outcome == In.Done ==> Ready(input, p + |bytes|) && read == Received(item)
    ensures Windowed(input, outcome, item, p, old(input.Window()))
    ensures input.buffer == old(input.buffer) || fresh(input.buffer)
  {
    hide Ready;
    hide BytesAt;
    hide Windowed;
    hide WordBytes;
    hide EvenBytes;
    hide Out.PackedUp;
    hide FieldBits;
    hide ReceivedField;
    match shape {
      case WordShape =>
        var u;
        outcome, u := ReadWord(input, swapBytes, p, item.u);
        read := Word(u);
      case TextShape =>
        var s;
        outcome, s := ReadText(input, p, item.s);
        read := Text(s);
      case EvenTextShape =>
        var s;
        outcome, s := ReadEvenText(input, p, item.s);
        read := EvenText(s);
      case LongTextShape =>
        var s;
        outcome, s := ReadLongText(input, swapBytes, p, item.s);
        read := LongText(s);
      case FieldsShape(widths) =>
        var fields;
        outcome, fields := ReadFields(input, widths, p, item.fields, bytes);
        read := Fields(fields);
    }
  }

  lemma {:induction false} FieldBitsPrefix(fields: seq<Field>, i: nat)
    requires i < |fields|
    ensures var c, w := |FieldBits(fields[..i])|, fields[i].width;
      c + w <= |FieldBits(fields)| && FieldBits(fields)[c..c + w] == Bits(fields[i].value, w)
      && |FieldBits(fields[..i + 1])| == c + w
    decreases |fields|
  {
    assert fields[..i + 1][..i] == fields[..i];
    if i < |fields| - 1 {
      var most := fields[..|fields| - 1];
      FieldBitsPrefix(most, i);
      assert most[..i] == fields[..i] && most[..i + 1] == fields[..i + 1];
    } else {
      assert fields[..i + 1] == fields;
    }
  }

  /** Field i as the reader finds it. */
  lemma FieldAt(file: seq<Byte>, p: int, bytes: seq<Byte>, fields: seq<Field>, i: nat)
    requires 0 <= p <= |file| && BytesAt(file, p, bytes) && Out.PackedUp(FieldBits(fields), bytes) && i < |fields|
    ensures var c, w := |FieldBits(fields[..i])|, fields[i].width;
      && c + w <= 8 * (|file| - p) && |FieldBits(fields[..i + 1])| == c + w
      && Value(BytesBits(file[p..])[c..c + w]) == fields[i].value % Pow2(w)
  {
    hide *;
    var bits, all := FieldBits(fields), BytesBits(file[p..]);
    FieldBitsPrefix(fields, i);
    BitsOfPart(file, p, bytes);
    PackedPrefix(bits, bytes);
    BitsAt(all, BytesBits(bytes), bits, |FieldBits(fields[..i])|, fields[i].width, fields[i].value);
  }

  lemma BitsOfPart(file: seq<Byte>, p: int, bytes: seq<Byte>)
    requires BytesAt(file, p, bytes)
    ensures 0 <= p && p + |bytes| <= |file| && BytesBits(file[p..])[..8 * |bytes|] == BytesBits(bytes)
  {
    PrefixBits(file[p..], |bytes|);
    assert file[p..][..|bytes|] == bytes;
  }

  lemma BitsAt(all: seq<bool>, packed: seq<bool>, bits: seq<bool>, c: nat, w: nat, v: nat)
    requires |packed| <= |all| && all[..|packed|] == packed && |bits| <= |packed| && packed[..|bits|] == bits
    requires c + w <= |bits| && bits[c..c + w] == Bits(v, w)
    ensures Value(all[c..c + w]) == v % Pow2(w)
  {
    PrefixSlice(all, packed, c, w);
    PrefixSlice(packed, bits, c, w);
    ValueOfBits(v, w);
  }

  lemma PrefixSlice(s: seq<bool>, t: seq<bool>, c: nat, w: nat)
    requires |t| <= |s| && s[..|t|] == t && c + w <= |t|
    ensures s[c..c + w] == t[c..c + w]
  {
    assert forall k :: 0 <= k < |t| ==> s[..|t|][k] == t[k];
  }

  lemma PackedLength(bits: seq<bool>, bytes: seq<Byte>)
    requires Out.PackedUp(bits, bytes)
    ensures |bytes| == (|bits| + 7) / 8
  {
  }

  lemma PackedPrefix(bits: seq<bool>, bytes: seq<Byte>)
    requires Out.PackedUp(bits, bytes)
    ensures |bits| <= 8 * |bytes| && BytesBits(bytes)[..|bits|] == bits
  {
  }

  method ReadFields(input: In.BinaryInput, widths: seq<nat>, ghost p: int, ghost fields: seq<Field>,
                    ghost bytes: seq<Byte>)
    returns (outcome: In.Outcome, read: seq<Field>)
    requires Ready(input, p) && p < |input.file| && BytesAt(input.file, p, bytes)
    requires widths == Widths(fields) && Out.PackedUp(FieldBits(fields), bytes)
    requires forall i :: 0 <= i < |fields| ==> fields[i].width <= 32
    modifies input, input.buffer
    ensures outcome == In.Done ==> Ready(input, p + |bytes|)
    ensures outcome == In.Done ==> |read| == |fields| && forall i :: 0 <= i < |fields| ==>
              read[i] == ReceivedField(fields[i])
    ensures Windowed(input, outcome, Fields(fields), p, old(input.Window())) && outcome != In.OutsideBuffer
    ensures input.buffer == old(input.buffer) || fresh(input.buffer)
  {
    read := [];
    hide BytesBits;
    hide Value;
    hide Bits;
    hide BytesAt;
    hide Out.PackedUp;
    hide In.Unpacked;
    hide In.LoadedEach;
    hide Size;
    PackedLength(FieldBits(fields), bytes);
    ghost var w := input.Window();
    outcome := input.BeginBits();
    if outcome != In.Done {
      return;
    }
    ghost var count := 0;
    assert FieldBits(fields[..0]) == [];
    hide Windowed;
    hide FieldBits;
    for i := 0 to |widths|
      invariant input.buffer == old(input.buffer) || fresh(input.buffer)
      invariant count == |FieldBits(fields[..i])| && input.Unpacking(p, count, w)
      invariant |read| == i && forall j :: 0 <= j < i ==> read[j] == ReceivedField(fields[j])
    {
      FieldAt(input.file, p, bytes, fields, i);
      var value := input.ReadBits(widths[i], p, count, w);
      assert Field(value, widths[i]) == ReceivedField(fields[i]);
      read := read + [Field(value, widths[i])];
      count := count + widths[i];
    }
    assert fields[..|fields|] == fields;
    input.EndBits(p, count, w);
    FieldsWindow(input, fields, p, w);
  }

  // ---------- whole streams ----------

  /** The bytes of all items, one after the other. */
  function Joined(parts: seq<seq<Byte>>): seq<Byte> {
    if parts == [] then [] else parts[0] + Joined(parts[1..])
  }

  lemma {:induction false} JoinedAppend(parts: seq<seq<Byte>>, part: seq<Byte>)
    ensures Joined(parts + [part]) == Joined(parts) + part
  {
    if parts == [] {
      assert [part][1..] == [];
      assert part + [] == part == [] + part;
    } else {
      JoinedAppend(parts[1..], part);
      assert (parts + [part])[1..] == parts[1..] + [part];
      assert parts[0] + (Joined(parts[1..]) + part) == parts[0] + Joined(parts[1..]) + part;
    }
  }

  ghost predicate AllEncode(items: seq<Item>, parts: seq<seq<Byte>>, swapBytes: bool) {
    |parts| == |items| && forall i :: 0 <= i < |items| ==> Proper(items[i]) && Encodes(items[i], parts[i], swapBytes)
  }

  /** Whether an item puts any byte on the stream: only a run of bit fields of total width zero does not. */
  predicate Empty(item: Item) {
    item.Fields? && FieldBits(item.fields) == []
  }

  /** Reading bits needs a following byte even if no bit is read: the last item may not be an empty run. */
  predicate Readable(items: seq<Item>) {
    items == [] || !Empty(items[|items| - 1])
  }

  lemma NonEmptyPart(item: Item, bytes: seq<Byte>, swapBytes: bool)
    requires Proper(item) && Encodes(item, bytes, swapBytes)
    ensures bytes == [] <==> Empty(item)
  {
    if item.Fields? {
      PackedLength(FieldBits(item.fields), bytes);
    }
  }

  lemma {:induction false} JoinedEnd(parts: seq<seq<Byte>>)
    requires parts != [] && parts[|parts| - 1] != []
    ensures Joined(parts) != []
  {
    if |parts| > 1 {
      JoinedEnd(parts[1..]);
    }
  }

  /** The stream holds the contents c0 it had at first, then the parts. */
  ghost predicate Written(out: Out.BinaryOutput, c0: seq<Byte>, parts: seq<seq<Byte>>)
    reads out, out.buffer
  {
    Appending(out) && out.Contents() == c0 + Joined(parts)
  }

  lemma AllEncodeAppend(items: seq<Item>, i: nat, parts: seq<seq<Byte>>, bytes: seq<Byte>, swapBytes: bool)
    requires i < |items| && AllEncode(items[..i], parts, swapBytes)
    requires Proper(items[i]) && Encodes(items[i], bytes, swapBytes)
    ensures AllEncode(items[..i + 1], parts + [bytes], swapBytes)
  {
    hide Encodes;
    hide Proper;
  }

  method WriteNext(out: Out.BinaryOutput, item: Item, swapBytes: bool, ghost c0: seq<Byte>, ghost parts: seq<seq<Byte>>)
    returns (outcome: Out.Outcome, ghost bytes: seq<Byte>)
    requires Written(out, c0, parts) && Proper(item)
    modifies out, out.buffer
    ensures outcome == Out.Done ==> Written(out, c0, parts + [bytes]) && Encodes(item, bytes, swapBytes)
    ensures out.Answered(outcome, true, Request(item))
    ensures out.buffer == old(out.buffer) || fresh(out.buffer)
  {
    hide Encodes;
    hide Joined;
    outcome, bytes := WriteItem(out, item, swapBytes);
    JoinedAppend(parts, bytes);
    assert c0 + Joined(parts) + bytes == c0 + (Joined(parts) + bytes);
  }

  lemma MoreAnswered(out: Out.BinaryOutput, outcome: Out.Outcome, request: int, largest: int)
    requires out.Answered(outcome, true, request) && request <= largest
    ensures out.Answered(outcome, true, largest)
  {
  }

  method WriteItems(out: Out.BinaryOutput, items: seq<Item>, swapBytes: bool, ghost c0: seq<Byte>)
    returns (outcome: Out.Outcome, ghost parts: seq<seq<Byte>>)
    requires Written(out, c0, []) && forall i :: 0 <= i < |items| ==> Proper(items[i])
    modifies out, out.buffer
    ensures outcome == Out.Done ==> Written(out, c0, parts) && AllEncode(items, parts, swapBytes)
    ensures out.Answered(outcome, true, LargestRequest(items))
    ensures out.buffer == old(out.buffer) || fresh(out.buffer)
  {
    outcome, parts := Out.Done, [];
    assert AllEncode(items[..0], parts, swapBytes);
    hide *;
    out.DoneIsAnswered(true, LargestRequest(items));
    for i := 0 to |items|
      invariant outcome == Out.Done && Written(out, c0, parts) && AllEncode(items[..i], parts, swapBytes)
      invariant out.buffer == old(out.buffer) || fresh(out.buffer)
    {
      ghost var bytes;
      outcome, bytes := WriteNext(out, items[i], swapBytes, c0, parts);
      if outcome != Out.Done {
        LargestRequestIs(items, i);
        MoreAnswered(out, outcome, Request(items[i]), LargestRequest(items));
        return;
      }
      AllEncodeAppend(items, i, parts, bytes, swapBytes);
      parts := parts + [bytes];
    }
    assert items[..|items|] == items;
  }

  // ---------- reading it back ----------

  /** The parts from number i on lie in the file from position p on, up to its end. */
  ghost predicate RestAt(file: seq<Byte>, p: int, parts: seq<seq<Byte>>, i: nat)
  {
    i <= |parts| && 0 <= p <= |file| && file[p..] == Joined(parts[i..])
  }

  lemma NextPart(file: seq<Byte>, p: int, parts: seq<seq<Byte>>, i: nat)
    requires RestAt(file, p, parts, i) && i < |parts|
    ensures BytesAt(file, p, parts[i]) && RestAt(file, p + |parts[i]|, parts, i + 1)
  {
    var rest := parts[i..];
    assert rest[0] == parts[i] && rest[1..] == parts[i + 1..];
    assert Joined(rest) == parts[i] + Joined(parts[i + 1..]);
    assert file[p..][..|parts[i]|] == parts[i];
    assert file[p..][|parts[i]|..] == Joined(parts[i + 1..]);
    assert file[p..][|parts[i]|..] == file[p + |parts[i]|..];
    assert file[p..][..|parts[i]|] == file[p..p + |parts[i]|];
  }

  lemma MoreToRead(file: seq<Byte>, p: int, items: seq<Item>, parts: seq<seq<Byte>>, i: nat, swapBytes: bool)
    requires RestAt(file, p, parts, i) && i < |items| && AllEncode(items, parts, swapBytes) && Readable(items)
    ensures p < |file|
  {
    hide Encodes;
    hide Proper;
    hide Joined;
    hide FieldBits;
    var last, rest := |items| - 1, parts[i..];
    NonEmptyPart(items[last], parts[last], swapBytes);
    assert |rest| == |parts| - i && rest[|rest| - 1] == parts[last];
    JoinedEnd(rest);
  }

  method ReadItems(input: In.BinaryInput, shapes: seq<Shape>, swapBytes: bool, ghost items: seq<Item>,
                   ghost parts: seq<seq<Byte>>)
    returns (outcome: In.Outcome, read: seq<Item>)
    requires Ready(input, 0) && RestAt(input.file, 0, parts, 0) && Readable(items) && AllEncode(items, parts, swapBytes)
    requires |shapes| == |items| && forall i :: 0 <= i < |items| ==> shapes[i] == ShapeOf(items[i])
    modifies input, input.buffer
    ensures outcome == In.Done ==> ReadBack(items, read) && Ready(input, |input.file|)
    ensures Answered(outcome, items, old(input.Window()), |input.file|)
  {
    hide *;
    outcome, read := In.Done, [];
    ghost var p, w := 0, input.Window();
    NothingRead(input, items, parts, swapBytes);
    for i := 0 to |shapes|
      invariant input.buffer == old(input.buffer) || fresh(input.buffer)
      invariant outcome == In.Done && OnTheWay(input, items, parts, i, read, p, w)
    {
      var item;
      outcome, item := ReadNext(input, shapes[i], swapBytes, items, parts, i, read, p, w);
      if outcome != In.Done {
        return;
      }
      read := read + [item];
      p := p + |parts[i]|;
    }
    AllRead(input, items, parts, read, p, w);
  }

  /** The first i items have been read, up to position p, and the window has moved from w to where it is. */
  ghost predicate OnTheWay(input: In.BinaryInput, items: seq<Item>, parts: seq<seq<Byte>>, i: nat, read: seq<Item>,
                           p: int, w: In.Span)
    reads input, input.buffer
  {
    && Ready(input, p) && RestAt(input.file, p, parts, i) && ReadSoFar(items, i, read)
    && Passing(items, i, p, input.Window(), w, |input.file|)
  }

  method ReadNext(input: In.BinaryInput, shape: Shape, swapBytes: bool, ghost items: seq<Item>,
                  ghost parts: seq<seq<Byte>>,
                  ghost i: nat, ghost read: seq<Item>, ghost p: int, ghost w: In.Span)
    returns (outcome: In.Outcome, item: Item)
    requires OnTheWay(input, items, parts, i, read, p, w) && Readable(items) && AllEncode(items, parts, swapBytes)
    requires i < |items| == |parts| && shape == ShapeOf(items[i])
    modifies input, input.buffer
    ensures outcome == In.Done ==> OnTheWay(input, items, parts, i + 1, read + [item], p + |parts[i]|, w)
    ensures outcome != In.Done ==> Answered(outcome, items, w, |input.file|)
    ensures input.buffer == old(input.buffer) || fresh(input.buffer)
  {
    hide *;
    NextToRead(input, items, parts, i, read, p, w, swapBytes);
    ghost var now := input.Window();
    outcome, item := ReadItem(input, shape, swapBytes, p, items[i], parts[i]);
    if outcome == In.Done {
      NextItem(input, items, parts, i, read, p, now, w);
    } else {
      Failed(input, outcome, items, i, p, now, w);
    }
  }

  /** How reading items from the start of a file of the given length ends: a string is searched for its null past the
      window where they do not pass, and memory can only be short for an item longer than the window. */
  ghost predicate Answered(outcome: In.Outcome, items: seq<Item>, w: In.Span, length: nat) {
    && (outcome == In.Done ==> Passes(items, 0, w, length))
    && (outcome == In.OutsideBuffer ==> !Passes(items, 0, w, length))
    && (outcome == In.OutOfMemory ==> w.size < LargestRequest(items) && w.size < length)
  }

  ghost predicate ReadSoFar(items: seq<Item>, i: nat, read: seq<Item>) {
    i == |read| <= |items| && forall j :: 0 <= j < i ==> read[j] == Received(items[j])
  }

  /** With window w all items pass if and only if those from number i on pass with the present one. */
  ghost predicate Passing(items: seq<Item>, i: nat, p: int, now: In.Span, w: In.Span, length: nat) {
    i <= |items| && w.size <= now.size && (Passes(items, 0, w, length) <==> Passes(items[i..], p, now, length))
  }

  lemma NothingRead(input: In.BinaryInput, items: seq<Item>, parts: seq<seq<Byte>>, swapBytes: bool)
    requires Ready(input, 0) && RestAt(input.file, 0, parts, 0) && AllEncode(items, parts, swapBytes)
    ensures |parts| == |items| && OnTheWay(input, items, parts, 0, [], 0, input.Window())
  {
    assert items[0..] == items;
  }

  lemma AllRead(input: In.BinaryInput, items: seq<Item>, parts: seq<seq<Byte>>, read: seq<Item>, p: int, w: In.Span)
    requires |parts| == |items| && OnTheWay(input, items, parts, |items|, read, p, w)
    ensures ReadBack(items, read) && Ready(input, |input.file|) && Answered(In.Done, items, w, |input.file|)
  {
    assert items[|items|..] == [];
    NothingLeft(input.file, p, parts);
  }

  lemma NextToRead(input: In.BinaryInput, items: seq<Item>, parts: seq<seq<Byte>>, i: nat, read: seq<Item>, p: int,
                   w: In.Span,
                   swapBytes: bool)
    requires OnTheWay(input, items, parts, i, read, p, w) && i < |items| && Readable(items)
             && AllEncode(items, parts, swapBytes)
    ensures |parts| == |items| && Proper(items[i]) && Encodes(items[i], parts[i], swapBytes)
    ensures Ready(input, p) && 0 <= p < |input.file| && BytesAt(input.file, p, parts[i])
    ensures |parts[i]| == Size(items[i]) && p + Size(items[i]) <= |input.file|
            && RestAt(input.file, p + |parts[i]|, parts, i + 1)
    ensures ReadSoFar(items, i, read) && Passing(items, i, p, input.Window(), w, |input.file|)
  {
    MoreToRead(input.file, p, items, parts, i, swapBytes);
    NextPart(input.file, p, parts, i);
    EncodedSize(items[i], parts[i], swapBytes);
    hide Encodes;
    hide Size;
    hide Passing;
    hide Ready;
  }

  lemma NextItem(input: In.BinaryInput, items: seq<Item>, parts: seq<seq<Byte>>, i: nat, read: seq<Item>, p: int,
                 now: In.Span,
                 w: In.Span)
    requires i < |items| == |parts| && ReadSoFar(items, i, read) && |parts[i]| == Size(items[i])
    requires Ready(input, p + |parts[i]|) && RestAt(input.file, p + |parts[i]|, parts, i + 1)
    requires Passing(items, i, p, now, w, |input.file|) && Windowed(input, In.Done, items[i], p, now)
    ensures OnTheWay(input, items, parts, i + 1, read + [Received(items[i])], p + |parts[i]|, w)
  {
    var rest := items[i..];
    assert rest[0] == items[i] && rest[1..] == items[i + 1..];
    hide Size;
    hide Overruns;
    hide Received;
    hide Ready;
    hide RestAt;
  }

  lemma Failed(input: In.BinaryInput, outcome: In.Outcome, items: seq<Item>, i: nat, p: int, now: In.Span, w: In.Span)
    requires i < |items| && Passing(items, i, p, now, w, |input.file|) && Windowed(input, outcome, items[i], p, now)
    requires outcome != In.Done && 0 <= p < |input.file| && p + Size(items[i]) <= |input.file|
    ensures Answered(outcome, items, w, |input.file|)
  {
    LargestRequestIs(items, i);
    assert items[i..][0] == items[i];
    hide LargestRequest;
    hide FieldBits;
  }

  lemma NothingLeft(file: seq<Byte>, p: int, parts: seq<seq<Byte>>)
    requires RestAt(file, p, parts, |parts|)
    ensures p == |file|
  {
    assert parts[|parts|..] == [];
  }

  ghost predicate ReadBack(items: seq<Item>, read: seq<Item>) {
    ReadSoFar(items, |items|, read)
  }

  /** Writes any items to memory and reads them back with the same widths and byte order: everything is received,
      unless an allocation is refused. */
  method SaveAndLoad(items: seq<Item>, swapBytes: bool, memory: nat -> bool)
    returns (outcome: Out.Outcome, read: seq<Item>)
    requires Readable(items) && forall i :: 0 <= i < |items| ==> Proper(items[i])
    ensures outcome == Out.Done || outcome == Out.OutOfMemory
    ensures outcome == Out.OutOfMemory ==> exists k :: !memory(k)
    ensures outcome == Out.Done ==> ReadBack(items, read)
  {
    var out := new Out.BinaryOutput(Out.MEMORY, memory);
    read := [];
    assert [] + Joined([]) == [];
    ghost var parts;
    outcome, parts := WriteItems(out, items, swapBytes, []);
    if outcome == Out.Done {
      var data := out.buffer[..out.bufferLen];
      assert out.alreadyWritten == 0 && out.file[..0] + data == data;
      assert data == [] + Joined(parts) == Joined(parts);
      var result;
      result, read := Load(data, |data|, items, swapBytes, parts);
    }
  }

  /** Opens a file with a window of the given size and reads what has been written to it. */
  method Load(data: seq<Byte>, window: nat, items: seq<Item>, swapBytes: bool, ghost parts: seq<seq<Byte>>)
    returns (outcome: In.Outcome, read: seq<Item>)
    requires window <= |data| && data == Joined(parts) && Readable(items) && AllEncode(items, parts, swapBytes)
    ensures outcome == In.Done ==> ReadBack(items, read)
    ensures Answered(outcome, items, In.Span(0, window), |data|)
    ensures window == |data| ==> outcome == In.Done
  {
    hide Joined;
    hide Readable;
    hide AllEncode;
    hide Passes;
    hide ReadBack;
    hide LargestRequest;
    var input := new In.BinaryInput(data, window);
    assert parts[0..] == parts;
    var shapes := seq(|items|, i requires 0 <= i < |items| => ShapeOf(items[i]));
    outcome, read := ReadItems(input, shapes, swapBytes, items, parts);
    if window == |data| {
      WholePasses(items, 0, In.Span(0, window), |data|);
    }
  }

  /** Writes any items to a file and reads them back through a window of any size, whether or not parts of them were
      dumped before the commit. The file is the bytes of the items. Writing only fails if an allocation is refused or an
      item is too large; reading fails if a string is searched for its null past the window, and may fail for want of
      memory if an item is longer than the window. */
  method SaveAndLoadFile(name: string, items: seq<Item>, swapBytes: bool, memory: nat -> bool, window: nat)
    returns (wrote: Out.Outcome, file: seq<Byte>, outcome: In.Outcome, read: seq<Item>, ghost parts: seq<seq<Byte>>)
    requires name != Out.MEMORY && Readable(items) && forall i :: 0 <= i < |items| ==> Proper(items[i])
    ensures wrote == Out.Done || wrote == Out.OutOfMemory || wrote == Out.OverlappingCopy
    ensures LargestRequest(items) <= Out.BOUNDED_REQUEST && (forall k :: memory(k)) ==> wrote == Out.Done
    ensures wrote == Out.Done ==> AllEncode(items, parts, swapBytes) && file == Joined(parts)
    ensures wrote == Out.Done ==> Answered(outcome, items, In.Span(0, Min(window, |file|)), |file|)
    ensures wrote == Out.Done && window >= |file| ==> outcome == In.Done
    ensures wrote == Out.Done && outcome == In.Done ==> ReadBack(items, read)
  {
    var out := new Out.BinaryOutput(name, memory);
    outcome, read, file := In.Done, [], [];
    assert [] + Joined([]) == [];
    wrote, parts := WriteItems(out, items, swapBytes, []);
    if wrote == Out.Done {
      assert out.Contents() == [] + Joined(parts) == Joined(parts);
      var committed := out.Commit();
      file := out.file;
      outcome, read := Load(file, Min(window, |file|), items, swapBytes, parts);
    }
  }
}
